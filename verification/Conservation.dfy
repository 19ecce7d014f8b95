/**
 Value over one transaction: exactly when is nothing created, lost or duplicated?
 */
module Conservation {
  import opened Types
  import opened Ledger
  import Undo

  predicate DistinctInputs(inputs: seq<TxInput>) {
    forall i, j :: 0 <= i < j < |inputs| ==> InputKey(inputs[i]) != InputKey(inputs[j])
  }

  predicate InputsHeld(m: Utxos, inputs: seq<TxInput>) {
    forall i :: 0 <= i < |inputs| ==> Spendable(m, InputKey(inputs[i]))
  }

  /** The recorded amounts behind the inputs, spent or not. */
  function InputSum(m: Utxos, inputs: seq<TxInput>): nat {
    if inputs == [] then 0
    else
      var k := InputKey(inputs[|inputs| - 1]);
      InputSum(m, inputs[..|inputs| - 1]) + if k in m then m[k].amount else 0
  }

  predicate FreshHash(m: Utxos, h: Hash) {
    forall k :: k in m ==> k.txHash != h
  }

  /** Distinct unspent inputs are all really spent. */
  lemma {:induction false} SpentValueOfHeld(m: Utxos, inputs: seq<TxInput>)
    requires DistinctInputs(inputs) && InputsHeld(m, inputs)
    ensures SpentValue(m, inputs) == InputSum(m, inputs)
  {
    if inputs != [] {
      var n := |inputs| - 1;
      var front := inputs[..n];
      assert forall i :: 0 <= i < n ==> front[i] == inputs[i];
      SpentValueOfHeld(m, front);
      Undo.SpendAllEntries(m, front);
      assert InputKey(inputs[n]) !in Undo.InputKeys(front);
      assert Spendable(m, InputKey(inputs[n]));
    }
  }

  /** Under a fresh hash nothing is overwritten. */
  lemma NothingOverwritten(m: Utxos, txHash: Hash, outputs: seq<TxOutput>, blockHash: Hash)
    requires FreshHash(m, txHash) && |outputs| <= TWO32
    ensures Overwritten(m, txHash, outputs, blockHash) == 0
  {
    OverwrittenZeroIff(m, txHash, outputs, blockHash);
  }

  /** One transaction with distinct unspent inputs and a fresh hash moves value and burns its fee. */
  lemma TransferEquation(m: Utxos, tx: Transaction, blockHash: Hash)
    requires DistinctInputs(tx.inputs) && InputsHeld(m, tx.inputs)
    requires FreshHash(m, tx.hash) && |tx.outputs| <= TWO32
    ensures Total(ApplyTransaction(m, tx, blockHash)) + InputSum(m, tx.inputs) == Total(m) + OutputSum(tx.outputs)
  {
    LedgerEquation(m, tx, blockHash);
    SpentValueOfHeld(m, tx.inputs);
    Undo.SpendAllEntries(m, tx.inputs);
    NothingOverwritten(SpendAll(m, tx.inputs), tx.hash, tx.outputs, blockHash);
  }

  /** No output of this list worth something shares its key with a later one: the index is cut to 32 bits. */
  predicate OutputsKept(outputs: seq<TxOutput>) {
    forall i :: 0 <= i && i + TWO32 < |outputs| ==> outputs[i].amount == 0
  }

  /** No created key is still worth something in the map. */
  predicate NoneOverwritten(m: Utxos, txHash: Hash, outputs: seq<TxOutput>) {
    forall k :: k in Undo.CreatedKeys(txHash, outputs) && Spendable(m, k) ==> m[k].amount == 0
  }

  /** While no key repeats, adding overwrites nothing of its own. */
  lemma LastEntry(m: Utxos, txHash: Hash, outputs: seq<TxOutput>, blockHash: Hash, i: nat)
    requires i < |outputs| <= i + TWO32
    ensures var after := AddAll(m, txHash, outputs, blockHash);
      var k := OutputKey(txHash, i);
      k in after && Unspent(after[k]) == outputs[i].amount
    decreases |outputs|
  {
    var n := |outputs| - 1;
    if i < n {
      LastEntry(m, txHash, outputs[..n], blockHash, i);
      IndexDiffers(i, n);
    }
  }

  lemma IndexDiffers(i: nat, j: nat)
    requires i < j < i + TWO32
    ensures i % TWO32 != j % TWO32
  {
  }

  /** What the next output overwrites: an output 2^32 positions earlier, or an entry of the map. */
  lemma NextOverwrites(m: Utxos, txHash: Hash, outputs: seq<TxOutput>, blockHash: Hash)
    ensures var n := |outputs|;
      var k := OutputKey(txHash, n);
      Weigh(AddAll(m, txHash, outputs, blockHash), Unspent, k)
      == if n < TWO32 then Weigh(m, Unspent, k) else outputs[n - TWO32].amount
  {
    var n := |outputs|;
    Undo.AddAllEntries(m, txHash, outputs, blockHash);
    if n < TWO32 {
      KeyUnused(txHash, outputs);
      hide AddAll, OutputKey, Undo.CreatedKeys, Unspent;
    } else {
      LastEntry(m, txHash, outputs, blockHash, n - TWO32);
      SameKey(txHash, n);
      hide AddAll, OutputKey, Undo.CreatedKeys, Unspent;
    }
  }

  lemma KeyUnused(txHash: Hash, outputs: seq<TxOutput>)
    requires |outputs| < TWO32
    ensures OutputKey(txHash, |outputs|) !in Undo.CreatedKeys(txHash, outputs)
  {
    forall i | 0 <= i < |outputs| ensures OutputKey(txHash, i) != OutputKey(txHash, |outputs|) {
      IndexDiffers(i, |outputs|);
    }
  }

  lemma SameKey(txHash: Hash, n: nat)
    requires n >= TWO32
    ensures OutputKey(txHash, n - TWO32) == OutputKey(txHash, n)
  {
  }

  lemma OutputsKeptSnoc(outputs: seq<TxOutput>)
    requires outputs != []
    ensures var n := |outputs| - 1;
      OutputsKept(outputs) <==> OutputsKept(outputs[..n]) && (n >= TWO32 ==> outputs[n - TWO32].amount == 0)
  {
    var n := |outputs| - 1;
    forall i | 0 <= i < n ensures outputs[..n][i] == outputs[i] {}
  }

  lemma NoneOverwrittenSnoc(m: Utxos, txHash: Hash, outputs: seq<TxOutput>)
    requires outputs != []
    ensures var n := |outputs| - 1;
      NoneOverwritten(m, txHash, outputs)
      <==> NoneOverwritten(m, txHash, outputs[..n]) && Weigh(m, Unspent, OutputKey(txHash, n)) == 0
  {
    var n := |outputs| - 1;
    assert Undo.CreatedKeys(txHash, outputs) == Undo.CreatedKeys(txHash, outputs[..n]) + {OutputKey(txHash, n)};
    hide Undo.CreatedKeys;
  }

  /** From 2^32 on the keys repeat, so the map's entries there were reached before. */
  lemma KeyRepeats(m: Utxos, txHash: Hash, outputs: seq<TxOutput>)
    requires |outputs| >= TWO32 && NoneOverwritten(m, txHash, outputs)
    ensures Weigh(m, Unspent, OutputKey(txHash, |outputs|)) == 0
  {
    var i := |outputs| - TWO32;
    SameKey(txHash, |outputs|);
    hide OutputKey;
    assert OutputKey(txHash, i) in Undo.CreatedKeys(txHash, outputs);
  }

  lemma {:induction false} OverwrittenZeroIff(m: Utxos, txHash: Hash, outputs: seq<TxOutput>, blockHash: Hash)
    ensures Overwritten(m, txHash, outputs, blockHash) == 0
      <==> OutputsKept(outputs) && NoneOverwritten(m, txHash, outputs)
  {
    if outputs != [] {
      var n := |outputs| - 1;
      var front := outputs[..n];
      hide OutputsKept, NoneOverwritten, AddAll, OutputKey, Weigh;
      OverwrittenZeroIff(m, txHash, front, blockHash);
      NextOverwrites(m, txHash, front, blockHash);
      OutputsKeptSnoc(outputs);
      NoneOverwrittenSnoc(m, txHash, outputs);
      if n >= TWO32 && NoneOverwritten(m, txHash, front) {
        KeyRepeats(m, txHash, front);
      }
    }
  }

  /** An input that is worth something is unspent, and not already named by an earlier input. */
  predicate ReallySpent(m: Utxos, inputs: seq<TxInput>, i: nat)
    requires i < |inputs|
  {
    var k := InputKey(inputs[i]);
    k in m && m[k].amount > 0 ==> !m[k].spent && k !in Undo.InputKeys(inputs[..i])
  }

  predicate AllReallySpent(m: Utxos, inputs: seq<TxInput>) {
    forall i :: 0 <= i < |inputs| ==> ReallySpent(m, inputs, i)
  }

  lemma AllReallySpentSnoc(m: Utxos, inputs: seq<TxInput>)
    requires inputs != []
    ensures AllReallySpent(m, inputs)
      <==> AllReallySpent(m, inputs[..|inputs| - 1]) && ReallySpent(m, inputs, |inputs| - 1)
  {
    var n := |inputs| - 1;
    var front := inputs[..n];
    forall i | 0 <= i < n ensures ReallySpent(m, front, i) == ReallySpent(m, inputs, i) {
      assert front[..i] == inputs[..i];
    }
  }

  /** Inputs never spend more than their recorded amounts, and all of it only if every one is really spent. */
  lemma {:induction false} SpentValueIff(m: Utxos, inputs: seq<TxInput>)
    ensures SpentValue(m, inputs) <= InputSum(m, inputs)
    ensures SpentValue(m, inputs) == InputSum(m, inputs) <==> AllReallySpent(m, inputs)
  {
    if inputs != [] {
      var n := |inputs| - 1;
      SpentValueIff(m, inputs[..n]);
      Undo.SpendAllEntries(m, inputs[..n]);
      AllReallySpentSnoc(m, inputs);
      hide AllReallySpent, Undo.InputKeys;
    }
  }

  /**
   For any inputs under a fresh hash the equation holds exactly when every input worth
   something is unspent and named once. The result of SpendUTXO is ignored, so in every
   other case value is created, never lost.
   */
  lemma FreshTransferConservesIff(m: Utxos, tx: Transaction, blockHash: Hash)
    requires FreshHash(m, tx.hash) && |tx.outputs| <= TWO32
    ensures Total(ApplyTransaction(m, tx, blockHash)) + InputSum(m, tx.inputs) == Total(m) + OutputSum(tx.outputs)
      <==> AllReallySpent(m, tx.inputs)
    ensures Total(ApplyTransaction(m, tx, blockHash)) + InputSum(m, tx.inputs) >= Total(m) + OutputSum(tx.outputs)
  {
    LedgerEquation(m, tx, blockHash);
    SpentValueIff(m, tx.inputs);
    Undo.SpendAllEntries(m, tx.inputs);
    NothingOverwritten(SpendAll(m, tx.inputs), tx.hash, tx.outputs, blockHash);
  }

  /** The created keys, inputs aside, hold nothing of value, and no two valuable outputs share a key. */
  predicate NothingLost(m: Utxos, tx: Transaction) {
    && OutputsKept(tx.outputs)
    && forall k :: k in Undo.CreatedKeys(tx.hash, tx.outputs) && Spendable(m, k) && k !in Undo.InputKeys(tx.inputs)
                   ==> m[k].amount == 0
  }

  /**
   For any transaction whatever: what is created is exactly the inputs not really spent,
   what is lost is what the outputs overwrite, and neither happens exactly under these two
   conditions.
   */
  lemma NeitherCreatedNorLostIff(m: Utxos, tx: Transaction, blockHash: Hash)
    ensures var created := InputSum(m, tx.inputs) - SpentValue(m, tx.inputs);
      var lost := Overwritten(SpendAll(m, tx.inputs), tx.hash, tx.outputs, blockHash);
      && created >= 0
      && Total(ApplyTransaction(m, tx, blockHash)) + InputSum(m, tx.inputs) + lost
        == Total(m) + OutputSum(tx.outputs) + created
      && (created == 0 <==> AllReallySpent(m, tx.inputs))
      && (lost == 0 <==> NothingLost(m, tx))
  {
    LedgerEquation(m, tx, blockHash);
    SpentValueIff(m, tx.inputs);
    OverwrittenZeroIff(SpendAll(m, tx.inputs), tx.hash, tx.outputs, blockHash);
    LostAfterSpending(m, tx);
  }

  /** Once the inputs are marked, only the other keys can be overwritten at a loss. */
  lemma LostAfterSpending(m: Utxos, tx: Transaction)
    ensures OutputsKept(tx.outputs) && NoneOverwritten(SpendAll(m, tx.inputs), tx.hash, tx.outputs)
      <==> NothingLost(m, tx)
  {
    Undo.SpendAllEntries(m, tx.inputs);
    hide Undo.CreatedKeys, Undo.InputKeys, OutputsKept;
  }

  /** An input on which it fails: one output of 5, named twice, pays for an output of 10. */
  lemma TwiceNamedInputCreatesValue(k: OutPoint, owner: Address, tx: Transaction, blockHash: Hash)
    requires tx.hash != k.txHash
    requires tx.inputs == [TxInput(k.txHash, k.index, []), TxInput(k.txHash, k.index, [])]
    requires tx.outputs == [TxOutput(owner, 10)]
    ensures var m := map[k := Utxo(k.txHash, k.index, 5, owner, false, blockHash)];
      && InputSum(m, tx.inputs) == OutputSum(tx.outputs)
      && Total(m) == 5 && Total(ApplyTransaction(m, tx, blockHash)) == 10
  {
    var m := map[k := Utxo(k.txHash, k.index, 5, owner, false, blockHash)];
    TwiceNamedSums(m, k, tx.inputs);
    assert OutputSum(tx.outputs) == OutputSum(tx.outputs[..0]) + 10;
    SumSplit(m, Unspent, k);
    assert m - {k} == map[];
    LedgerEquation(m, tx, blockHash);
    Undo.SpendAllEntries(m, tx.inputs);
    NothingOverwritten(SpendAll(m, tx.inputs), tx.hash, tx.outputs, blockHash);
  }

  lemma TwiceNamedSums(m: Utxos, k: OutPoint, inputs: seq<TxInput>)
    requires Spendable(m, k) && |inputs| == 2 && InputKey(inputs[0]) == k && InputKey(inputs[1]) == k
    ensures InputSum(m, inputs) == 2 * m[k].amount && SpentValue(m, inputs) == m[k].amount
  {
    var first := inputs[..1];
    assert first[0] == inputs[0] && first[..0] == [];
    var none: seq<TxInput> := [];
    assert SpendAll(m, none) == m && SpentValue(m, none) == 0 && InputSum(m, none) == 0;
    assert SpendAll(m, first) == Spend(m, k);
    assert SpentValue(m, first) == m[k].amount && InputSum(m, first) == m[k].amount;
    assert !Spendable(SpendAll(m, first), k);
  }

  /** For distinct unspent inputs that decides the equation: the freshness of the hash cannot be dropped. */
  lemma TransferConservesIff(m: Utxos, tx: Transaction, blockHash: Hash)
    requires DistinctInputs(tx.inputs) && InputsHeld(m, tx.inputs)
    ensures Total(ApplyTransaction(m, tx, blockHash)) + InputSum(m, tx.inputs) == Total(m) + OutputSum(tx.outputs)
      <==> NothingLost(m, tx)
  {
    NeitherCreatedNorLostIff(m, tx, blockHash);
    SpentValueOfHeld(m, tx.inputs);
    hide NothingLost;
  }
}
