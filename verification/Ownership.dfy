/**
 Who owns what: where the outputs of a transaction are recorded and for whom, and what a
 transaction, a payment or a block reward does to the balance of every single address.
 */
module Ownership {
  import opened Prelude
  import opened Types
  import opened Ledger
  import opened Conservation
  import opened Payments
  import opened Chain
  import Undo

  // ---------- the entries of one transaction ----------

  /** Output i is recorded under the transaction's hash and i cut to 32 bits, as long as no later output is. */
  lemma {:induction false} OutputRecorded(m: Utxos, txHash: Hash, outputs: seq<TxOutput>, blockHash: Hash, i: nat)
    requires i < |outputs| <= i + TWO32
    ensures var k := OutPoint(txHash, i % TWO32);
      var after := AddAll(m, txHash, outputs, blockHash);
      k in after
      && after[k] == Utxo(txHash, i % TWO32, outputs[i].amount, outputs[i].address, false, blockHash)
    decreases |outputs|
  {
    var n := |outputs| - 1;
    if i < n {
      OutputRecorded(m, txHash, outputs[..n], blockHash, i);
      IndexDiffers(i, n);
    }
  }

  /** The entry is named by one of the inputs. */
  predicate Named(inputs: seq<TxInput>, k: OutPoint) {
    exists i :: 0 <= i < |inputs| && k == OutPoint(inputs[i].previousTxHash, inputs[i].index)
  }

  /** The entry belongs to one of n outputs. */
  predicate Numbered(txHash: Hash, n: nat, k: OutPoint) {
    k.txHash == txHash && k.index < n
  }

  /**
   Everything a transaction of at most 2^32 outputs does: its outputs are recorded unspent
   for their receivers, entries it names are marked spent, all else stays.
   */
  lemma TransactionRecorded(m: Utxos, tx: Transaction, blockHash: Hash)
    requires |tx.outputs| <= TWO32
    ensures var after := ApplyTransaction(m, tx, blockHash);
      && (forall i: nat :: i < |tx.outputs| ==>
            OutPoint(tx.hash, i) in after
            && after[OutPoint(tx.hash, i)]
              == Utxo(tx.hash, i, tx.outputs[i].amount, tx.outputs[i].address, false, blockHash))
      && (forall k :: k in after ==> k in m || Numbered(tx.hash, |tx.outputs|, k))
      && (forall k :: k in m && !Numbered(tx.hash, |tx.outputs|, k) ==>
            k in after && after[k] == m[k].(spent := m[k].spent || Named(tx.inputs, k)))
  {
    var middle := SpendAll(m, tx.inputs);
    Undo.TransactionEntries(m, tx, blockHash);
    CreatedNumbered(tx);
    InputsNamed(tx.inputs);
    hide Undo.CreatedKeys, Undo.InputKeys, Numbered, Named, AddAll;
    forall i: nat | i < |tx.outputs|
      ensures OutPoint(tx.hash, i) in ApplyTransaction(m, tx, blockHash)
      ensures ApplyTransaction(m, tx, blockHash)[OutPoint(tx.hash, i)]
        == Utxo(tx.hash, i, tx.outputs[i].amount, tx.outputs[i].address, false, blockHash)
    {
      OutputRecorded(middle, tx.hash, tx.outputs, blockHash, i);
      SmallIndex(i);
    }
  }

  lemma SmallIndex(i: nat)
    requires i < TWO32
    ensures i % TWO32 == i
  {
  }

  lemma CreatedNumbered(tx: Transaction)
    requires |tx.outputs| <= TWO32
    ensures forall k :: k in Undo.CreatedKeys(tx.hash, tx.outputs) <==> Numbered(tx.hash, |tx.outputs|, k)
  {
    forall k | Numbered(tx.hash, |tx.outputs|, k) ensures k in Undo.CreatedKeys(tx.hash, tx.outputs) {
      assert k == OutputKey(tx.hash, k.index);
    }
  }

  lemma InputsNamed(inputs: seq<TxInput>)
    ensures forall k :: k in Undo.InputKeys(inputs) <==> Named(inputs, k)
  {
    forall k | Named(inputs, k) ensures k in Undo.InputKeys(inputs) {
      var i :| 0 <= i < |inputs| && k == OutPoint(inputs[i].previousTxHash, inputs[i].index);
      assert InputKey(inputs[i]) == k;
    }
  }

  // ---------- the ledger equation of any set of owners ----------

  /** What the outputs pay to these owners. */
  function PaidTo(owners: set<Address>, outputs: seq<TxOutput>): nat {
    if outputs == [] then 0
    else
      var last := outputs[|outputs| - 1];
      PaidTo(owners, outputs[..|outputs| - 1]) + if last.address in owners then last.amount else 0
  }

  /** What these owners lose because their entries are really spent. */
  function SpentFrom(m: Utxos, owners: set<Address>, inputs: seq<TxInput>): nat {
    if inputs == [] then 0
    else
      var front, k := inputs[..|inputs| - 1], InputKey(inputs[|inputs| - 1]);
      SpentFrom(m, owners, front) + Weigh(SpendAll(m, front), Owned(owners), k)
  }

  /** What these owners lose because an output is recorded over their entry. */
  function OverwrittenFrom(m: Utxos, owners: set<Address>, txHash: Hash, outputs: seq<TxOutput>, blockHash: Hash): nat {
    if outputs == [] then 0
    else
      var i := |outputs| - 1;
      OverwrittenFrom(m, owners, txHash, outputs[..i], blockHash)
      + Weigh(AddAll(m, txHash, outputs[..i], blockHash), Owned(owners), OutputKey(txHash, i))
  }

  lemma {:induction false} OwnedOfSpendAll(m: Utxos, owners: set<Address>, inputs: seq<TxInput>)
    ensures Sum(SpendAll(m, inputs), Owned(owners)) + SpentFrom(m, owners, inputs) == Sum(m, Owned(owners))
  {
    if inputs != [] {
      var front, k := inputs[..|inputs| - 1], InputKey(inputs[|inputs| - 1]);
      OwnedOfSpendAll(m, owners, front);
      var before := SpendAll(m, front);
      if Spendable(before, k) {
        SumUpdate(before, Owned(owners), k, before[k].(spent := true));
      }
    }
  }

  lemma {:induction false} OwnedOfAddAll(m: Utxos, owners: set<Address>, txHash: Hash, outputs: seq<TxOutput>,
                                         blockHash: Hash)
    ensures Sum(AddAll(m, txHash, outputs, blockHash), Owned(owners))
        + OverwrittenFrom(m, owners, txHash, outputs, blockHash)
      == Sum(m, Owned(owners)) + PaidTo(owners, outputs)
  {
    if outputs != [] {
      var i := |outputs| - 1;
      OwnedOfAddAll(m, owners, txHash, outputs[..i], blockHash);
      var before := AddAll(m, txHash, outputs[..i], blockHash);
      var k := OutputKey(txHash, i);
      var added := Utxo(k.txHash, k.index, outputs[i].amount, outputs[i].address, false, blockHash);
      SumUpdate(before, Owned(owners), k, added);
    }
  }

  /**
   Any transaction and any set of owners: together they gain what the outputs pay to them
   and lose what was really spent or overwritten of theirs.
   */
  lemma OwnerEquation(m: Utxos, owners: set<Address>, tx: Transaction, blockHash: Hash)
    ensures Sum(ApplyTransaction(m, tx, blockHash), Owned(owners))
        + SpentFrom(m, owners, tx.inputs)
        + OverwrittenFrom(SpendAll(m, tx.inputs), owners, tx.hash, tx.outputs, blockHash)
      == Sum(m, Owned(owners)) + PaidTo(owners, tx.outputs)
  {
    OwnedOfSpendAll(m, owners, tx.inputs);
    OwnedOfAddAll(SpendAll(m, tx.inputs), owners, tx.hash, tx.outputs, blockHash);
  }

  // ---------- balances ----------

  /** The recorded amounts of one address behind the inputs. */
  function InputsOf(m: Utxos, a: Address, inputs: seq<TxInput>): nat {
    if inputs == [] then 0
    else
      var last := inputs[|inputs| - 1];
      var k := OutPoint(last.previousTxHash, last.index);
      InputsOf(m, a, inputs[..|inputs| - 1]) + if k in m && m[k].address == a then m[k].amount else 0
  }

  lemma {:induction false} SpentFromHeld(m: Utxos, a: Address, inputs: seq<TxInput>)
    requires DistinctInputs(inputs) && InputsHeld(m, inputs)
    ensures SpentFrom(m, {a}, inputs) == InputsOf(m, a, inputs)
  {
    if inputs != [] {
      var n := |inputs| - 1;
      var front := inputs[..n];
      assert forall i :: 0 <= i < n ==> front[i] == inputs[i];
      SpentFromHeld(m, a, front);
      Undo.SpendAllEntries(m, front);
      assert InputKey(inputs[n]) !in Undo.InputKeys(front);
      assert Spendable(m, InputKey(inputs[n]));
    }
  }

  lemma {:induction false} NothingOverwrittenFrom(m: Utxos, owners: set<Address>, txHash: Hash, outputs: seq<TxOutput>,
                                                  blockHash: Hash)
    requires FreshHash(m, txHash) && |outputs| <= TWO32
    ensures OverwrittenFrom(m, owners, txHash, outputs, blockHash) == 0
  {
    if outputs != [] {
      var n := |outputs| - 1;
      NothingOverwrittenFrom(m, owners, txHash, outputs[..n], blockHash);
      Undo.AddAllEntries(m, txHash, outputs[..n], blockHash);
      KeyUnused(txHash, outputs[..n]);
    }
  }

  /** Under a fresh hash and with distinct unspent inputs, every balance changes by exactly its outputs and inputs. */
  lemma BalanceOfTransfer(m: Utxos, tx: Transaction, blockHash: Hash, a: Address)
    requires DistinctInputs(tx.inputs) && InputsHeld(m, tx.inputs)
    requires FreshHash(m, tx.hash) && |tx.outputs| <= TWO32
    ensures Balance(ApplyTransaction(m, tx, blockHash), a) + InputsOf(m, a, tx.inputs)
      == Balance(m, a) + PaidTo({a}, tx.outputs)
  {
    OwnerEquation(m, {a}, tx, blockHash);
    SpentFromHeld(m, a, tx.inputs);
    Undo.SpendAllEntries(m, tx.inputs);
    NothingOverwrittenFrom(SpendAll(m, tx.inputs), {a}, tx.hash, tx.outputs, blockHash);
  }

  lemma {:induction false} InputsOfOne(m: Utxos, from: Address, a: Address, inputs: seq<TxInput>)
    requires InputsHeld(m, inputs) && forall i :: 0 <= i < |inputs| ==> m[InputKey(inputs[i])].address == from
    ensures InputsOf(m, a, inputs) == if a == from then InputSum(m, inputs) else 0
  {
    if inputs != [] {
      var n := |inputs| - 1;
      var front := inputs[..n];
      forall i | 0 <= i < n ensures front[i] == inputs[i] {}
      InputsOfOne(m, from, a, front);
      assert Spendable(m, InputKey(inputs[n])) && m[InputKey(inputs[n])].address == from;
    }
  }

  lemma PaidByPayment(from: Address, to: Address, amount: u64, change: u64, a: Address)
    ensures PaidTo({a}, OutputsFor(from, to, amount, change))
      == (if a == to then amount else 0) + (if a == from then change else 0)
  {
    var x, y := TxOutput(to, amount), TxOutput(from, change);
    assert PaidTo({a}, [x]) == PaidTo({a}, [x][..0]) + if to in {a} then amount else 0;
    assert [x, y][..1] == [x];
  }

  /**
   From building to applying: a payment built without overflow and applied under a fresh
   hash takes amount and fee from the sender, gives the amount to the receiver, and leaves
   every other balance alone; sender and receiver may be the same.
   */
  lemma PaymentMovesBalances(sha: Sha256, m: Utxos, us: seq<Utxo>, from: Address, to: Address, amount: u64, fee: u64,
                             now: Time, blockHash: Hash, a: Address)
    requires WellKeyed(m) && Enumerates(m, from, us) && NoOverflow(us, amount, fee)
    requires Payment(sha, us, from, to, amount, fee, now).Ok?
    requires FreshHash(m, Payment(sha, us, from, to, amount, fee, now).value.hash)
    ensures var tx := Payment(sha, us, from, to, amount, fee, now).value;
      Balance(ApplyTransaction(m, tx, blockHash), a) + (if a == from then amount + fee else 0)
      == Balance(m, a) + (if a == to then amount else 0)
  {
    var tx := Payment(sha, us, from, to, amount, fee, now).value;
    PaymentCorrect(sha, m, us, from, to, amount, fee, now);
    PaymentShape(sha, us, from, to, amount, fee, now);
    var change := Change(us, TakenFrom(us, amount + fee, 0), amount, fee);
    assert tx.outputs == OutputsFor(from, to, amount, change);
    hide Payment, Enumerates, PrefixSum, TakenFrom, Change, OutputsFor, ApplyTransaction, WellKeyed;
    hide FreshHash, DistinctInputs, InputsHeld;
    OutputSumOfPayment(from, to, amount, change);
    PaidByPayment(from, to, amount, change, a);
    InputsOfOne(m, from, a, tx.inputs);
    BalanceOfTransfer(m, tx, blockHash, a);
  }

  /** Applying a block reward under a fresh hash credits the miner with the reward, and nobody else. */
  lemma RewardCredits(sha: Sha256, m: Utxos, miner: Address, amount: u64, now: Time, blockHash: Hash, a: Address)
    requires FreshHash(m, RewardTransaction(sha, miner, amount, now).hash)
    ensures Balance(ApplyTransaction(m, RewardTransaction(sha, miner, amount, now), blockHash), a)
      == Balance(m, a) + if a == miner then amount else 0
  {
    var tx := RewardTransaction(sha, miner, amount, now);
    var o := TxOutput(miner, amount);
    assert PaidTo({a}, [o]) == PaidTo({a}, [o][..0]) + if miner in {a} then amount else 0;
    BalanceOfTransfer(m, tx, blockHash, a);
  }

  // ---------- order within a block ----------

  /**
   Transactions of a block take effect one after the other: an output of one of them is
   spent after the block if a later one names it, its hash not being reused.
   */
  lemma {:induction false} LaterSpendsEarlier(m: Utxos, txs: seq<Transaction>, blockHash: Hash, i: nat, n: nat)
    requires i < |txs| && n < |txs[i].outputs|
    requires forall l :: 0 <= l < |txs| ==> |txs[l].outputs| <= TWO32
    requires forall l :: i < l < |txs| ==> txs[l].hash != txs[i].hash
    ensures var after := ApplyTransactions(m, txs, blockHash);
      var k := OutPoint(txs[i].hash, n);
      && k in after && after[k].amount == txs[i].outputs[n].amount && after[k].address == txs[i].outputs[n].address
      && (after[k].spent <==> exists l :: i < l < |txs| && Named(txs[l].inputs, k))
    decreases |txs|
  {
    var last := |txs| - 1;
    var front, tx := txs[..last], txs[last];
    var k := OutPoint(txs[i].hash, n);
    TransactionRecorded(ApplyTransactions(m, front, blockHash), tx, blockHash);
    if i < last {
      LaterSpendsEarlier(m, front, blockHash, i, n);
    }
  }
}
