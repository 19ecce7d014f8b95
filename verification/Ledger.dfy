/**
 The unspent-output map of core/utxo.go as a value, and what a transaction does to it
 (`processTransactionUTXOs` in core/blockchain.go), branch by branch.
 */
module Ledger {
  import opened Prelude
  import opened Types

  datatype OutPoint = OutPoint(txHash: Hash, index: u32)

  datatype Utxo = Utxo(txHash: Hash, index: u32, amount: u64, address: Address, spent: bool, blockHash: Hash)

  /** Keyed by (hash, index); the program's string key is an injective spelling of the pair. */
  type Utxos = map<OutPoint, Utxo>

  /** getKey: the hash bytes, a colon, the index as four bytes. */
  function KeyBytes(k: OutPoint): seq<byte> {
    k.txHash + [58] + Bytes4(k.index)
  }

  lemma KeyBytesInjective(k: OutPoint, l: OutPoint)
    requires KeyBytes(k) == KeyBytes(l)
    ensures k == l
  {
    hide Bytes4;
    assert KeyBytes(k)[..32] == k.txHash && KeyBytes(l)[..32] == l.txHash;
    assert KeyBytes(k)[33..] == Bytes4(k.index) && KeyBytes(l)[33..] == Bytes4(l.index);
    Bytes4Injective(k.index, l.index);
  }

  // ---------- the operations ----------

  function Add(m: Utxos, k: OutPoint, amount: u64, address: Address, blockHash: Hash): Utxos {
    m[k := Utxo(k.txHash, k.index, amount, address, false, blockHash)]
  }

  predicate Spendable(m: Utxos, k: OutPoint) {
    k in m && !m[k].spent
  }

  function Spend(m: Utxos, k: OutPoint): Utxos {
    if Spendable(m, k) then m[k := m[k].(spent := true)] else m
  }

  function InputKey(input: TxInput): OutPoint {
    OutPoint(input.previousTxHash, input.index)
  }

  /** Output i of a transaction; the index is converted with `uint32(i)`. */
  function OutputKey(txHash: Hash, i: nat): OutPoint {
    OutPoint(txHash, i % TWO32)
  }

  function SpendAll(m: Utxos, inputs: seq<TxInput>): Utxos {
    if inputs == [] then m
    else Spend(SpendAll(m, inputs[..|inputs| - 1]), InputKey(inputs[|inputs| - 1]))
  }

  function AddAll(m: Utxos, txHash: Hash, outputs: seq<TxOutput>, blockHash: Hash): Utxos {
    if outputs == [] then m
    else
      var i := |outputs| - 1;
      var before := AddAll(m, txHash, outputs[..i], blockHash);
      Add(before, OutputKey(txHash, i), outputs[i].amount, outputs[i].address, blockHash)
  }

  function ApplyTransaction(m: Utxos, tx: Transaction, blockHash: Hash): Utxos {
    AddAll(SpendAll(m, tx.inputs), tx.hash, tx.outputs, blockHash)
  }

  function ApplyTransactions(m: Utxos, txs: seq<Transaction>, blockHash: Hash): Utxos {
    if txs == [] then m
    else ApplyTransaction(ApplyTransactions(m, txs[..|txs| - 1], blockHash), txs[|txs| - 1], blockHash)
  }

  function ApplyBlock(m: Utxos, b: Block): Utxos {
    ApplyTransactions(m, b.txs, b.hash)
  }

  function ApplyBlocks(m: Utxos, blocks: seq<Block>): Utxos {
    if blocks == [] then m
    else ApplyBlock(ApplyBlocks(m, blocks[..|blocks| - 1]), blocks[|blocks| - 1])
  }

  lemma EmptyBlock(m: Utxos, b: Block)
    requires b.txs == []
    ensures ApplyBlock(m, b) == m
  {
  }

  /** RemoveUTXOs: forget everything a block created. */
  function RemoveBlock(m: Utxos, blockHash: Hash): Utxos {
    map k | k in m && m[k].blockHash != blockHash :: m[k]
  }

  // ---------- sums over the map ----------

  type Weight = Utxo -> nat

  ghost function Sum(m: Utxos, w: Weight): nat {
    if m == map[] then 0
    else
      var k :| k in m;
      w(m[k]) + Sum(m - {k}, w)
  }

  /** The choice of key in Sum does not matter. */
  lemma {:induction false} SumSplit(m: Utxos, w: Weight, k: OutPoint)
    requires k in m
    ensures Sum(m, w) == w(m[k]) + Sum(m - {k}, w)
  {
    var l :| l in m && Sum(m, w) == w(m[l]) + Sum(m - {l}, w);
    if l != k {
      SumSplit(m - {l}, w, k);
      SumSplit(m - {k}, w, l);
      assert m - {l} - {k} == m - {k} - {l};
    }
  }

  function Weigh(m: Utxos, w: Weight, k: OutPoint): nat {
    if k in m then w(m[k]) else 0
  }

  lemma SumUpdate(m: Utxos, w: Weight, k: OutPoint, u: Utxo)
    ensures Sum(m[k := u], w) + Weigh(m, w, k) == Sum(m, w) + w(u)
  {
    var m' := m[k := u];
    SumSplit(m', w, k);
    assert m' - {k} == m - {k};
    if k in m {
      SumSplit(m, w, k);
    } else {
      assert m - {k} == m;
    }
  }

  lemma {:induction false} SumAdditive(m: Utxos, v: Weight, w: Weight, x: Weight)
    requires forall k :: k in m ==> x(m[k]) == v(m[k]) + w(m[k])
    ensures Sum(m, x) == Sum(m, v) + Sum(m, w)
  {
    if m != map[] {
      var k :| k in m;
      SumSplit(m, v, k);
      SumSplit(m, w, k);
      SumSplit(m, x, k);
      SumAdditive(m - {k}, v, w, x);
    }
  }

  /** What an entry still is worth. */
  function Unspent(u: Utxo): nat {
    if u.spent then 0 else u.amount
  }

  function Owned(owners: set<Address>): Weight {
    (u: Utxo) => if u.address in owners then Unspent(u) else 0
  }

  /** The total unspent value. */
  ghost function Total(m: Utxos): nat {
    Sum(m, Unspent)
  }

  /** The unspent value of one address. */
  ghost function Balance(m: Utxos, a: Address): nat {
    Sum(m, Owned({a}))
  }

  ghost function BalanceSum(m: Utxos, owners: set<Address>): nat {
    if owners == {} then 0
    else
      var a :| a in owners;
      Balance(m, a) + BalanceSum(m, owners - {a})
  }

  /** Balances over all addresses add up to the total. */
  lemma BalancesSumToTotal(m: Utxos, owners: set<Address>)
    requires forall k :: k in m ==> m[k].address in owners
    ensures BalanceSum(m, owners) == Total(m)
  {
    BalanceSumOwned(m, owners);
    SumAgree(m, Owned(owners), Unspent);
  }

  lemma {:induction false} SumAgree(m: Utxos, v: Weight, w: Weight)
    requires forall k :: k in m ==> v(m[k]) == w(m[k])
    ensures Sum(m, v) == Sum(m, w)
  {
    if m != map[] {
      var k :| k in m;
      SumSplit(m, v, k);
      SumSplit(m, w, k);
      SumAgree(m - {k}, v, w);
    }
  }

  lemma {:induction false} BalanceSumOwned(m: Utxos, owners: set<Address>)
    ensures BalanceSum(m, owners) == Sum(m, Owned(owners))
  {
    if owners == {} {
      SumNothing(m);
    } else {
      var a :| a in owners && BalanceSum(m, owners) == Balance(m, a) + BalanceSum(m, owners - {a});
      BalanceSumOwned(m, owners - {a});
      assert forall k :: k in m ==> Owned(owners)(m[k]) == Owned({a})(m[k]) + Owned(owners - {a})(m[k]);
      SumAdditive(m, Owned({a}), Owned(owners - {a}), Owned(owners));
      assert Balance(m, a) == Sum(m, Owned({a}));
    }
  }

  lemma {:induction false} SumNothing(m: Utxos)
    ensures Sum(m, Owned({})) == 0
  {
    if m != map[] {
      var k :| k in m;
      SumSplit(m, Owned({}), k);
      SumNothing(m - {k});
    }
  }

  // ---------- the exact ledger equation ----------

  /** The amounts of the inputs whose SpendUTXO returned true. */
  function SpentValue(m: Utxos, inputs: seq<TxInput>): nat {
    if inputs == [] then 0
    else
      var front, k := inputs[..|inputs| - 1], InputKey(inputs[|inputs| - 1]);
      var before := SpendAll(m, front);
      SpentValue(m, front) + if Spendable(before, k) then before[k].amount else 0
  }

  function OutputSum(outputs: seq<TxOutput>): nat {
    if outputs == [] then 0
    else OutputSum(outputs[..|outputs| - 1]) + outputs[|outputs| - 1].amount
  }

  /** The unspent amounts that adding the outputs overwrites under the same key. */
  function Overwritten(m: Utxos, txHash: Hash, outputs: seq<TxOutput>, blockHash: Hash): nat {
    if outputs == [] then 0
    else
      var i := |outputs| - 1;
      Overwritten(m, txHash, outputs[..i], blockHash)
      + Weigh(AddAll(m, txHash, outputs[..i], blockHash), Unspent, OutputKey(txHash, i))
  }

  lemma {:induction false} TotalOfSpendAll(m: Utxos, inputs: seq<TxInput>)
    ensures Total(SpendAll(m, inputs)) + SpentValue(m, inputs) == Total(m)
  {
    if inputs != [] {
      var front, k := inputs[..|inputs| - 1], InputKey(inputs[|inputs| - 1]);
      TotalOfSpendAll(m, front);
      var before := SpendAll(m, front);
      if Spendable(before, k) {
        SumUpdate(before, Unspent, k, before[k].(spent := true));
      }
    }
  }

  lemma {:induction false} TotalOfAddAll(m: Utxos, txHash: Hash, outputs: seq<TxOutput>, blockHash: Hash)
    ensures Total(AddAll(m, txHash, outputs, blockHash)) + Overwritten(m, txHash, outputs, blockHash)
      == Total(m) + OutputSum(outputs)
  {
    if outputs != [] {
      var i := |outputs| - 1;
      TotalOfAddAll(m, txHash, outputs[..i], blockHash);
      var before := AddAll(m, txHash, outputs[..i], blockHash);
      var k := OutputKey(txHash, i);
      SumUpdate(before, Unspent, k, Utxo(k.txHash, k.index, outputs[i].amount, outputs[i].address, false, blockHash));
    }
  }

  /**
   Applying any transaction whatever, with no assumption on its inputs, hash or outputs:
   the unspent total grows by the outputs and shrinks by what was really spent and by
   what was overwritten.
   */
  lemma LedgerEquation(m: Utxos, tx: Transaction, blockHash: Hash)
    ensures Total(ApplyTransaction(m, tx, blockHash))
        + SpentValue(m, tx.inputs) + Overwritten(SpendAll(m, tx.inputs), tx.hash, tx.outputs, blockHash)
      == Total(m) + OutputSum(tx.outputs)
  {
    TotalOfSpendAll(m, tx.inputs);
    TotalOfAddAll(SpendAll(m, tx.inputs), tx.hash, tx.outputs, blockHash);
  }
}
