/**
 What RemoveUTXOs gives back after a block was applied. The effect of a block on every
 single entry is characterised first, with no assumption on the block.
 */
module Undo {
  import opened Types
  import opened Ledger

  function CreatedKeys(txHash: Hash, outputs: seq<TxOutput>): set<OutPoint> {
    set i | 0 <= i < |outputs| :: OutputKey(txHash, i)
  }

  function InputKeys(inputs: seq<TxInput>): set<OutPoint> {
    set i | 0 <= i < |inputs| :: InputKey(inputs[i])
  }

  /** Every output key of the transactions. */
  function Created(txs: seq<Transaction>): set<OutPoint> {
    set i, k | 0 <= i < |txs| && k in CreatedKeys(txs[i].hash, txs[i].outputs) :: k
  }

  /** Every key the transactions name as an input. */
  function Consumed(txs: seq<Transaction>): set<OutPoint> {
    set i, k | 0 <= i < |txs| && k in InputKeys(txs[i].inputs) :: k
  }

  function MarkSpent(u: Utxo, now: bool): Utxo {
    u.(spent := u.spent || now)
  }

  lemma {:induction false} SpendAllEntries(m: Utxos, inputs: seq<TxInput>)
    ensures SpendAll(m, inputs).Keys == m.Keys
    ensures forall k :: k in m ==> SpendAll(m, inputs)[k] == MarkSpent(m[k], k in InputKeys(inputs))
  {
    if inputs != [] {
      var front, last := inputs[..|inputs| - 1], InputKey(inputs[|inputs| - 1]);
      SpendAllEntries(m, front);
      InputKeysSnoc(inputs);
    }
  }

  lemma InputKeysSnoc(inputs: seq<TxInput>)
    requires inputs != []
    ensures InputKeys(inputs) == InputKeys(inputs[..|inputs| - 1]) + {InputKey(inputs[|inputs| - 1])}
  {
    var n := |inputs| - 1;
    forall k | k in InputKeys(inputs) ensures k in InputKeys(inputs[..n]) + {InputKey(inputs[n])} {
      var i :| 0 <= i < |inputs| && k == InputKey(inputs[i]);
      if i < n { assert inputs[..n][i] == inputs[i]; }
    }
    forall k | k in InputKeys(inputs[..n]) ensures k in InputKeys(inputs) {
      var i :| 0 <= i < n && k == InputKey(inputs[..n][i]);
      assert inputs[..n][i] == inputs[i];
    }
  }

  lemma {:induction false} AddAllEntries(m: Utxos, txHash: Hash, outputs: seq<TxOutput>, blockHash: Hash)
    ensures AddAll(m, txHash, outputs, blockHash).Keys == m.Keys + CreatedKeys(txHash, outputs)
    ensures forall k :: k in CreatedKeys(txHash, outputs) ==>
      AddAll(m, txHash, outputs, blockHash)[k].blockHash == blockHash
    ensures forall k :: k in m && k !in CreatedKeys(txHash, outputs) ==>
      AddAll(m, txHash, outputs, blockHash)[k] == m[k]
  {
    if outputs != [] {
      var n := |outputs| - 1;
      AddAllEntries(m, txHash, outputs[..n], blockHash);
      assert CreatedKeys(txHash, outputs) == CreatedKeys(txHash, outputs[..n]) + {OutputKey(txHash, n)};
    }
  }

  lemma TransactionEntries(m: Utxos, tx: Transaction, blockHash: Hash)
    ensures var m' := ApplyTransaction(m, tx, blockHash);
      var made := CreatedKeys(tx.hash, tx.outputs);
      && m'.Keys == m.Keys + made
      && (forall k :: k in made ==> m'[k].blockHash == blockHash)
      && (forall k :: k in m && k !in made ==> m'[k] == MarkSpent(m[k], k in InputKeys(tx.inputs)))
  {
    SpendAllEntries(m, tx.inputs);
    AddAllEntries(SpendAll(m, tx.inputs), tx.hash, tx.outputs, blockHash);
  }

  lemma CreatedSnoc(txs: seq<Transaction>)
    requires txs != []
    ensures var front, last := txs[..|txs| - 1], txs[|txs| - 1];
      && Created(txs) == Created(front) + CreatedKeys(last.hash, last.outputs)
      && Consumed(txs) == Consumed(front) + InputKeys(last.inputs)
  {
    var n := |txs| - 1;
    var front := txs[..n];
    assert forall i :: 0 <= i < n ==> front[i] == txs[i];
    hide CreatedKeys, InputKeys;
    forall k | k in Created(txs) ensures k in Created(front) + CreatedKeys(txs[n].hash, txs[n].outputs) {
      var i :| 0 <= i < |txs| && k in CreatedKeys(txs[i].hash, txs[i].outputs);
      if i < n { assert k in CreatedKeys(front[i].hash, front[i].outputs); }
    }
    forall k | k in Consumed(txs) ensures k in Consumed(front) + InputKeys(txs[n].inputs) {
      var i :| 0 <= i < |txs| && k in InputKeys(txs[i].inputs);
      if i < n { assert k in InputKeys(front[i].inputs); }
    }
  }

  /** Exactly which entries a block adds, overwrites and marks. */
  lemma {:induction false} BlockEntries(m: Utxos, txs: seq<Transaction>, blockHash: Hash)
    ensures var m' := ApplyTransactions(m, txs, blockHash);
      && m'.Keys == m.Keys + Created(txs)
      && (forall k :: k in Created(txs) ==> m'[k].blockHash == blockHash)
      && (forall k :: k in m && k !in Created(txs) ==> m'[k] == MarkSpent(m[k], k in Consumed(txs)))
  {
    hide CreatedKeys, InputKeys, ApplyTransaction;
    if txs == [] {
      assert Created(txs) == {} && Consumed(txs) == {};
    } else {
      hide Created, Consumed;
      var front, last := txs[..|txs| - 1], txs[|txs| - 1];
      BlockEntries(m, front, blockHash);
      TransactionEntries(ApplyTransactions(m, front, blockHash), last, blockHash);
      CreatedSnoc(txs);
    }
  }

  /** What is left after applying a block and removing it again, for any block at all. */
  lemma RemoveAfterApply(m: Utxos, b: Block)
    ensures RemoveBlock(ApplyBlock(m, b), b.hash)
      == map k | k in m && k !in Created(b.txs) && m[k].blockHash != b.hash :: MarkSpent(m[k], k in Consumed(b.txs))
  {
    BlockEntries(m, b.txs, b.hash);
    hide Created, Consumed, ApplyTransactions;
  }

  /** The condition a caller can check before applying: no output key taken, block hash unused. */
  predicate Removable(m: Utxos, b: Block) {
    forall k :: k in m ==> k !in Created(b.txs) && m[k].blockHash != b.hash
  }

  /** Undo restores every key exactly when the block was removable. */
  lemma UndoRestoresKeysIff(m: Utxos, b: Block)
    ensures RemoveBlock(ApplyBlock(m, b), b.hash).Keys == m.Keys <==> Removable(m, b)
  {
    RemoveAfterApply(m, b);
    hide Created, Consumed, ApplyBlock;
  }

  /** Then amounts, owners and origins are back too; only outputs the block spent stay marked. */
  lemma UndoRestoresEntries(m: Utxos, b: Block)
    requires Removable(m, b)
    ensures RemoveBlock(ApplyBlock(m, b), b.hash) == map k | k in m :: MarkSpent(m[k], k in Consumed(b.txs))
  {
    RemoveAfterApply(m, b);
    hide Created, Consumed, ApplyBlock;
  }

  /** The map is restored completely exactly when, besides, the block spends no unspent entry of it. */
  lemma UndoIsIdentityIff(m: Utxos, b: Block)
    ensures RemoveBlock(ApplyBlock(m, b), b.hash) == m
      <==> Removable(m, b) && forall k :: Spendable(m, k) ==> k !in Consumed(b.txs)
  {
    UndoRestoresKeysIff(m, b);
    hide Created, Consumed, ApplyBlock;
    if Removable(m, b) {
      UndoRestoresEntries(m, b);
      var back := RemoveBlock(ApplyBlock(m, b), b.hash);
      forall k | Spendable(m, k) && back == m ensures k !in Consumed(b.txs) {
        assert back[k] == MarkSpent(m[k], k in Consumed(b.txs));
      }
    }
  }

  /** A block whose transaction hashes and own hash are new to the map is undone up to spent marks. */
  lemma FreshBlockUndone(m: Utxos, b: Block)
    requires forall k, i :: k in m && 0 <= i < |b.txs| ==> k.txHash != b.txs[i].hash
    requires forall k :: k in m ==> m[k].blockHash != b.hash
    ensures RemoveBlock(ApplyBlock(m, b), b.hash) == map k | k in m :: MarkSpent(m[k], k in Consumed(b.txs))
  {
    assert Removable(m, b);
    UndoRestoresEntries(m, b);
    hide Created, Consumed, ApplyBlock;
  }
}
