/**
 The mempool over whole runs: which transactions are pending after any additions and
 submissions, and that a template does not repeat what is already on the chain.
 */
module Pool {
  import opened Types
  import opened Chain

  /** A transaction is added by its hash, or a block is submitted. */
  datatype Event = Added(tx: Transaction) | Submitted(block: Block)

  /** Mempool.AddTransaction, addBlockV2. */
  function Next(s: State, e: Event): State {
    match e
    case Added(tx) => s.(mempool := s.mempool[tx.hash := tx])
    case Submitted(b) => Submit(s, b)
  }

  function Run(s: State, es: seq<Event>): State {
    if es == [] then s else Next(Run(s, es[..|es| - 1]), es[|es| - 1])
  }

  predicate Includes(b: Block, k: Hash) {
    exists i :: 0 <= i < |b.txs| && b.txs[i].hash == k
  }

  /** An accepted block takes its own transactions out of the pool and no others; a refused one takes none. */
  lemma PoolAfterSubmit(s: State, b: Block, k: Hash)
    ensures Acceptable(s, b) ==> (k in Submit(s, b).mempool <==> k in s.mempool && !Includes(b, k))
    ensures !Acceptable(s, b) ==> Submit(s, b).mempool == s.mempool
    ensures k in Submit(s, b).mempool ==> k in s.mempool && Submit(s, b).mempool[k] == s.mempool[k]
  {
    hide Acceptable;
    IncludedHashes(b);
  }

  lemma IncludedHashes(b: Block)
    ensures forall k :: k in TxHashes(b.txs) <==> Includes(b, k)
  {
  }

  /** Event i puts hash k into the pool. */
  predicate Adds(es: seq<Event>, i: nat, k: Hash) {
    i < |es| && es[i].Added? && es[i].tx.hash == k
  }

  /** Event i is an accepted block with a transaction of hash k. */
  predicate Takes(s: State, es: seq<Event>, i: nat, k: Hash) {
    i < |es| && es[i].Submitted? && Acceptable(Run(s, es[..i]), es[i].block) && Includes(es[i].block, k)
  }

  /** Added at i, and not taken since. */
  predicate PendingSince(s: State, es: seq<Event>, i: nat, k: Hash) {
    Adds(es, i, k) && forall j: nat :: i < j < |es| ==> !Takes(s, es, j, k)
  }

  lemma PrefixEvents(s: State, es: seq<Event>, i: nat, k: Hash)
    requires es != [] && i < |es| - 1
    ensures Adds(es[..|es| - 1], i, k) == Adds(es, i, k)
    ensures Takes(s, es[..|es| - 1], i, k) == Takes(s, es, i, k)
  {
    assert es[..|es| - 1][..i] == es[..i];
  }

  /** The pool is filed by hash. */
  predicate Filed(m: Mempool) {
    forall k :: k in m ==> m[k].hash == k
  }

  /**
   Exactly what is pending after any additions and submissions to a node that started with
   an empty pool: what was added and not taken by an accepted block since.
   */
  lemma {:induction false} PendingIff(s: State, es: seq<Event>, k: Hash)
    requires s.mempool == map[]
    ensures k in Run(s, es).mempool <==> exists i: nat :: PendingSince(s, es, i, k)
    ensures Filed(Run(s, es).mempool)
  {
    if es != [] {
      var n := |es| - 1;
      var front := es[..n];
      PendingIff(s, front, k);
      if es[n].Submitted? {
        PoolAfterSubmit(Run(s, front), es[n].block, k);
        FiledAfterSubmit(Run(s, front), es[n].block);
      }
      PendingStep(s, es, k);
      hide Acceptable, Submit, PendingSince;
    }
  }

  lemma FiledAfterSubmit(s: State, b: Block)
    requires Filed(s.mempool)
    ensures Filed(Submit(s, b).mempool)
  {
    hide Acceptable;
  }

  /** One more event. */
  lemma PendingStep(s: State, es: seq<Event>, k: Hash)
    requires es != []
    ensures var n := |es| - 1;
      (exists i: nat :: PendingSince(s, es, i, k))
      <==> Adds(es, n, k) || ((exists i: nat :: PendingSince(s, es[..n], i, k)) && !Takes(s, es, n, k))
  {
    var n := |es| - 1;
    forall i: nat | i < n ensures PendingSince(s, es, i, k) <==> PendingSince(s, es[..n], i, k) && !Takes(s, es, n, k) {
      PrefixEvents(s, es, i, k);
      forall j: nat | i < j < n ensures Takes(s, es[..n], j, k) == Takes(s, es, j, k) {
        PrefixEvents(s, es, j, k);
      }
    }
    hide Takes;
    if Adds(es, n, k) {
      assert PendingSince(s, es, n, k);
    }
    if i: nat :| PendingSince(s, es[..n], i, k) && !Takes(s, es, n, k) {
      assert i < n && PendingSince(s, es, i, k);
    }
  }

  /** A listing of a filed pool holds each pending hash once. */
  lemma ListedHashes(m: Mempool, pending: seq<Transaction>, k: Hash)
    requires Filed(m) && ListsPending(m, pending)
    ensures k in m <==> exists i :: 0 <= i < |pending| && pending[i].hash == k
    ensures forall i, l :: 0 <= i < l < |pending| ==> pending[i].hash != pending[l].hash
  {
    var keys: seq<Hash> :| |keys| == |pending|
      && (forall i :: 0 <= i < |keys| ==> keys[i] in m && pending[i] == m[keys[i]])
      && (forall i, l :: 0 <= i < l < |keys| ==> keys[i] != keys[l])
      && (forall l :: l in m ==> l in keys);
    forall i | 0 <= i < |pending| ensures pending[i].hash == keys[i] {
      assert m[keys[i]].hash == keys[i];
    }
    if k in m {
      var i :| 0 <= i < |keys| && keys[i] == k;
      assert pending[i].hash == k;
    }
  }

  /**
   A template built from the pool alone repeats no transaction of an accepted block unless
   it was added again since.
   */
  lemma TemplateRepeatsNothing(s: State, es: seq<Event>, pending: seq<Transaction>, j: nat, k: Hash)
    requires s.mempool == map[] && ListsPending(Run(s, es).mempool, pending) && Takes(s, es, j, k)
    requires forall i: nat :: j < i < |es| ==> !Adds(es, i, k)
    ensures forall i :: 0 <= i < |pending| ==> pending[i].hash != k
  {
    PendingIff(s, es, k);
    ListedHashes(Run(s, es).mempool, pending, k);
    hide Run, Takes, ListsPending, Filed;
    forall i: nat ensures !PendingSince(s, es, i, k) {
      assert Takes(s, es, j, k);
    }
  }

  /** And everything pending is offered, exactly once. */
  lemma TemplateOffersPending(s: State, es: seq<Event>, pending: seq<Transaction>, k: Hash)
    requires s.mempool == map[] && ListsPending(Run(s, es).mempool, pending)
    ensures (exists i: nat :: PendingSince(s, es, i, k)) <==> exists i :: 0 <= i < |pending| && pending[i].hash == k
    ensures forall i, l :: 0 <= i < l < |pending| ==> pending[i].hash != pending[l].hash
  {
    PendingIff(s, es, k);
    ListedHashes(Run(s, es).mempool, pending, k);
    hide Run, PendingSince, ListsPending, Filed;
  }

  /** Event i is the last to add hash k. */
  predicate LastAdd(es: seq<Event>, i: nat, k: Hash) {
    Adds(es, i, k) && forall j: nat :: i < j < |es| ==> !Adds(es, j, k)
  }

  /** What is pending under a hash is the transaction last added with it. */
  lemma {:induction false} PendingIsLastAdded(s: State, es: seq<Event>, k: Hash)
    requires s.mempool == map[] && k in Run(s, es).mempool
    ensures exists i: nat :: LastAdd(es, i, k) && es[i].tx == Run(s, es).mempool[k]
  {
    var n := |es| - 1;
    if Adds(es, n, k) {
      assert LastAdd(es, n, k) && es[n].tx == Run(s, es).mempool[k];
    } else {
      var front := es[..n];
      if es[n].Submitted? { PoolAfterSubmit(Run(s, front), es[n].block, k); }
      assert k in Run(s, front).mempool && Run(s, front).mempool[k] == Run(s, es).mempool[k];
      PendingIsLastAdded(s, front, k);
      hide Run;
      var i: nat :| LastAdd(front, i, k) && front[i].tx == Run(s, front).mempool[k];
      assert Adds(es, i, k);
      forall j: nat | i < j < |es| ensures !Adds(es, j, k) {
        if j < n { assert !Adds(front, j, k); }
      }
    }
  }
}
