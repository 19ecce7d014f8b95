/**
 Restarts and crashes. The disk after any number of boots, stores and crashes always
 yields the chain of the blocks whose store was completed, and a restarted node equals
 the one that never stopped.
 */
module Restart {
  import opened Prelude
  import opened Types
  import opened Ledger
  import opened Storage
  import opened Chain
  import Undo

  /** The disk holds exactly this chain; a chain of one is the genesis block, which is never marked best. */
  predicate Holds(db: Db, chain: seq<Block>) {
    && chain != [] && Linked(chain) && |chain| <= TWO64
    && if |chain| == 1 then db.best == None
       else
         && db.best == Some(chain[|chain| - 1].hash)
         && db.best.value in db.byHash && db.byHash[db.best.value] == chain[|chain| - 1]
         && Numbered(db, chain)
  }

  predicate Numbered(db: Db, chain: seq<Block>)
    requires |chain| <= TWO64
  {
    forall i: nat :: i < |chain| ==> i in db.byNumber && db.byNumber[i] == chain[i]
  }

  lemma {:induction false} PrefixStored(db: Db, n: nat)
    requires n <= TWO64 && forall i: nat :: i < n ==> i in db.byNumber
    ensures StoredPrefix(db, n) == n
  {
    if n > 0 { PrefixStored(db, n - 1); }
  }

  lemma NumberedBlocks(db: Db, chain: seq<Block>)
    requires |chain| <= TWO64 && Numbered(db, chain)
    ensures StoredPrefix(db, |chain|) == |chain|
    ensures (forall i: nat :: i < |chain| ==> i in db.byNumber) && BlocksUpTo(db, |chain|) == chain
  {
    PrefixStored(db, |chain|);
  }

  lemma LoadRebuilds(db: Db, chain: seq<Block>)
    requires 1 < |chain| <= TWO64 && Numbered(db, chain) && BestBlock(db) == Found(chain[|chain| - 1])
    requires chain[|chain| - 1].header.number == |chain| - 1
    ensures StoredPrefix(db, |chain|) == |chain|
    ensures Load(db, EmptyState())
      == State(chain, |chain| - 1, Some(chain[|chain| - 1]), ApplyBlocks(map[], chain), map[])
  {
    NumberedBlocks(db, chain);
    assert [] + chain == chain;
    hide Numbered, StoredPrefix, BlocksUpTo, ApplyBlocks, BestBlock;
  }

  /** Booting from a disk that holds a chain rebuilds exactly that chain and its outputs. */
  lemma BootRebuilds(db: Db, chain: seq<Block>)
    requires Holds(db, chain)
    ensures var s := Boot(db, chain[0]);
      s == State(chain, |chain| - 1, Some(chain[|chain| - 1]), ApplyBlocks(map[], chain), map[])
  {
    if |chain| == 1 {
      GenesisShape(EmptyState(), chain[0]);
      assert [] + [chain[0]] == chain;
      hide Linked, Numbered;
    } else {
      var last := |chain| - 1;
      assert chain[last].header.number == last;
      assert BestBlock(db) == Found(chain[last]);
      LoadRebuilds(db, chain);
      hide Linked, Numbered, Load, ApplyBlocks, Holds;
    }
  }

  /**
   Restart equality: a node whose chain the disk holds is rebuilt field by field, spent
   flags included; only the mempool is empty again.
   */
  lemma RestartEqualsRunning(db: Db, s: State)
    requires Shape(s) && Reflects(s, map[]) && Holds(db, s.blocks)
    ensures Boot(db, s.blocks[0]) == s.(mempool := map[])
  {
    BootRebuilds(db, s.blocks);
  }

  // ---------- one writer, crashing anywhere ----------

  datatype Node = Down(db: Db) | Up(db: Db, state: State)

  /** `puts` counts the writes that reach the disk; fewer than three means a crash. */
  datatype Event =
    | Start(puts: nat)
    | Add(block: Block, puts: nat)
    | Kill

  function Next(genesis: Block, n: Node, e: Event): Node {
    match e
    case Start(puts) =>
      if n.Up? then n
      else if Load(n.db, EmptyState()).height != 0 then Up(n.db, Boot(n.db, genesis))
      else
        var db := StorePartly(n.db, genesis, puts);
        if puts < 3 then Down(db) else Up(db, Boot(n.db, genesis))
    case Add(b, puts) =>
      if n.Down? || !Acceptable(n.state, b) then n
      else
        var db := StorePartly(n.db, b, puts);
        if puts < 3 then Down(db) else Up(db, Accept(n.state, b))
    case Kill => Down(n.db)
  }

  /** Submitted blocks are numbered 1 or more and do not carry their parent's hash as their own. */
  predicate Allowed(e: Event) {
    e.Add? ==> e.block.header.number >= 1 && e.block.hash != e.block.header.parentHash
  }

  /** The chain whose blocks are safe: genesis, then every accepted block whose store completed. */
  function Committed(genesis: Block, n: Node, e: Event, chain: seq<Block>): seq<Block> {
    if e.Add? && n.Up? && Acceptable(n.state, e.block) && e.puts >= 3 then chain + [e.block] else chain
  }

  function Run(genesis: Block, es: seq<Event>): Node {
    if es == [] then Down(EmptyDb()) else Next(genesis, Run(genesis, es[..|es| - 1]), es[|es| - 1])
  }

  function Safe(genesis: Block, es: seq<Event>): seq<Block> {
    if es == [] then [genesis]
    else Committed(genesis, Run(genesis, es[..|es| - 1]), es[|es| - 1], Safe(genesis, es[..|es| - 1]))
  }

  predicate AllAllowed(es: seq<Event>) {
    forall i :: 0 <= i < |es| ==> Allowed(es[i])
  }

  /** A running node agrees with the disk, mempool aside. */
  predicate Invariant(genesis: Block, n: Node, chain: seq<Block>) {
    && Holds(n.db, chain) && chain[0] == genesis
    && (n.Up? ==> Shape(n.state) && Reflects(n.state, map[]) && n.state.blocks == chain && Numbered(n.db, chain))
  }

  /** The new block does not take over the hash of the one marked best. */
  predicate KeepsTip(chain: seq<Block>, b: Block)
    requires chain != []
  {
    |chain| == 1 || b.hash != chain[|chain| - 1].hash
  }

  /** StoreBlock interrupted after any of its writes: before the last one the old chain, after it the new one. */
  lemma StoreCommits(db: Db, chain: seq<Block>, b: Block, puts: nat)
    requires Holds(db, chain) && Numbered(db, chain) && Linked(chain + [b]) && |chain| < TWO64 && KeepsTip(chain, b)
    ensures var after := if puts < 3 then chain else chain + [b];
      Holds(StorePartly(db, b, puts), after) && Numbered(StorePartly(db, b, puts), after)
  {
    var n := |chain|;
    NextNumbered(chain, b);
    hide Linked;
    assert Numbered(StorePartly(db, b, puts), chain);
    if puts >= 3 {
      var two := PutNumber(PutHash(db, b), b);
      assert BestNumber(two) == n - 1;
      assert StorePartly(db, b, puts) == PutBest(two, b);
      hide StorePartly, BestNumber;
    }
  }

  /** Exactly when every interruption is harmless: submitted hashes are not recomputed, so they may repeat. */
  lemma StoreCommitsIff(db: Db, chain: seq<Block>, b: Block)
    requires Holds(db, chain) && Numbered(db, chain) && Linked(chain + [b]) && |chain| < TWO64
    ensures (forall puts: nat :: Holds(StorePartly(db, b, puts), if puts < 3 then chain else chain + [b]))
      <==> KeepsTip(chain, b)
  {
    if KeepsTip(chain, b) {
      hide Holds, Numbered, Linked, StorePartly, KeepsTip;
      forall puts: nat ensures Holds(StorePartly(db, b, puts), if puts < 3 then chain else chain + [b]) {
        StoreCommits(db, chain, b, puts);
      }
    } else {
      NextNumbered(chain, b);
      hide Linked, Numbered;
      assert !Holds(StorePartly(db, b, 1), chain);
    }
  }

  /** An input on which it fails: after the first write for such a block the whole chain is lost to a restart. */
  lemma RepeatedTipHashCrash(db: Db, chain: seq<Block>, b: Block)
    requires Holds(db, chain) && Linked(chain + [b]) && 1 < |chain| < TWO64 && !KeepsTip(chain, b)
    requires |chain| !in db.byNumber
    ensures Boot(StorePartly(db, b, 1), chain[0]).blocks == [chain[0]]
  {
    NextNumbered(chain, b);
    hide Linked, Numbered, ApplyBlocks, ApplyBlock;
    var db' := StorePartly(db, b, 1);
    assert BestBlock(db') == Found(b);
    assert StoredPrefix(db', |chain| + 1) <= |chain|;
  }

  lemma NextNumbered(chain: seq<Block>, b: Block)
    requires chain != [] && Linked(chain + [b])
    ensures b.header.number == |chain| && chain[|chain| - 1].header.number == |chain| - 1
  {
    var longer := chain + [b];
    assert longer[|chain|] == b && longer[|chain| - 1] == chain[|chain| - 1];
  }

  /** Storing the genesis block again, even partly, changes nothing a restart can see. */
  lemma GenesisStoreHarmless(db: Db, chain: seq<Block>, puts: nat)
    requires Holds(db, chain) && |chain| == 1
    ensures Holds(StorePartly(db, chain[0], puts), chain)
    ensures puts >= 2 ==> Numbered(StorePartly(db, chain[0], puts), chain)
  {
  }

  lemma EventKeepsInvariant(genesis: Block, n: Node, e: Event, chain: seq<Block>)
    requires Invariant(genesis, n, chain) && Allowed(e)
    ensures Invariant(genesis, Next(genesis, n, e), Committed(genesis, n, e, chain))
  {
    match e
    case Start(puts) =>
      if n.Down? {
        StartKeepsInvariant(genesis, n, puts, chain);
      }
    case Add(b, puts) =>
      if n.Up? && Acceptable(n.state, b) {
        AddFits(n.state, b);
        hide Holds, Numbered, Shape, Reflects, Linked, Acceptable, StorePartly;
        StoreCommits(n.db, chain, b, puts);
        assert (chain + [b])[0] == chain[0];
      }
    case Kill =>
  }

  lemma AddFits(s: State, b: Block)
    requires Shape(s) && Reflects(s, map[]) && Acceptable(s, b) && Allowed(Add(b, 3))
    ensures Linked(s.blocks + [b]) && |s.blocks| < TWO64 && KeepsTip(s.blocks, b)
    ensures Shape(Accept(s, b)) && Reflects(Accept(s, b), map[])
  {
    SubmitKeepsShape(s, b, map[]);
    PlacedBounded(Accept(s, b));
    hide Linked, Reflects;
  }

  lemma StartKeepsInvariant(genesis: Block, n: Node, puts: nat, chain: seq<Block>)
    requires n.Down? && Invariant(genesis, n, chain)
    ensures Invariant(genesis, Next(genesis, n, Start(puts)), chain)
  {
    BootRebuilds(n.db, chain);
    var s := Boot(n.db, genesis);
    if |chain| == 1 {
      GenesisStoreHarmless(n.db, chain, puts);
      assert Load(n.db, EmptyState()).height == 0;
    } else {
      var last := |chain| - 1;
      assert chain[last].header.number == last;
      assert s.height == last;
      assert Load(n.db, EmptyState()).height != 0;
    }
    hide StorePartly, ApplyBlocks, Boot, Load;
  }

  /**
   Over any number of boots, additions, crashes and kills, a restart yields the whole
   chain of completed stores: never a gap, never a tip without its ancestors.
   */
  lemma {:induction false} RunKeepsInvariant(genesis: Block, es: seq<Event>)
    requires genesis.header.number == 0 && AllAllowed(es)
    ensures Invariant(genesis, Run(genesis, es), Safe(genesis, es))
  {
    if es != [] {
      var last := |es| - 1;
      RunKeepsInvariant(genesis, es[..last]);
      hide Allowed, Invariant;
      assert Allowed(es[last]);
      EventKeepsInvariant(genesis, Run(genesis, es[..last]), es[last], Safe(genesis, es[..last]));
    }
  }

  lemma CrashSafety(genesis: Block, es: seq<Event>)
    requires genesis.header.number == 0 && AllAllowed(es)
    ensures var s := Boot(Run(genesis, es).db, genesis);
      Shape(s) && s.blocks == Safe(genesis, es) && Reflects(s, map[])
  {
    RunKeepsInvariant(genesis, es);
    BootRebuilds(Run(genesis, es).db, Safe(genesis, es));
    hide Run, Safe, Boot;
  }

  // ---------- failed loads ----------

  /** No transaction of the blocks creates an output. */
  predicate WithoutOutputs(blocks: seq<Block>) {
    forall i, j :: 0 <= i < |blocks| && 0 <= j < |blocks[i].txs| ==> blocks[i].txs[j].outputs == []
  }

  lemma {:induction false} EmptyLedgerIff(blocks: seq<Block>)
    ensures ApplyBlocks(map[], blocks) == map[] <==> WithoutOutputs(blocks)
  {
    if blocks != [] {
      var n := |blocks| - 1;
      var front, last := blocks[..n], blocks[n];
      EmptyLedgerIff(front);
      var before := ApplyBlocks(map[], front);
      Undo.BlockEntries(before, last.txs, last.hash);
      CreatedEmptyIff(last.txs);
      WithoutOutputsSnoc(blocks);
      hide WithoutOutputs, Undo.Created, ApplyTransactions;
      var after := ApplyBlocks(map[], blocks);
      assert after.Keys == before.Keys + Undo.Created(last.txs);
      assert after == map[] <==> after.Keys == {};
      assert before == map[] <==> before.Keys == {};
    }
  }

  lemma WithoutOutputsSnoc(blocks: seq<Block>)
    requires blocks != []
    ensures var txs := blocks[|blocks| - 1].txs;
      WithoutOutputs(blocks) <==>
      WithoutOutputs(blocks[..|blocks| - 1]) && forall j :: 0 <= j < |txs| ==> txs[j].outputs == []
  {
    var n := |blocks| - 1;
    var front, txs := blocks[..n], blocks[n].txs;
    assert forall i :: 0 <= i < n ==> front[i] == blocks[i];
    if WithoutOutputs(front) && forall j :: 0 <= j < |txs| ==> txs[j].outputs == [] {
      forall i, j | 0 <= i < |blocks| && 0 <= j < |blocks[i].txs| ensures blocks[i].txs[j].outputs == [] {
        if i < n { assert front[i] == blocks[i]; }
      }
    }
  }

  lemma CreatedEmptyIff(txs: seq<Transaction>)
    ensures Undo.Created(txs) == {} <==> forall j :: 0 <= j < |txs| ==> txs[j].outputs == []
  {
    forall j | 0 <= j < |txs| && txs[j].outputs != [] ensures Undo.Created(txs) != {} {
      var k := OutputKey(txs[j].hash, 0);
      assert k in Undo.CreatedKeys(txs[j].hash, txs[j].outputs);
      assert k in Undo.Created(txs);
    }
  }

  /**
   After a failed load the chain is just the genesis block, and the outputs agree with it
   exactly when no block read before the missing one had created any.
   */
  lemma FailedLoadCleanIff(db: Db, genesis: Block)
    requires genesis.header.number == 0 && genesis.txs == []
    requires BestBlock(db).Found?
    requires StoredPrefix(db, BestBlock(db).block.header.number + 1) <= BestBlock(db).block.header.number
    ensures var s := Boot(db, genesis);
      var kept := BlocksUpTo(db, StoredPrefix(db, BestBlock(db).block.header.number + 1));
      && s.blocks == [genesis] && s.height == 0
      && s.utxos == ApplyBlocks(map[], kept)
      && (Reflects(s, map[]) <==> WithoutOutputs(kept))
  {
    var kept := BlocksUpTo(db, StoredPrefix(db, BestBlock(db).block.header.number + 1));
    EmptyBlock(ApplyBlocks(map[], kept), genesis);
    EmptyLedgerIff(kept);
    assert [genesis][..0] == [];
    EmptyBlock(map[], genesis);
    assert ApplyBlocks(map[], [genesis]) == ApplyBlock(ApplyBlocks(map[], [genesis][..0]), genesis);
  }

  // ---------- what any disk boots to ----------

  /** The disk marks block n of the chain best and holds it and all below it. */
  predicate Reaches(db: Db, s: State, n: nat) {
    && 1 <= n < |s.blocks| <= TWO64 && BestBlock(db) == Found(s.blocks[n])
    && forall i: nat :: i <= n ==> BlockByNumber(db, i) == Found(s.blocks[i])
  }

  /** Loading gives up: no best block, or a number missing up to it. */
  predicate GivesUp(db: Db) {
    match BestBlock(db)
    case Found(best) => StoredPrefix(db, best.header.number + 1) <= best.header.number
    case _ => true
  }

  /** The blocks whose outputs a load that gives up leaves behind. */
  function Kept(db: Db): seq<Block> {
    match BestBlock(db)
    case Found(best) => BlocksUpTo(db, StoredPrefix(db, best.header.number + 1))
    case _ => []
  }

  /** The node has an initial part of the chain, with the outputs of that part. */
  predicate InitialPart(s: State, r: State) {
    r.blocks <= s.blocks && Placed(r) && Reflects(r, map[])
  }

  lemma GivenUp(db: Db, genesis: Block)
    requires genesis.header.number == 0 && genesis.txs == [] && GivesUp(db)
    ensures var s := Boot(db, genesis);
      && s == State([genesis], 0, Some(genesis), s.utxos, map[])
      && (Reflects(s, map[]) <==> WithoutOutputs(Kept(db)))
  {
    if BestBlock(db).Found? {
      FailedLoadCleanIff(db, genesis);
    } else {
      GenesisShape(EmptyState(), genesis);
    }
    hide StoredPrefix, BlocksUpTo, ApplyBlocks, ApplyBlock, WithoutOutputs;
  }

  lemma Reached(db: Db, s: State, n: nat)
    requires Placed(s) && Reaches(db, s, n)
    ensures !GivesUp(db)
    ensures var part := s.blocks[..n + 1];
      Boot(db, s.blocks[0]) == State(part, n, Some(s.blocks[n]), ApplyBlocks(map[], part), map[])
  {
    var part := s.blocks[..n + 1];
    assert s.blocks[n].header.number == n;
    forall i: nat | i < |part| ensures i in db.byNumber && db.byNumber[i] == part[i] {
      assert BlockByNumber(db, i) == Found(s.blocks[i]);
    }
    assert Numbered(db, part) && BestBlock(db) == Found(part[n]);
    hide ApplyBlocks, StoredPrefix, BlocksUpTo, BlockByNumber, Load, Numbered;
    LoadRebuilds(db, part);
  }

  /** A load that runs to the end takes every number up to the best block's. */
  lemma LoadedFully(db: Db, genesis: Block)
    requires !GivesUp(db)
    ensures BestBlock(db).Found?
    ensures var best := BestBlock(db).block;
      var n: nat := best.header.number;
      && (forall i: nat :: i <= n ==> i in db.byNumber)
      && (n == 0 ==> |Boot(db, genesis).blocks| == 2 && Boot(db, genesis).blocks[1] == genesis)
      && (n > 0 ==> Boot(db, genesis).blocks == BlocksUpTo(db, n + 1) && Boot(db, genesis).best == Some(best))
  {
    var n: nat := BestBlock(db).block.header.number;
    assert StoredPrefix(db, n + 1) == n + 1;
    var loaded := BlocksUpTo(db, n + 1);
    assert [] + loaded == loaded;
    hide ApplyBlocks, ApplyBlock, StoredPrefix;
  }

  /** It is a part of the chain only if it reached one of its blocks. */
  lemma LoadedElsewhere(db: Db, s: State)
    requires Placed(s) && !GivesUp(db) && InitialPart(s, Boot(db, s.blocks[0]))
    ensures exists n :: Reaches(db, s, n)
  {
    LoadedFully(db, s.blocks[0]);
    PlacedBounded(s);
    var best := BestBlock(db).block;
    var n: nat := best.header.number;
    NotGenesisAgain(db, s);
    var r := Boot(db, s.blocks[0]);
    assert r.blocks <= s.blocks && r.best == Some(r.blocks[|r.blocks| - 1]);
    hide Boot, GivesUp, InitialPart, BestBlock, Placed;
    assert |r.blocks| == n + 1 && r.blocks[n] == best;
    forall i: nat | i <= n ensures BlockByNumber(db, i) == Found(s.blocks[i]) {
      assert r.blocks[i] == s.blocks[i] && r.blocks[i] == db.byNumber[i];
    }
    hide BlockByNumber, BlocksUpTo;
    assert Reaches(db, s, n);
  }

  lemma NotGenesisAgain(db: Db, s: State)
    requires Placed(s) && !GivesUp(db) && InitialPart(s, Boot(db, s.blocks[0]))
    ensures BestBlock(db).Found? && BestBlock(db).block.header.number > 0
  {
    LoadedFully(db, s.blocks[0]);
    var r := Boot(db, s.blocks[0]);
    hide Boot, GivesUp, Reflects, BestBlock, BlocksUpTo;
    assert s.blocks[0].header.number == 0;
    assert |r.blocks| == 2 ==> r.blocks[1].header.number == 1;
  }

  /**
   For any disk at all: the restarted node has an initial part of the chain exactly when
   the disk reaches one of its blocks, or loading gives up without leaving outputs behind.
   */
  lemma BootIff(db: Db, s: State)
    requires Placed(s) && s.blocks[0].txs == []
    ensures InitialPart(s, Boot(db, s.blocks[0]))
      <==> (exists n :: Reaches(db, s, n)) || (GivesUp(db) && WithoutOutputs(Kept(db)))
  {
    var r := Boot(db, s.blocks[0]);
    assert s.blocks[0].header.number == 0;
    if GivesUp(db) {
      GivenUp(db, s.blocks[0]);
      assert Placed(r) && r.blocks <= s.blocks;
      forall n: nat ensures !Reaches(db, s, n) {
        if Reaches(db, s, n) { Reached(db, s, n); }
      }
    } else if n: nat :| Reaches(db, s, n) {
      Reached(db, s, n);
      PartPlaced(s, n);
    } else if InitialPart(s, r) {
      LoadedElsewhere(db, s);
    }
  }

  lemma PartPlaced(s: State, n: nat)
    requires Placed(s) && n < |s.blocks|
    ensures var part := s.blocks[..n + 1];
      part <= s.blocks && forall i :: 0 <= i < |part| ==> part[i].header.number == i
  {
  }

  /** If the whole chain is linked, so is the part. */
  lemma InitialPartShape(s: State, r: State)
    requires Shape(s) && InitialPart(s, r)
    ensures Shape(r)
  {
    forall i | 0 <= i < |r.blocks| ensures r.blocks[i] == s.blocks[i] {}
    hide Reflects, Follows;
  }

  /** For any disk at all: exactly when a restart equals the node that never stopped. */
  lemma RestartEqualsIff(db: Db, s: State)
    requires Placed(s) && Reflects(s, map[]) && s.blocks[0].txs == []
    ensures Boot(db, s.blocks[0]) == s.(mempool := map[])
      <==> if |s.blocks| == 1 then GivesUp(db) && WithoutOutputs(Kept(db)) else Reaches(db, s, |s.blocks| - 1)
  {
    var g, last := s.blocks[0], |s.blocks| - 1;
    assert g.header.number == 0 && s.blocks[last].header.number == last;
    assert s.blocks[..last + 1] == s.blocks;
    if GivesUp(db) {
      GivenUp(db, g);
      if |s.blocks| == 1 {
        assert s.blocks == [g];
      }
      hide Boot, WithoutOutputs, Kept, GivesUp, ApplyBlocks;
      if Reaches(db, s, last) { Reached(db, s, last); }
    } else {
      hide WithoutOutputs, Kept, GivesUp, ApplyBlocks;
      if Reaches(db, s, last) { Reached(db, s, last); }
      hide Boot;
      if Boot(db, g) == s.(mempool := map[]) { EqualReaches(db, s); }
    }
  }

  lemma EqualReaches(db: Db, s: State)
    requires Placed(s) && Reflects(s, map[]) && !GivesUp(db) && Boot(db, s.blocks[0]) == s.(mempool := map[])
    ensures |s.blocks| > 1 && Reaches(db, s, |s.blocks| - 1)
  {
    LoadedElsewhere(db, s);
    var n: nat :| Reaches(db, s, n);
    Reached(db, s, n);
    assert |s.blocks[..n + 1]| == n + 1;
    hide Boot, GivesUp, ApplyBlocks, BestBlock, BlockByNumber;
  }
}
