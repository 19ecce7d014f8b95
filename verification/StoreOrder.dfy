/**
 Several writers: the chain lock is released before a block is stored, so stores may
 overtake each other and a crash may find any set of them finished. The disk may carry
 traces of earlier crashes: other blocks above the chain, even one marked best.
 */
module StoreOrder {
  import opened Prelude
  import opened Types
  import opened Ledger
  import opened Storage
  import opened Chain
  import opened Restart

  /**
   The disk holds the first c blocks of the node's chain, and no hash of the others for a
   different block. What it marks best may be any block.
   */
  predicate OnDisk(db: Db, s: State, c: nat) {
    && 1 <= c <= |s.blocks| <= TWO64
    && Sound(db) && Numbered(db, s.blocks[..c])
    && NoClashes(db, s.blocks[c..])
  }

  predicate FromChain(s: State, c: nat, blocks: seq<Block>)
    requires c <= |s.blocks|
  {
    forall k :: 0 <= k < |blocks| ==> blocks[k] in s.blocks[c..]
  }

  /** Finished stores: blocks of the chain from position c on, each once, in any order. */
  predicate Finished(s: State, c: nat, finished: seq<Block>)
    requires c <= |s.blocks|
  {
    DistinctBlocks(finished) && FromChain(s, c, finished)
  }

  /** Block i is finished, or an earlier crash happened to leave it under its number. */
  predicate Available(db: Db, s: State, finished: seq<Block>, i: nat)
    requires i < |s.blocks|
  {
    s.blocks[i] in finished || (i < TWO64 && BlockByNumber(db, i) == Found(s.blocks[i]))
  }

  /** No finished block has an unavailable one below it. */
  predicate NoGap(db: Db, s: State, c: nat, finished: seq<Block>) {
    forall i, j :: c <= i < j < |s.blocks| && s.blocks[j] in finished ==> Available(db, s, finished, i)
  }

  /** The disk marks a block of the chain itself best, available with everything below it. */
  predicate OwnBest(db: Db, s: State, c: nat, finished: seq<Block>) {
    && BestNumber(db) < |s.blocks| && BestBlock(db) == Found(s.blocks[BestNumber(db)])
    && forall i :: c <= i <= BestNumber(db) ==> Available(db, s, finished, i)
  }

  predicate Above(n: nat, finished: seq<Block>) {
    exists k :: 0 <= k < |finished| && finished[k].header.number > n
  }

  /** The block marked best is below a finished one, or the chain's own. */
  predicate BestFits(db: Db, s: State, c: nat, finished: seq<Block>) {
    Above(BestNumber(db), finished) || OwnBest(db, s, c, finished)
  }

  /** Nothing from number c on is stored or marked best, not even by an interrupted store. */
  predicate Clean(db: Db, c: nat) {
    BestNumber(db) < c && forall n :: n in db.byNumber ==> n < c
  }

  /** The restarted node has an initial part of the chain, with its outputs, and no finished block is lost. */
  predicate Survives(s: State, finished: seq<Block>, r: State) {
    InitialPart(s, r) && forall k :: 0 <= k < |finished| ==> finished[k] in r.blocks
  }

  lemma BlockNumbers(s: State, i: nat)
    requires Placed(s) && i < |s.blocks|
    ensures s.blocks[i].header.number == i && |s.blocks| <= TWO64
  {
    PlacedBounded(s);
  }

  /** A finished block sits in the chain at the position its number says, from c on. */
  lemma FinishedPosition(s: State, c: nat, finished: seq<Block>, k: nat)
    requires Placed(s) && c <= |s.blocks| && FromChain(s, c, finished) && k < |finished|
    ensures c <= finished[k].header.number < |s.blocks| && s.blocks[finished[k].header.number] == finished[k]
  {
    assert finished[k] in s.blocks[c..];
    var i :| 0 <= i < |s.blocks[c..]| && s.blocks[c..][i] == finished[k];
    assert s.blocks[c + i] == finished[k];
    BlockNumbers(s, c + i);
  }

  lemma FinishedNoClashes(db: Db, s: State, c: nat, finished: seq<Block>)
    requires c <= |s.blocks| && NoClashes(db, s.blocks[c..]) && FromChain(s, c, finished)
    ensures NoClashes(db, finished)
  {
    forall k | 0 <= k < |finished| ensures NoClash(db, finished[k]) {
      var i :| 0 <= i < |s.blocks[c..]| && s.blocks[c..][i] == finished[k];
    }
  }

  /** What is stored under number i afterwards: the chain's own block exactly when it is available. */
  lemma NumberAfter(db: Db, s: State, c: nat, finished: seq<Block>, i: nat)
    requires Placed(s) && OnDisk(db, s, c) && Finished(s, c, finished) && i < |s.blocks|
    ensures BlockByNumber(StoreAll(db, finished), i) == Found(s.blocks[i]) <==> i < c || Available(db, s, finished, i)
    ensures s.blocks[i] !in finished ==> BlockByNumber(StoreAll(db, finished), i) == BlockByNumber(db, i)
  {
    FinishedNoClashes(db, s, c, finished);
    StoredLookups(db, finished);
    BlockNumbers(s, i);
    if i < c {
      assert s.blocks[..c][i] == s.blocks[i];
    }
    hide StoreAll, NoClashes;
    if k :| 0 <= k < |finished| && finished[k].header.number == i {
      FinishedPosition(s, c, finished, k);
    } else {
      assert !NumberAmong(i, finished);
    }
  }

  /** The best block afterwards: the highest finished one, if it is above the old best, else the old best. */
  lemma BestAfter(db: Db, s: State, c: nat, finished: seq<Block>) returns (top: nat)
    requires Placed(s) && OnDisk(db, s, c) && Finished(s, c, finished) && Above(BestNumber(db), finished)
    ensures c <= top < |s.blocks| && s.blocks[top] in finished && top > BestNumber(db)
    ensures BestBlock(StoreAll(db, finished)) == Found(s.blocks[top])
    ensures forall k :: 0 <= k < |finished| ==> c <= finished[k].header.number <= top
  {
    FinishedNoClashes(db, s, c, finished);
    forall k | 0 <= k < |finished|
      ensures c <= finished[k].header.number < |s.blocks| && s.blocks[finished[k].header.number] == finished[k]
    {
      FinishedPosition(s, c, finished, k);
    }
    hide StoreAll, NoClashes, Placed;
    var k := HighestIsBest(db, finished);
    top := finished[k].header.number;
  }

  lemma BestStays(db: Db, s: State, c: nat, finished: seq<Block>)
    requires Placed(s) && OnDisk(db, s, c) && Finished(s, c, finished) && !Above(BestNumber(db), finished)
    ensures BestBlock(StoreAll(db, finished)) == BestBlock(db)
    ensures finished != [] ==> BestBlock(db).Found? && BestNumber(db) >= c
  {
    FinishedNoClashes(db, s, c, finished);
    hide StoreAll, NoClashes;
    LowerStoresKeepBest(db, finished);
    if finished != [] {
      FinishedPosition(s, c, finished, 0);
    }
  }

  /** The disk reaches a block of the chain at or above all finished ones. */
  ghost predicate ReachesAll(db: Db, s: State, finished: seq<Block>) {
    exists n :: Reaches(db, s, n) && forall k :: 0 <= k < |finished| ==> finished[k].header.number <= n
  }

  /** A restart survives exactly when the disk reaches a block of the chain at or above all finished ones. */
  lemma SurvivesIffReaches(db: Db, s: State, c: nat, finished: seq<Block>)
    requires Placed(s) && s.blocks[0].txs == [] && 1 <= c <= |s.blocks| && FromChain(s, c, finished) && finished != []
    ensures Survives(s, finished, Boot(db, s.blocks[0]))
      <==> ReachesAll(db, s, finished)
  {
    BootIff(db, s);
    if GivesUp(db) {
      GivenUpLoses(db, s, c, finished);
    } else if n: nat :| Reaches(db, s, n) {
      hide FromChain, Placed, InitialPart, WithoutOutputs, Kept, GivesUp;
      Reached(db, s, n);
      ReachesUnique(db, s, n);
      PartHolds(s, c, finished, n);
      hide Reaches, Boot;
    }
  }

  lemma GivenUpLoses(db: Db, s: State, c: nat, finished: seq<Block>)
    requires Placed(s) && s.blocks[0].txs == [] && 1 <= c <= |s.blocks| && FromChain(s, c, finished) && finished != []
    requires GivesUp(db)
    ensures !Survives(s, finished, Boot(db, s.blocks[0])) && !ReachesAll(db, s, finished)
  {
    BlockNumbers(s, 0);
    FinishedPosition(s, c, finished, 0);
    GivenUp(db, s.blocks[0]);
    hide Boot, GivesUp, Kept, FromChain, Placed, InitialPart;
    assert finished[0] != s.blocks[0];
    forall n: nat ensures !Reaches(db, s, n) {
      if Reaches(db, s, n) { Reached(db, s, n); }
    }
  }

  lemma ReachesUnique(db: Db, s: State, n: nat)
    requires Placed(s) && Reaches(db, s, n)
    ensures forall m: nat :: Reaches(db, s, m) ==> m == n
  {
    forall m: nat | Reaches(db, s, m) ensures m == n {
      BlockNumbers(s, m);
      BlockNumbers(s, n);
    }
  }

  lemma PartHolds(s: State, c: nat, finished: seq<Block>, n: nat)
    requires Placed(s) && c <= |s.blocks| && FromChain(s, c, finished) && n < |s.blocks|
    ensures (forall k :: 0 <= k < |finished| ==> finished[k] in s.blocks[..n + 1])
      <==> forall k :: 0 <= k < |finished| ==> finished[k].header.number <= n
  {
    hide FromChain, Placed;
    var part := s.blocks[..n + 1];
    forall k | 0 <= k < |finished| ensures finished[k] in part <==> finished[k].header.number <= n {
      FinishedPosition(s, c, finished, k);
      if finished[k].header.number <= n {
        assert part[finished[k].header.number] == finished[k];
      } else if finished[k] in part {
        var i :| 0 <= i < |part| && part[i] == finished[k];
        BlockNumbers(s, i);
      }
    }
  }

  /** Whether the disk afterwards reaches block n depends on the mark and on what is available. */
  lemma ReachesAfter(db: Db, s: State, c: nat, finished: seq<Block>, n: nat)
    requires Placed(s) && OnDisk(db, s, c) && Finished(s, c, finished) && 1 <= n < |s.blocks|
    ensures Reaches(StoreAll(db, finished), s, n)
      <==> && BestBlock(StoreAll(db, finished)) == Found(s.blocks[n])
           && forall i :: c <= i <= n ==> Available(db, s, finished, i)
  {
    assert |s.blocks| <= TWO64;
    hide OnDisk, Finished, Placed, StoreAll, Available, BlockByNumber, BestBlock;
    forall i: nat | i <= n
      ensures BlockByNumber(StoreAll(db, finished), i) == Found(s.blocks[i]) <==> i < c || Available(db, s, finished, i)
    {
      NumberAfter(db, s, c, finished, i);
    }
  }

  /**
   A crash with any non-empty set of stores finished, on a disk with any history: the
   restart keeps them all, on an initial part of the chain, exactly when no finished block
   has an unavailable one below it and the mark left on the disk fits. On a clean disk it
   otherwise falls back to the genesis block alone.
   */
  lemma FinishedStoresSurviveIff(db: Db, s: State, c: nat, finished: seq<Block>)
    requires Placed(s) && s.blocks[0].txs == [] && DistinctBlocks(s.blocks)
    requires OnDisk(db, s, c) && Finished(s, c, finished) && finished != []
    ensures var r := Boot(StoreAll(db, finished), s.blocks[0]);
      && (Survives(s, finished, r) <==> NoGap(db, s, c, finished) && BestFits(db, s, c, finished))
      && (Clean(db, c) && !NoGap(db, s, c, finished) ==> r.blocks == [s.blocks[0]])
      && (Survives(s, finished, r) && Shape(s) ==> Shape(r))
  {
    SurvivesIffReaches(StoreAll(db, finished), s, c, finished);
    var r := Boot(StoreAll(db, finished), s.blocks[0]);
    if Survives(s, finished, r) && Shape(s) {
      InitialPartShape(s, r);
    }
    hide Survives, Shape;
    if Above(BestNumber(db), finished) {
      NewBestSurvives(db, s, c, finished);
    } else {
      OldBestSurvives(db, s, c, finished);
    }
    if Clean(db, c) && !NoGap(db, s, c, finished) {
      GapGivesUp(db, s, c, finished);
      BlockNumbers(s, 0);
      GivenUp(StoreAll(db, finished), s.blocks[0]);
    }
  }

  lemma NewBestSurvives(db: Db, s: State, c: nat, finished: seq<Block>)
    requires Placed(s) && OnDisk(db, s, c) && Finished(s, c, finished) && Above(BestNumber(db), finished)
    ensures ReachesAll(StoreAll(db, finished), s, finished) <==> NoGap(db, s, c, finished)
  {
    var top := BestAfter(db, s, c, finished);
    ReachesAfter(db, s, c, finished, top);
    BlockNumbers(s, top);
    NoGapUpTo(db, s, c, finished, top);
    hide StoreAll, OnDisk, Finished, NoGap, Available, Above;
    forall n: nat | Reaches(StoreAll(db, finished), s, n) ensures n == top {
      BlockNumbers(s, n);
    }
  }

  /** With the highest finished block at top, a gap is an unavailable block below it. */
  lemma NoGapUpTo(db: Db, s: State, c: nat, finished: seq<Block>, top: nat)
    requires Placed(s) && c <= top < |s.blocks| && s.blocks[top] in finished
    requires forall k :: 0 <= k < |finished| ==> finished[k].header.number <= top
    ensures NoGap(db, s, c, finished) <==> forall i :: c <= i <= top ==> Available(db, s, finished, i)
  {
    assert Available(db, s, finished, top);
    hide Available;
    forall j | c <= j < |s.blocks| && s.blocks[j] in finished ensures j <= top {
      BlockNumbers(s, j);
    }
  }

  lemma OldBestSurvives(db: Db, s: State, c: nat, finished: seq<Block>)
    requires Placed(s) && OnDisk(db, s, c) && Finished(s, c, finished) && finished != []
    requires !Above(BestNumber(db), finished)
    ensures ReachesAll(StoreAll(db, finished), s, finished)
      <==> NoGap(db, s, c, finished) && OwnBest(db, s, c, finished)
  {
    BestStays(db, s, c, finished);
    var after, n := StoreAll(db, finished), BestNumber(db);
    if n < |s.blocks| {
      ReachesAfter(db, s, c, finished, n);
      BlockNumbers(s, n);
    }
    if OwnBest(db, s, c, finished) {
      NoGapBelow(db, s, c, finished, n);
      assert Reaches(after, s, n);
    }
    hide StoreAll, OnDisk, Finished, NoGap, Available;
    if m: nat :| Reaches(after, s, m) {
      BlockNumbers(s, m);
      assert m == n;
    }
    if ReachesAll(after, s, finished) {
      NoGapBelow(db, s, c, finished, n);
    }
  }

  lemma NoGapBelow(db: Db, s: State, c: nat, finished: seq<Block>, n: nat)
    requires Placed(s) && n < |s.blocks| && forall k :: 0 <= k < |finished| ==> finished[k].header.number <= n
    requires forall i :: c <= i <= n ==> Available(db, s, finished, i)
    ensures NoGap(db, s, c, finished)
  {
    hide Available;
    forall j | c <= j < |s.blocks| && s.blocks[j] in finished ensures j <= n {
      BlockNumbers(s, j);
    }
  }

  /** On a clean disk a gap is a missing number, so loading gives up. */
  lemma GapGivesUp(db: Db, s: State, c: nat, finished: seq<Block>)
    requires Placed(s) && OnDisk(db, s, c) && Finished(s, c, finished) && finished != []
    requires Clean(db, c) && !NoGap(db, s, c, finished)
    ensures GivesUp(StoreAll(db, finished))
  {
    FinishedPosition(s, c, finished, 0);
    assert Above(BestNumber(db), finished);
    var top := BestAfter(db, s, c, finished);
    BlockNumbers(s, top);
    NoGapUpTo(db, s, c, finished, top);
    var i :| c <= i <= top && !Available(db, s, finished, i);
    NumberAfter(db, s, c, finished, i);
    hide StoreAll, OnDisk, Finished, NoGap, Above;
  }

  /**
   For a node that started on an empty disk: a crash loses nothing exactly when the finished
   stores are downward closed, and otherwise everything but the genesis block.
   */
  lemma FreshDiskSurvivesIff(s: State, finished: seq<Block>)
    requires Placed(s) && s.blocks[0].txs == [] && DistinctBlocks(s.blocks) && Finished(s, 1, finished)
    ensures var r := Boot(StoreAll(Store(EmptyDb(), s.blocks[0]), finished), s.blocks[0]);
      var closed := forall i, j :: 1 <= i < j < |s.blocks| && s.blocks[j] in finished ==> s.blocks[i] in finished;
      (Survives(s, finished, r) <==> closed) && (!closed ==> r.blocks == [s.blocks[0]])
  {
    var db := Store(EmptyDb(), s.blocks[0]);
    FreshDisk(s);
    if finished == [] {
      BootIff(db, s);
      assert GivesUp(db) && Kept(db) == [];
    } else {
      FinishedPosition(s, 1, finished, 0);
      assert Above(0, finished);
      hide Store, StoreAll, Boot, Survives, OnDisk, Placed, Finished, DistinctBlocks, Above;
      FinishedStoresSurviveIff(db, s, 1, finished);
      forall i | 1 <= i < |s.blocks| ensures Available(db, s, finished, i) <==> s.blocks[i] in finished {
      }
    }
  }

  /** A freshly started node has stored the genesis block and nothing else. */
  lemma FreshDisk(s: State)
    requires Placed(s) && DistinctBlocks(s.blocks)
    ensures var db := Store(EmptyDb(), s.blocks[0]);
      OnDisk(db, s, 1) && Clean(db, 1) && db.best == None
  {
    var db := Store(EmptyDb(), s.blocks[0]);
    BlockNumbers(s, 0);
    forall i | 0 <= i < |s.blocks[1..]| ensures NoClash(db, s.blocks[1..][i]) {
      assert s.blocks[1..][i] == s.blocks[i + 1];
    }
    assert s.blocks[..1] == [s.blocks[0]];
  }

  // ---------- all stores finished ----------

  /**
   The lock is released before storing, so stores may overtake each other. Whatever part of
   the chain the disk held before, once all the others are stored, in whatever order, a
   restart equals the node that never stopped, exactly when the mark left on the disk is
   below the tip or is the tip.
   */
  lemma AnyStoreOrder(db: Db, s: State, c: nat, stored: seq<Block>)
    requires Placed(s) && Reflects(s, map[]) && s.blocks[0].txs == [] && DistinctBlocks(s.blocks)
    requires OnDisk(db, s, c) && c < |s.blocks| && multiset(stored) == multiset(s.blocks[c..])
    ensures Boot(StoreAll(db, stored), s.blocks[0]) == s.(mempool := map[])
      <==> BestNumber(db) < |s.blocks| - 1 || BestBlock(db) == Found(s.blocks[|s.blocks| - 1])
  {
    var last := |s.blocks| - 1;
    StoredAll(s, c, stored);
    BlockNumbers(s, last);
    RestartEqualsIff(StoreAll(db, stored), s);
    ReachesAfter(db, s, c, stored, last);
    assert forall i :: c <= i <= last ==> Available(db, s, stored, i);
    hide Available, Boot, StoreAll, OnDisk, Reflects, DistinctBlocks;
    var k :| 0 <= k < |stored| && stored[k] == s.blocks[last];
    if Above(BestNumber(db), stored) {
      var top := BestAfter(db, s, c, stored);
      BlockNumbers(s, top);
      assert stored[k].header.number <= top;
    } else {
      BestStays(db, s, c, stored);
      assert stored[k].header.number <= BestNumber(db);
    }
  }

  lemma StoredAll(s: State, c: nat, stored: seq<Block>)
    requires DistinctBlocks(s.blocks) && c <= |s.blocks| && multiset(stored) == multiset(s.blocks[c..])
    ensures Finished(s, c, stored) && forall i :: c <= i < |s.blocks| ==> s.blocks[i] in stored
  {
    var tail := s.blocks[c..];
    assert DistinctBlocks(tail);
    PermutationDistinct(tail, stored);
    forall k | 0 <= k < |stored| ensures stored[k] in tail {
      assert stored[k] in multiset(tail);
    }
    forall i | c <= i < |s.blocks| ensures s.blocks[i] in stored {
      assert tail[i - c] in multiset(stored);
    }
  }

  // ---------- the smallest cases ----------

  /**
   The smallest such case: one store overtaken by the next, then a crash. The restart falls
   back to genesis, but keeps the outputs of the blocks before the gap.
   */
  lemma OvertakenStoreCrash(db: Db, chain: seq<Block>, skipped: Block, b: Block)
    requires Holds(db, chain) && Numbered(db, chain) && Linked(chain + [skipped, b]) && NoClash(db, b)
    requires |chain| < TWO64 - 1 && |chain| !in db.byNumber && chain[0].txs == []
    ensures var s := Boot(Store(db, b), chain[0]);
      s.blocks == [chain[0]] && s.height == 0 && s.utxos == ApplyBlocks(map[], chain)
  {
    var n := |chain|;
    var longer := chain + [skipped, b];
    assert longer[n + 1] == b && longer[n] == skipped;
    forall i | 0 <= i < n ensures longer[i] == chain[i] {}
    assert b.header.number == n + 1;
    assert chain[n - 1].header.number == n - 1;
    var db' := Store(db, b);
    StoreShape(db, b);
    assert BestBlock(db') == Found(b);
    PrefixStored(db', n);
    PrefixStops(db', n, n + 2);
    assert BlocksUpTo(db', n) == chain;
    EmptyBlock(ApplyBlocks(map[], chain), chain[0]);
    hide Store;
  }

  lemma {:induction false} PrefixStops(db: Db, n: nat, limit: nat)
    requires n <= limit <= TWO64 && StoredPrefix(db, n) == n && n !in db.byNumber
    ensures StoredPrefix(db, limit) == n
  {
    if n < limit { PrefixStops(db, n, limit - 1); }
  }

  /**
   And what may follow: g, b1 and b2 are accepted, b2 overtakes b1, crash. The node falls
   back to g, accepts another block c1 numbered 1 and stores it completely. The next
   restart splices it with b2, whose parent it is not.
   */
  lemma SplicedChain(g: Block, b2: Block, c1: Block)
    requires g.header.number == 0 && g.txs == [] && b2.header.number == 2
    requires c1.header.number == 1 && Follows(g, c1) && b2.header.parentHash != c1.hash
    requires g.hash != b2.hash && g.hash != c1.hash && b2.hash != c1.hash
    ensures var crashed := Store(Store(EmptyDb(), g), b2);
      var fallen := Boot(crashed, g);
      var after := Store(BootDb(crashed, g), c1);
      && fallen.blocks == [g] && Acceptable(fallen, c1) && Shape(Accept(fallen, c1))
      && Boot(after, g).blocks == [g, c1, b2] && !Shape(Boot(after, g))
  {
    var crashed := Store(Store(EmptyDb(), g), b2);
    FallenDb(g, b2);
    var after := Store(crashed, c1);
    assert after == Db(crashed.byHash[c1.hash := c1], crashed.byNumber[1 := c1], Some(b2.hash));
    SplicedBoot(after, g, c1, b2);
    hide *;
    FallenNode(crashed, g, c1);
  }

  lemma FallenNode(db: Db, g: Block, c1: Block)
    requires g.header.number == 0 && g.txs == [] && GivesUp(db) && c1.header.number == 1 && Follows(g, c1)
    ensures var fallen := Boot(db, g);
      fallen.blocks == [g] && Acceptable(fallen, c1) && Shape(Accept(fallen, c1))
  {
    GivenUp(db, g);
    hide Boot, GivesUp, Kept, WithoutOutputs, ApplyBlock;
    assert ([g] + [c1])[0] == g && ([g] + [c1])[1] == c1;
  }

  lemma FallenDb(g: Block, b2: Block)
    requires g.header.number == 0 && b2.header.number == 2 && g.hash != b2.hash
    ensures var crashed := Store(Store(EmptyDb(), g), b2);
      && crashed == Db(map[g.hash := g, b2.hash := b2], map[0 := g, 2 := b2], Some(b2.hash))
      && GivesUp(crashed) && BootDb(crashed, g) == crashed
  {
    var crashed := Store(Store(EmptyDb(), g), b2);
    assert crashed == Db(map[g.hash := g, b2.hash := b2], map[0 := g, 2 := b2], Some(b2.hash));
    assert StoredPrefix(crashed, 3) <= 1;
    assert Load(crashed, EmptyState()).height == 0;
    assert Store(crashed, g) == crashed by {
      hide Load, StoredPrefix;
    }
    hide Store;
  }

  lemma SplicedBoot(db: Db, g: Block, c1: Block, b2: Block)
    requires BestBlock(db) == Found(b2) && b2.header.number == 2 && b2.header.parentHash != c1.hash
    requires BlockByNumber(db, 0) == Found(g) && BlockByNumber(db, 1) == Found(c1) && BlockByNumber(db, 2) == Found(b2)
    ensures Boot(db, g).blocks == [g, c1, b2] && !Shape(Boot(db, g))
  {
    var three := [g, c1, b2];
    assert Numbered(db, three);
    LoadRebuilds(db, three);
    hide ApplyBlocks, ApplyBlock, Load, Numbered;
    assert three[2] == b2 && three[1] == c1;
  }
}
