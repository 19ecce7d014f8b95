/**
 StoreBlock of storage/leveldb.go by several writers at once, write by write. Reading the
 best block and marking a new one are separate steps, so a writer can mark a block on the
 strength of a number that is no longer the best.
 */
module Writers {
  import opened Prelude
  import opened Types
  import opened Ledger
  import opened Storage
  import opened Chain
  import opened Restart
  import opened StoreOrder

  /** One call: its block, how many of its four steps are done, and the best number it read. */
  datatype Writer = Writer(block: Block, done: nat, seen: u64)

  datatype World = World(db: Db, writers: seq<Writer>)

  /** The two puts, the read, and the conditional mark. */
  function Step(w: World, i: nat): World {
    if i >= |w.writers| then w
    else
      var x := w.writers[i];
      match x.done
      case 0 => World(PutHash(w.db, x.block), w.writers[i := x.(done := 1)])
      case 1 => World(PutNumber(w.db, x.block), w.writers[i := x.(done := 2)])
      case 2 => World(w.db, w.writers[i := x.(done := 3, seen := BestNumber(w.db))])
      case 3 => World(if x.block.header.number > x.seen then PutBest(w.db, x.block) else w.db,
                      w.writers[i := x.(done := 4)])
      case _ => w
  }

  /** A schedule names the writer that moves next. */
  function Run(w: World, schedule: seq<nat>): World {
    if schedule == [] then w else Step(Run(w, schedule[..|schedule| - 1]), schedule[|schedule| - 1])
  }

  function Begin(db: Db, blocks: seq<Block>): World {
    World(db, seq(|blocks|, i requires 0 <= i < |blocks| => Writer(blocks[i], 0, 0)))
  }

  function Number(x: Writer): u64 { x.block.header.number }

  predicate Different(xs: seq<Writer>) {
    forall i, j :: 0 <= i < j < |xs| ==> xs[i].block.hash != xs[j].block.hash && Number(xs[i]) != Number(xs[j])
  }

  /** About to mark its block, whatever has become best since it read. */
  predicate Stale(x: Writer) {
    x.done == 3 && Number(x) > x.seen
  }

  // ---------- one writer alone ----------

  /** A call that nobody interrupts is StoreBlock, step by step. */
  lemma AloneIsStore(db: Db, b: Block)
    ensures Run(Begin(db, [b]), [0]).db == StorePartly(db, b, 1)
    ensures Run(Begin(db, [b]), [0, 0]).db == Run(Begin(db, [b]), [0, 0, 0]).db == StorePartly(db, b, 2)
    ensures Run(Begin(db, [b]), [0, 0, 0, 0]).db == Store(db, b)
  {
    var w0 := Begin(db, [b]);
    var none: seq<nat> := [];
    assert Run(w0, none) == w0;
    RunSnoc(w0, none, 0);
    RunSnoc(w0, [0], 0);
    RunSnoc(w0, [0, 0], 0);
    RunSnoc(w0, [0, 0, 0], 0);
    assert none + [0] == [0] && [0] + [0] == [0, 0] && [0, 0] + [0] == [0, 0, 0] && [0, 0, 0] + [0] == [0, 0, 0, 0];
    hide Run;
  }

  lemma RunSnoc(w: World, schedule: seq<nat>, i: nat)
    ensures Run(w, schedule + [i]) == Step(Run(w, schedule), i)
  {
    assert (schedule + [i])[..|schedule|] == schedule;
  }

  lemma {:induction false} RunConcat(w: World, xs: seq<nat>, ys: seq<nat>)
    ensures Run(w, xs + ys) == Run(Run(w, xs), ys)
  {
    if ys == [] {
      assert xs + ys == xs;
    } else {
      var front, last := ys[..|ys| - 1], ys[|ys| - 1];
      RunConcat(w, xs, front);
      assert xs + ys == (xs + front) + [last];
      RunSnoc(w, xs + front, last);
    }
  }

  // ---------- what the disk holds at any moment ----------

  predicate Held(db: Db, b: Block) {
    b.hash in db.byHash && db.byHash[b.hash] == b
  }

  /** No writer has put this number yet. */
  predicate NotPut(xs: seq<Writer>, n: u64) {
    forall i :: 0 <= i < |xs| && xs[i].done >= 2 ==> Number(xs[i]) != n
  }

  /** Writer i has marked its block, and the mark is still there. */
  predicate Marks(w: World, i: nat) {
    i < |w.writers| && w.writers[i].done >= 4 && w.db.best == Some(w.writers[i].block.hash)
  }

  /** The writers' blocks can be told apart, and no hash on the disk stands for another block. */
  predicate Apart(db: Db, xs: seq<Writer>) {
    Sound(db) && Different(xs) && forall i :: 0 <= i < |xs| ==> NoClash(db, xs[i].block)
  }

  predicate TracksHashes(db: Db, w: World) {
    && (forall h :: h in db.byHash ==> h in w.db.byHash && w.db.byHash[h] == db.byHash[h])
    && (forall i :: 0 <= i < |w.writers| && w.writers[i].done >= 1 ==> Held(w.db, w.writers[i].block))
  }

  ghost predicate TracksNumbers(db: Db, w: World) {
    && (forall i :: 0 <= i < |w.writers| && w.writers[i].done >= 2 ==>
          BlockByNumber(w.db, Number(w.writers[i])) == Found(w.writers[i].block))
    && (forall n: u64 :: NotPut(w.writers, n) ==> BlockByNumber(w.db, n) == BlockByNumber(db, n))
  }

  ghost predicate TracksBest(db: Db, w: World) {
    w.db.best == db.best || exists i: nat :: Marks(w, i)
  }

  /** By hash and by number the disk holds what it held before and what was put; the mark is old or a writer's. */
  ghost predicate Tracks(db: Db, w: World) {
    Apart(db, w.writers) && TracksHashes(db, w) && TracksNumbers(db, w) && TracksBest(db, w)
  }

  lemma StepKeepsBlocks(w: World, i: nat)
    ensures var w' := Step(w, i);
      && |w'.writers| == |w.writers|
      && forall j :: 0 <= j < |w.writers| ==>
        w'.writers[j].block == w.writers[j].block && w'.writers[j].done >= w.writers[j].done
  {
  }

  lemma StepApart(db: Db, w: World, i: nat)
    requires Apart(db, w.writers)
    ensures Apart(db, Step(w, i).writers)
  {
    StepKeepsBlocks(w, i);
    hide Step, NoClash, Sound;
  }

  lemma StepHashes(db: Db, w: World, i: nat)
    requires Apart(db, w.writers) && TracksHashes(db, w)
    ensures TracksHashes(db, Step(w, i))
  {
    if i < |w.writers| {
      assert NoClash(db, w.writers[i].block);
      hide BestNumber, Sound, Number;
    }
  }

  lemma NotPutBefore(w: World, i: nat, n: u64)
    requires NotPut(Step(w, i).writers, n)
    ensures NotPut(w.writers, n)
  {
    StepKeepsBlocks(w, i);
    hide Step;
  }

  lemma StepNumbers(db: Db, w: World, i: nat)
    requires Apart(db, w.writers) && TracksNumbers(db, w)
    ensures TracksNumbers(db, Step(w, i))
  {
    var w' := Step(w, i);
    if i < |w.writers| && w.writers[i].done == 1 {
      assert w'.db == PutNumber(w.db, w.writers[i].block);
    } else {
      assert w'.db.byNumber == w.db.byNumber;
    }
    forall n: u64 | NotPut(w'.writers, n) ensures BlockByNumber(w'.db, n) == BlockByNumber(db, n) {
      NotPutBefore(w, i, n);
      if i < |w.writers| && w.writers[i].done == 1 {
        assert w'.writers[i].done == 2;
      }
    }
    PutNumbers(db, w, i);
  }

  lemma PutNumbers(db: Db, w: World, i: nat)
    requires Different(w.writers) && TracksNumbers(db, w)
    ensures var w' := Step(w, i);
      forall j :: 0 <= j < |w'.writers| && w'.writers[j].done >= 2 ==>
        BlockByNumber(w'.db, Number(w'.writers[j])) == Found(w'.writers[j].block)
  {
    hide BestNumber, NotPut;
  }

  lemma StepBest(db: Db, w: World, i: nat)
    requires TracksBest(db, w)
    ensures TracksBest(db, Step(w, i))
  {
    var w' := Step(w, i);
    if i < |w.writers| && Stale(w.writers[i]) {
      assert Marks(w', i);
    } else {
      StepKeepsBlocks(w, i);
      assert w'.db.best == w.db.best;
      hide Step;
      if j: nat :| Marks(w, j) {
        assert Marks(w', j);
      }
    }
  }

  lemma StepTracks(db: Db, w: World, i: nat)
    requires Tracks(db, w)
    ensures Tracks(db, Step(w, i))
  {
    hide Apart, TracksHashes, TracksNumbers, TracksBest, Step;
    StepApart(db, w, i);
    StepHashes(db, w, i);
    StepNumbers(db, w, i);
    StepBest(db, w, i);
  }

  /** The content of the disk at every moment of every schedule. */
  lemma {:induction false} RunTracks(db: Db, blocks: seq<Block>, schedule: seq<nat>)
    requires Apart(db, Begin(db, blocks).writers)
    ensures Tracks(db, Run(Begin(db, blocks), schedule))
  {
    if schedule != [] {
      RunTracks(db, blocks, schedule[..|schedule| - 1]);
      hide Tracks, Step;
      StepTracks(db, Run(Begin(db, blocks), schedule[..|schedule| - 1]), schedule[|schedule| - 1]);
    }
  }

  // ---------- which block ends up marked best ----------

  /** The block marked best is the old one or that of a writer that is through. */
  lemma BestDuring(db: Db, w: World)
    requires Tracks(db, w)
    ensures BestNumber(w.db) == BestNumber(db)
      || exists i: nat :: Marks(w, i) && BestBlock(w.db) == Found(w.writers[i].block)
    ensures forall i: nat :: Marks(w, i) ==> BestBlock(w.db) == Found(w.writers[i].block)
  {
    forall i: nat | Marks(w, i) ensures BestBlock(w.db) == Found(w.writers[i].block) {
      assert Held(w.db, w.writers[i].block);
    }
    hide Apart, Number, NotPut;
  }

  /** Writer h has the highest block, above the old best too. */
  predicate Highest(db: Db, xs: seq<Writer>, h: nat) {
    && h < |xs| && Number(xs[h]) > BestNumber(db)
    && forall i :: 0 <= i < |xs| && i != h ==> Number(xs[i]) < Number(xs[h])
  }

  predicate AllDone(w: World) {
    forall i :: 0 <= i < |w.writers| ==> w.writers[i].done >= 4
  }

  /** Until the highest writer is through, everything marked is lower. */
  lemma BelowHighest(db: Db, w: World, h: nat)
    requires Tracks(db, w) && Highest(db, w.writers, h) && w.writers[h].done < 4
    ensures BestNumber(w.db) < Number(w.writers[h])
  {
    BestDuring(db, w);
    hide Tracks, BestBlock;
  }

  /** So the highest writer always decides to mark its block. */
  lemma {:induction false} HighestDecides(db: Db, blocks: seq<Block>, schedule: seq<nat>, h: nat)
    requires Apart(db, Begin(db, blocks).writers) && Highest(db, Begin(db, blocks).writers, h)
    ensures var w := Run(Begin(db, blocks), schedule);
      Highest(db, w.writers, h) && (w.writers[h].done == 3 ==> Stale(w.writers[h]))
  {
    if schedule != [] {
      var front, i := schedule[..|schedule| - 1], schedule[|schedule| - 1];
      HighestDecides(db, blocks, front, h);
      RunTracks(db, blocks, front);
      var w := Run(Begin(db, blocks), front);
      StepKeepsBlocks(w, i);
      hide Run, Tracks, Apart, PutHash, PutNumber, PutBest;
      if w.writers[h].done < 4 {
        BelowHighest(db, w, h);
      }
      hide BestNumber;
    }
  }

  predicate Settled(w: World, h: nat) {
    && h < |w.writers| && w.writers[h].done >= 4 && w.db.best == Some(w.writers[h].block.hash)
    && Held(w.db, w.writers[h].block)
    && forall i :: 0 <= i < |w.writers| ==> Number(w.writers[i]) <= Number(w.writers[h]) && !Stale(w.writers[i])
  }

  lemma StepSettled(w: World, h: nat, i: nat)
    requires Settled(w, h) && Different(w.writers)
    ensures Settled(Step(w, i), h)
  {
    assert BestNumber(w.db) == Number(w.writers[h]);
    hide BestNumber;
  }

  predicate Unsettled(w: World, h: nat, i: nat) {
    && h < |w.writers| && w.writers[h].done >= 4 && i < |w.writers| && i != h
    && (Stale(w.writers[i]) || w.db.best != Some(w.writers[h].block.hash))
  }

  lemma StepUnsettled(w: World, h: nat, i: nat, k: nat)
    requires Unsettled(w, h, i) && Different(w.writers)
    ensures Unsettled(Step(w, k), h, i)
  {
    hide BestNumber;
    assert k < |w.writers| && k != h ==> w.writers[k].block.hash != w.writers[h].block.hash;
  }

  lemma StepDifferent(w: World, i: nat)
    requires Different(w.writers)
    ensures Different(Step(w, i).writers)
  {
    StepKeepsBlocks(w, i);
    hide Step;
  }

  lemma {:induction false} RunSettled(w: World, h: nat, schedule: seq<nat>)
    requires Settled(w, h) && Different(w.writers)
    ensures Settled(Run(w, schedule), h) && Different(Run(w, schedule).writers)
  {
    if schedule != [] {
      var front := schedule[..|schedule| - 1];
      RunSettled(w, h, front);
      hide Settled, Different, Step;
      StepSettled(Run(w, front), h, schedule[|schedule| - 1]);
      StepDifferent(Run(w, front), schedule[|schedule| - 1]);
    }
  }

  lemma {:induction false} RunUnsettled(w: World, h: nat, i: nat, schedule: seq<nat>)
    requires Unsettled(w, h, i) && Different(w.writers)
    ensures Unsettled(Run(w, schedule), h, i) && Different(Run(w, schedule).writers)
  {
    if schedule != [] {
      var front := schedule[..|schedule| - 1];
      RunUnsettled(w, h, i, front);
      hide Unsettled, Different, Step;
      StepUnsettled(Run(w, front), h, i, schedule[|schedule| - 1]);
      StepDifferent(Run(w, front), schedule[|schedule| - 1]);
    }
  }

  /** Right after the highest writer marked its block: it stays marked exactly when nobody else is about to. */
  lemma MarkStaysIff(w: World, h: nat, later: seq<nat>)
    requires Different(w.writers) && h < |w.writers| && w.writers[h].done >= 4
    requires w.db.best == Some(w.writers[h].block.hash) && Held(w.db, w.writers[h].block)
    requires forall i :: 0 <= i < |w.writers| ==> Number(w.writers[i]) <= Number(w.writers[h])
    requires AllDone(Run(w, later))
    ensures Run(w, later).db.best == Some(w.writers[h].block.hash)
      <==> forall i :: 0 <= i < |w.writers| ==> !Stale(w.writers[i])
  {
    RunKeepsBlocks(w, later);
    if i :| 0 <= i < |w.writers| && Stale(w.writers[i]) {
      RunUnsettled(w, h, i, later);
    } else {
      RunSettled(w, h, later);
    }
    hide Run, Different, Held;
  }

  lemma {:induction false} RunKeepsBlocks(w: World, schedule: seq<nat>)
    ensures var w' := Run(w, schedule);
      |w'.writers| == |w.writers| && forall j :: 0 <= j < |w.writers| ==> w'.writers[j].block == w.writers[j].block
  {
    if schedule != [] {
      RunKeepsBlocks(w, schedule[..|schedule| - 1]);
      StepKeepsBlocks(Run(w, schedule[..|schedule| - 1]), schedule[|schedule| - 1]);
      hide Step;
    }
  }

  /**
   Exactly when the best block ends up below the highest one stored: some other writer had
   read a lower number and not yet marked its block when the highest writer marked its own.
   */
  lemma HighestEndsBestIff(db: Db, blocks: seq<Block>, h: nat, before: seq<nat>, later: seq<nat>)
    requires Apart(db, Begin(db, blocks).writers) && Highest(db, Begin(db, blocks).writers, h)
    requires var w := Run(Begin(db, blocks), before); h < |w.writers| && w.writers[h].done == 3
    requires AllDone(Run(Begin(db, blocks), before + [h] + later))
    ensures var w := Run(Begin(db, blocks), before);
      var final := Run(Begin(db, blocks), before + [h] + later);
      && BestNumber(final.db) <= blocks[h].header.number
      && (BestBlock(final.db) == Found(blocks[h]) <==> BestNumber(final.db) == blocks[h].header.number)
      && (BestBlock(final.db) == Found(blocks[h]) <==>
            forall i :: 0 <= i < |w.writers| && i != h ==> !Stale(w.writers[i]))
  {
    var w0 := Begin(db, blocks);
    RunSnoc(w0, before, h);
    RunConcat(w0, before + [h], later);
    HighestDecides(db, blocks, before, h);
    RunTracks(db, blocks, before);
    RunKeepsBlocks(w0, before);
    assert w0.writers[h].block == blocks[h];
    var w := Run(w0, before);
    hide *;
    MarkedNow(db, w, h, later);
    FinalOf(db, blocks, h, before + [h] + later);
  }

  lemma FinalOf(db: Db, blocks: seq<Block>, h: nat, schedule: seq<nat>)
    requires Apart(db, Begin(db, blocks).writers) && Highest(db, Begin(db, blocks).writers, h)
    requires AllDone(Run(Begin(db, blocks), schedule))
    ensures var final := Run(Begin(db, blocks), schedule);
      && BestNumber(final.db) <= blocks[h].header.number
      && (BestBlock(final.db) == Found(blocks[h]) <==> final.db.best == Some(blocks[h].hash))
      && (BestBlock(final.db) == Found(blocks[h]) <==> BestNumber(final.db) == blocks[h].header.number)
  {
    HighestDecides(db, blocks, schedule, h);
    RunTracks(db, blocks, schedule);
    RunKeepsBlocks(Begin(db, blocks), schedule);
    hide Run, Tracks, AllDone, Apart, BestNumber, BestBlock;
    FinalBest(db, Run(Begin(db, blocks), schedule), h);
  }

  /** From just before the highest writer's last step on. */
  lemma MarkedNow(db: Db, w: World, h: nat, later: seq<nat>)
    requires Tracks(db, w) && Highest(db, w.writers, h) && Stale(w.writers[h])
    requires AllDone(Run(Step(w, h), later))
    ensures Run(Step(w, h), later).db.best == Some(w.writers[h].block.hash)
      <==> forall i :: 0 <= i < |w.writers| && i != h ==> !Stale(w.writers[i])
  {
    var marked := Step(w, h);
    StepTracks(db, w, h);
    assert Held(marked.db, marked.writers[h].block) && Different(marked.writers);
    assert marked.writers == w.writers[h := w.writers[h].(done := 4)];
    assert !Stale(marked.writers[h]);
    assert forall i :: 0 <= i < |w.writers| && i != h ==> marked.writers[i] == w.writers[i];
    hide Run, Tracks, AllDone, Held, Different, BestNumber, Stale, Step;
    MarkStaysIff(marked, h, later);
  }

  lemma FinalBest(db: Db, w: World, h: nat)
    requires Tracks(db, w) && Highest(db, w.writers, h) && AllDone(w)
    ensures BestNumber(w.db) <= Number(w.writers[h])
    ensures BestBlock(w.db) == Found(w.writers[h].block) <==> w.db.best == Some(w.writers[h].block.hash)
    ensures BestBlock(w.db) == Found(w.writers[h].block) <==> BestNumber(w.db) == Number(w.writers[h])
  {
    BestDuring(db, w);
    hide Tracks;
  }

  /** If no writer is above the old best, it stays best under every schedule. */
  lemma {:induction false} OldBestStays(db: Db, blocks: seq<Block>, schedule: seq<nat>)
    requires Apart(db, Begin(db, blocks).writers)
    requires forall i :: 0 <= i < |blocks| ==> blocks[i].header.number <= BestNumber(db)
    ensures var w := Run(Begin(db, blocks), schedule);
      && w.db.best == db.best && BestBlock(w.db) == BestBlock(db)
      && forall i :: 0 <= i < |w.writers| ==> !Stale(w.writers[i])
  {
    var w := Run(Begin(db, blocks), schedule);
    RunTracks(db, blocks, schedule);
    if schedule != [] {
      var front, i := schedule[..|schedule| - 1], schedule[|schedule| - 1];
      OldBestStays(db, blocks, front);
      RunTracks(db, blocks, front);
      RunKeepsBlocks(Begin(db, blocks), front);
      hide Run, TracksNumbers, TracksBest, Apart, PutHash, PutNumber, BestNumber, BestBlock;
      NotStaleStep(Run(Begin(db, blocks), front), i);
    }
    hide Run, TracksNumbers, TracksBest, Begin, Stale, Held;
  }

  lemma NotStaleStep(w: World, i: nat)
    requires forall j :: 0 <= j < |w.writers| ==> !Stale(w.writers[j]) && Number(w.writers[j]) <= BestNumber(w.db)
    ensures var w' := Step(w, i);
      w'.db.best == w.db.best && forall j :: 0 <= j < |w.writers| ==> !Stale(w'.writers[j])
  {
    hide BestNumber;
  }

  // ---------- a crash at any moment ----------

  /** The blocks of the writers that are through. */
  function Through(xs: seq<Writer>): seq<Block> {
    if xs == [] then []
    else Through(xs[..|xs| - 1]) + if xs[|xs| - 1].done >= 4 then [xs[|xs| - 1].block] else []
  }

  lemma {:induction false} ThroughIff(xs: seq<Writer>, b: Block)
    ensures b in Through(xs) <==> exists i :: 0 <= i < |xs| && xs[i].done >= 4 && xs[i].block == b
  {
    if xs != [] {
      var n := |xs| - 1;
      ThroughIff(xs[..n], b);
      if i :| 0 <= i < n && xs[..n][i].done >= 4 && xs[..n][i].block == b {
        assert xs[i].block == b;
      }
      if i :| 0 <= i < |xs| && xs[i].done >= 4 && xs[i].block == b {
        if i < n { assert xs[..n][i].block == b; }
      }
    }
  }

  /** Block j has been put under its number, by a writer or before. */
  predicate Put(db: Db, s: State, w: World, j: nat)
    requires j < |s.blocks| <= TWO64
  {
    BlockByNumber(db, j) == Found(s.blocks[j])
    || exists i :: 0 <= i < |w.writers| && w.writers[i].done >= 2 && w.writers[i].block == s.blocks[j]
  }

  /** The disk marks block n of the chain best, at or above all that are through, and every block up to it is put. */
  predicate SafeAt(db: Db, s: State, w: World, n: nat)
    requires |s.blocks| <= TWO64
  {
    && 1 <= n < |s.blocks| && BestBlock(w.db) == Found(s.blocks[n])
    && (forall i :: 0 <= i < |w.writers| && w.writers[i].done >= 4 ==> Number(w.writers[i]) <= n)
    && forall j :: 0 <= j <= n ==> Put(db, s, w, j)
  }

  lemma BlocksFromChain(s: State, c: nat, db: Db, blocks: seq<Block>, schedule: seq<nat>)
    requires Placed(s) && c <= |s.blocks| && FromChain(s, c, blocks)
    ensures var w := Run(Begin(db, blocks), schedule);
      forall i :: 0 <= i < |w.writers| ==>
        c <= Number(w.writers[i]) < |s.blocks| && s.blocks[Number(w.writers[i])] == w.writers[i].block
  {
    RunKeepsBlocks(Begin(db, blocks), schedule);
    var w := Run(Begin(db, blocks), schedule);
    hide Run, FromChain, Placed;
    forall i | 0 <= i < |w.writers|
      ensures c <= Number(w.writers[i]) < |s.blocks| && s.blocks[Number(w.writers[i])] == w.writers[i].block
    {
      FinishedPosition(s, c, blocks, i);
    }
  }

  /** Under number j the disk has the chain's block exactly when that was put. */
  lemma NumberDuring(db: Db, s: State, w: World, j: nat)
    requires Placed(s) && TracksNumbers(db, w) && j < |s.blocks| <= TWO64
    requires forall i :: 0 <= i < |w.writers| ==>
      Number(w.writers[i]) < |s.blocks| && s.blocks[Number(w.writers[i])] == w.writers[i].block
    requires Different(w.writers)
    ensures BlockByNumber(w.db, j) == Found(s.blocks[j]) <==> Put(db, s, w, j)
  {
    BlockNumbers(s, j);
    hide Placed, Different;
    if i :| 0 <= i < |w.writers| && w.writers[i].done >= 2 && Number(w.writers[i]) == j {
      assert w.writers[i].block == s.blocks[j];
    } else {
      assert NotPut(w.writers, j);
      forall i | 0 <= i < |w.writers| && w.writers[i].block == s.blocks[j] ensures w.writers[i].done < 2 {
        assert Number(w.writers[i]) == j;
      }
    }
  }

  /**
   A crash between any two steps of any schedule, at least one writer being through: the
   restart has an initial part of the chain with every block whose writer is through
   exactly when the mark is on a block of the chain, at or above all of those, and
   every block up to it has been put.
   */
  lemma CrashAnywhereIff(db: Db, s: State, c: nat, blocks: seq<Block>, schedule: seq<nat>)
    requires Placed(s) && s.blocks[0].txs == [] && DistinctBlocks(s.blocks)
    requires OnDisk(db, s, c) && Finished(s, c, blocks)
    requires Through(Run(Begin(db, blocks), schedule).writers) != []
    ensures var w := Run(Begin(db, blocks), schedule);
      Survives(s, Through(w.writers), Boot(w.db, s.blocks[0])) <==> exists n: nat :: SafeAt(db, s, w, n)
  {
    var w := Run(Begin(db, blocks), schedule);
    var through := Through(w.writers);
    BlocksFromChain(s, c, db, blocks, schedule);
    WritersApart(db, s, c, blocks);
    RunTracks(db, blocks, schedule);
    ThroughFromChain(s, c, w.writers);
    SurvivesIffReaches(w.db, s, c, through);
    hide Run, Begin, Through, Survives, Boot, Placed, OnDisk, Finished, DistinctBlocks, FromChain;
    forall n: nat ensures SafeAt(db, s, w, n) <==>
      Reaches(w.db, s, n) && forall k :: 0 <= k < |through| ==> through[k].header.number <= n
    {
      SafeAtIff(db, s, w, n);
    }
  }

  lemma SafeAtIff(db: Db, s: State, w: World, n: nat)
    requires Placed(s) && |s.blocks| <= TWO64 && Tracks(db, w)
    requires forall i :: 0 <= i < |w.writers| ==>
      Number(w.writers[i]) < |s.blocks| && s.blocks[Number(w.writers[i])] == w.writers[i].block
    ensures var through := Through(w.writers);
      SafeAt(db, s, w, n)
      <==> Reaches(w.db, s, n) && forall k :: 0 <= k < |through| ==> through[k].header.number <= n
  {
    ThroughBelow(w.writers, n);
    hide Through, Placed, TracksHashes, TracksBest;
    if n < |s.blocks| {
      forall j: nat | j <= n ensures BlockByNumber(w.db, j) == Found(s.blocks[j]) <==> Put(db, s, w, j) {
        NumberDuring(db, s, w, j);
      }
    }
    hide Put, Tracks, BlockByNumber, BestBlock;
  }

  lemma {:induction false} ThroughBelow(xs: seq<Writer>, n: nat)
    ensures (forall k :: 0 <= k < |Through(xs)| ==> Through(xs)[k].header.number <= n)
      <==> forall i :: 0 <= i < |xs| && xs[i].done >= 4 ==> Number(xs[i]) <= n
  {
    var through := Through(xs);
    if forall k :: 0 <= k < |through| ==> through[k].header.number <= n {
      forall i | 0 <= i < |xs| && xs[i].done >= 4 ensures Number(xs[i]) <= n {
        ThroughIff(xs, xs[i].block);
        var k :| 0 <= k < |through| && through[k] == xs[i].block;
      }
    }
    if forall i :: 0 <= i < |xs| && xs[i].done >= 4 ==> Number(xs[i]) <= n {
      forall k | 0 <= k < |through| ensures through[k].header.number <= n {
        ThroughIff(xs, through[k]);
        var i :| 0 <= i < |xs| && xs[i].done >= 4 && xs[i].block == through[k];
      }
    }
  }

  lemma {:induction false} ThroughFromChain(s: State, c: nat, xs: seq<Writer>)
    requires c <= |s.blocks|
    requires forall i :: 0 <= i < |xs| ==>
      c <= Number(xs[i]) < |s.blocks| && s.blocks[Number(xs[i])] == xs[i].block
    ensures FromChain(s, c, Through(xs))
  {
    forall k | 0 <= k < |Through(xs)| ensures Through(xs)[k] in s.blocks[c..] {
      ThroughIff(xs, Through(xs)[k]);
      var i :| 0 <= i < |xs| && xs[i].done >= 4 && xs[i].block == Through(xs)[k];
      assert s.blocks[c..][Number(xs[i]) - c] == xs[i].block;
    }
  }

  lemma WritersApart(db: Db, s: State, c: nat, blocks: seq<Block>)
    requires OnDisk(db, s, c) && Finished(s, c, blocks)
    ensures Apart(db, Begin(db, blocks).writers)
  {
    FinishedNoClashes(db, s, c, blocks);
    hide NoClash;
  }

  // ---------- the smallest lost mark ----------

  /**
   Blocks 1 and 2 on a fresh disk: the first writer reads, the second runs through, the
   first marks its own block. Both stores are complete, and a restart has lost block 2.
   */
  lemma LostMark(g: Block, b1: Block, b2: Block)
    requires Linked([g, b1, b2]) && DistinctBlocks([g, b1, b2]) && g.txs == []
    ensures var w := Run(Begin(Store(EmptyDb(), g), [b1, b2]), [0, 0, 0, 1, 1, 1, 1, 0]);
      && AllDone(w) && BlockByNumber(w.db, 2) == Found(b2)
      && BestBlock(w.db) == Found(b1) && Boot(w.db, g).blocks == [g, b1]
  {
    var chain := [g, b1, b2];
    assert chain[0] == g && chain[1] == b1 && chain[2] == b2;
    hide Run, Linked, DistinctBlocks, Boot;
    LostMarkDb(g, b1, b2);
    LostMarkRun(Store(EmptyDb(), g), b1, b2);
  }

  lemma LostMarkRun(db: Db, b1: Block, b2: Block)
    requires b1.header.number > 0 && b2.header.number > 0
    requires BestNumber(PutNumber(PutHash(db, b1), b1)) == 0
    requires BestNumber(PutNumber(PutHash(PutNumber(PutHash(db, b1), b1), b2), b2)) == 0
    ensures var two := PutNumber(PutHash(PutNumber(PutHash(db, b1), b1), b2), b2);
      Run(Begin(db, [b1, b2]), [0, 0, 0, 1, 1, 1, 1, 0])
      == World(PutBest(PutBest(two, b2), b1), [Writer(b1, 4, 0), Writer(b2, 4, 0)])
  {
    var w0 := Begin(db, [b1, b2]);
    assert w0 == World(db, [Writer(b1, 0, 0), Writer(b2, 0, 0)]);
    assert [0, 0, 0, 1, 1, 1, 1, 0] == (([0, 0, 0] + [1, 1, 1]) + [1]) + [0];
    hide Run, BestNumber, PutHash, PutNumber, PutBest;
    RunSnoc(w0, ([0, 0, 0] + [1, 1, 1]) + [1], 0);
    RunSnoc(w0, [0, 0, 0] + [1, 1, 1], 1);
    RunConcat(w0, [0, 0, 0], [1, 1, 1]);
    ThreeSteps(w0, 0);
    ThreeSteps(Run(w0, [0, 0, 0]), 1);
  }

  lemma ThreeSteps(w: World, i: nat)
    requires i < |w.writers| && w.writers[i].done == 0
    ensures var b := w.writers[i].block;
      var db := PutNumber(PutHash(w.db, b), b);
      Run(w, [i, i, i]) == World(db, w.writers[i := Writer(b, 3, BestNumber(db))])
  {
    var none: seq<nat> := [];
    RunSnoc(w, none, i);
    RunSnoc(w, [i], i);
    RunSnoc(w, [i, i], i);
    assert none + [i] == [i] && [i] + [i] == [i, i] && [i, i] + [i] == [i, i, i];
    assert Run(w, none) == w;
    hide Run, BestNumber;
  }

  /** What the disk then holds. */
  lemma LostMarkDb(g: Block, b1: Block, b2: Block)
    requires g.header.number == 0 && b1.header.number == 1 && b2.header.number == 2
    requires DistinctBlocks([g, b1, b2])
    ensures var db := Store(EmptyDb(), g);
      var one := PutNumber(PutHash(db, b1), b1);
      var two := PutNumber(PutHash(one, b2), b2);
      var last := PutBest(PutBest(two, b2), b1);
      && BestNumber(one) == 0 && BestNumber(two) == 0
      && BlockByNumber(last, 2) == Found(b2) && BestBlock(last) == Found(b1)
      && Boot(last, g).blocks == [g, b1]
  {
    var blocks := [g, b1, b2];
    assert blocks[0].hash != blocks[1].hash && blocks[0].hash != blocks[2].hash && blocks[1].hash != blocks[2].hash;
    var last := Db(map[g.hash := g, b1.hash := b1, b2.hash := b2], map[0 := g, 1 := b1, 2 := b2], Some(b1.hash));
    var one := PutNumber(PutHash(Store(EmptyDb(), g), b1), b1);
    assert last == PutBest(PutBest(PutNumber(PutHash(one, b2), b2), b2), b1);
    LoadRebuilds(last, [g, b1]);
    hide ApplyBlocks, ApplyBlock, Load;
  }
}
