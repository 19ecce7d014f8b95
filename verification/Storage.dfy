/**
 BlockStorage of storage/leveldb.go over an abstract database: blocks by hash, blocks by
 number and the best-block entry. JSON and hexadecimal encoding are taken as faithful.
 */
module Storage {
  import opened Prelude
  import opened Types

  datatype Db = Db(byHash: map<Hash, Block>, byNumber: map<u64, Block>, best: Option<Hash>)

  /** What a lookup returns: a block, nil without an error, or an error. */
  datatype Lookup = Found(block: Block) | Nothing | Failed

  function EmptyDb(): Db { Db(map[], map[], None) }

  function PutHash(db: Db, b: Block): Db {
    db.(byHash := db.byHash[b.hash := b])
  }

  function PutNumber(db: Db, b: Block): Db {
    db.(byNumber := db.byNumber[b.header.number := b])
  }

  function PutBest(db: Db, b: Block): Db {
    db.(best := Some(b.hash))
  }

  function BestBlock(db: Db): Lookup {
    match db.best
    case None => Nothing
    case Some(h) => if h in db.byHash then Found(db.byHash[h]) else Failed
  }

  function BlockByNumber(db: Db, n: u64): Lookup {
    if n in db.byNumber then Found(db.byNumber[n]) else Failed
  }

  function BestNumber(db: Db): u64 {
    if BestBlock(db).Found? then BestBlock(db).block.header.number else 0
  }

  /** The database after the first `puts` of StoreBlock's writes; the third is conditional. */
  function StorePartly(db: Db, b: Block, puts: nat): Db {
    if puts == 0 then db
    else
      var one := PutHash(db, b);
      if puts == 1 then one
      else
        var two := PutNumber(one, b);
        if puts == 2 || b.header.number <= BestNumber(two) then two else PutBest(two, b)
  }

  function Store(db: Db, b: Block): Db {
    StorePartly(db, b, 3)
  }

  class BlockStorage {
    var db: Db

    constructor ()
      ensures db == EmptyDb()
    {
      db := EmptyDb();
    }

    method StoreBlock(block: Block)
      modifies this
      ensures db == Store(old(db), block)
    {
      db := db.(byHash := db.byHash[block.hash := block]);
      db := db.(byNumber := db.byNumber[block.header.number := block]);
      var bestBlockNumber: u64 := 0;
      var bestBlock := GetBestBlock();
      if bestBlock.Found? {
        bestBlockNumber := bestBlock.block.header.number;
      }
      if block.header.number > bestBlockNumber {
        SetBestBlock(block);
      }
    }

    method GetBestBlock() returns (r: Lookup)
      ensures r == BestBlock(db)
    {
      if db.best.None? {
        return Nothing;
      }
      r := GetBlockByHash(db.best.value);
    }

    method GetBlockByHash(hash: Hash) returns (r: Lookup)
      ensures r == if hash in db.byHash then Found(db.byHash[hash]) else Failed
    {
      if hash !in db.byHash {
        return Failed;
      }
      r := Found(db.byHash[hash]);
    }

    method GetBlockByNumber(number: u64) returns (r: Lookup)
      ensures r == BlockByNumber(db, number)
    {
      if number !in db.byNumber {
        return Failed;
      }
      r := Found(db.byNumber[number]);
    }

    method SetBestBlock(block: Block)
      modifies this
      ensures db == PutBest(old(db), block)
    {
      db := db.(best := Some(block.hash));
    }
  }

  // ---------- stores in any order ----------

  function StoreAll(db: Db, bs: seq<Block>): Db
    decreases |bs|
  {
    if bs == [] then db else StoreAll(Store(db, bs[0]), bs[1..])
  }

  predicate DistinctBlocks(bs: seq<Block>) {
    forall i, j :: 0 <= i < j < |bs| ==> bs[i].hash != bs[j].hash && bs[i].header.number != bs[j].header.number
  }

  /** The best-block hash is stored. */
  predicate Sound(db: Db) {
    db.best.Some? ==> db.best.value in db.byHash
  }

  /** A hash already in the database stands for the very same block. */
  predicate NoClash(db: Db, b: Block) {
    b.hash in db.byHash ==> db.byHash[b.hash] == b
  }

  predicate NoClashes(db: Db, bs: seq<Block>) {
    forall i :: 0 <= i < |bs| ==> NoClash(db, bs[i])
  }

  /** The conditional write compares with the best block as it was before the first put. */
  lemma StoreShape(db: Db, b: Block)
    requires Sound(db) && NoClash(db, b)
    ensures Store(db, b) == Db(db.byHash[b.hash := b], db.byNumber[b.header.number := b],
                               if b.header.number > BestNumber(db) then Some(b.hash) else db.best)
  {
  }

  lemma StoreSound(db: Db, b: Block)
    requires Sound(db) && NoClash(db, b)
    ensures Sound(Store(db, b))
    ensures BestNumber(Store(db, b)) == if b.header.number > BestNumber(db) then b.header.number else BestNumber(db)
  {
    StoreShape(db, b);
    hide Store;
  }

  lemma NoClashAfter(db: Db, a: Block, b: Block)
    requires NoClash(db, b) && a.hash != b.hash
    ensures NoClash(Store(db, a), b)
  {
  }

  /** Two stores of different blocks commute. */
  lemma StoreCommutes(db: Db, a: Block, b: Block)
    requires Sound(db) && NoClash(db, a) && NoClash(db, b)
    requires a.hash != b.hash && a.header.number != b.header.number
    ensures Store(Store(db, a), b) == Store(Store(db, b), a)
  {
    hide Store, Sound, NoClash, BestNumber;
    StoreShape(db, a);
    StoreShape(db, b);
    StoreSound(db, a);
    StoreSound(db, b);
    NoClashAfter(db, a, b);
    NoClashAfter(db, b, a);
    StoreShape(Store(db, a), b);
    StoreShape(Store(db, b), a);
    var ab, ba := Store(Store(db, a), b), Store(Store(db, b), a);
    assert ab.byHash == ba.byHash;
    assert ab.byNumber == ba.byNumber;
  }

  lemma NoClashesAfter(db: Db, a: Block, bs: seq<Block>)
    requires NoClashes(db, bs) && forall i :: 0 <= i < |bs| ==> bs[i].hash != a.hash
    ensures NoClashes(Store(db, a), bs)
  {
  }

  /** A block can be moved to the front of the queue. */
  lemma {:induction false} StoreFirst(db: Db, bs: seq<Block>, i: nat)
    requires i < |bs| && DistinctBlocks(bs) && Sound(db) && NoClashes(db, bs)
    ensures StoreAll(db, bs) == StoreAll(db, [bs[i]] + bs[..i] + bs[i + 1..])
    decreases i
  {
    if i == 0 {
      assert [bs[0]] + bs[..0] + bs[1..] == bs;
    } else {
      var a, b := bs[0], bs[i];
      TailFacts(db, bs, i);
      hide Store, Sound, NoClash, NoClashes, DistinctBlocks;
      StoreSound(db, a);
      NoClashesAfter(db, a, bs[1..]);
      StoreFirst(Store(db, a), bs[1..], i - 1);
      MoveShape(bs, i);
      var middle := bs[1..i] + bs[i + 1..];
      StoreTwo(db, a, b, middle);
      StoreCommutes(db, a, b);
      StoreTwo(db, b, a, middle);
    }
  }

  lemma TailFacts(db: Db, bs: seq<Block>, i: nat)
    requires 0 < i < |bs| && DistinctBlocks(bs) && NoClashes(db, bs)
    ensures NoClash(db, bs[0]) && NoClash(db, bs[i])
    ensures bs[0].hash != bs[i].hash && bs[0].header.number != bs[i].header.number
    ensures DistinctBlocks(bs[1..]) && NoClashes(db, bs[1..])
    ensures forall k :: 0 <= k < |bs[1..]| ==> bs[1..][k].hash != bs[0].hash
  {
  }

  lemma MoveShape(bs: seq<Block>, i: nat)
    requires 0 < i < |bs|
    ensures var tail, middle := bs[1..], bs[1..i] + bs[i + 1..];
      && [tail[i - 1]] + tail[..i - 1] + tail[i - 1 + 1..] == [bs[i]] + middle
      && [bs[i]] + bs[..i] + bs[i + 1..] == [bs[i], bs[0]] + middle
  {
  }

  lemma StoreTwo(db: Db, a: Block, b: Block, rest: seq<Block>)
    ensures StoreAll(db, [a, b] + rest) == StoreAll(Store(Store(db, a), b), rest)
    ensures StoreAll(Store(db, a), [b] + rest) == StoreAll(Store(Store(db, a), b), rest)
  {
    hide Store;
    assert ([a, b] + rest)[1..] == [b] + rest;
    assert ([b] + rest)[1..] == rest;
  }

  /** Every order in which the same blocks are stored leaves the same database. */
  lemma {:induction false} StoreOrderIrrelevant(db: Db, bs: seq<Block>, cs: seq<Block>)
    requires multiset(bs) == multiset(cs) && DistinctBlocks(bs) && Sound(db) && NoClashes(db, bs)
    ensures StoreAll(db, bs) == StoreAll(db, cs)
    decreases |bs|
  {
    if bs == [] {
      assert |multiset(cs)| == 0;
    } else {
      var i := FindFirst(bs, cs);
      PermutationDistinct(bs, cs);
      PermutationNoClashes(db, bs, cs);
      assert DistinctBlocks(bs[1..]);
      assert forall k :: 0 <= k < |bs[1..]| ==> bs[1..][k].hash != bs[0].hash;
      assert NoClashes(db, bs[1..]);
      assert NoClash(db, bs[0]);
      hide Store, Sound, NoClash, DistinctBlocks, NoClashes;
      StoreFirst(db, cs, i);
      var rest := cs[..i] + cs[i + 1..];
      StoreSound(db, bs[0]);
      NoClashesAfter(db, bs[0], bs[1..]);
      StoreOrderIrrelevant(Store(db, bs[0]), bs[1..], rest);
      assert [cs[i]] + cs[..i] + cs[i + 1..] == [cs[i]] + rest;
      assert ([cs[i]] + rest)[1..] == rest;
    }
  }

  lemma FindFirst(bs: seq<Block>, cs: seq<Block>) returns (i: nat)
    requires multiset(bs) == multiset(cs) && bs != []
    ensures i < |cs| && cs[i] == bs[0]
    ensures multiset(cs[..i] + cs[i + 1..]) == multiset(bs[1..])
  {
    i := HeadSomewhere(bs, cs);
    RemoveOne(cs, i);
    RemoveOne(bs, 0);
    RestIsTail(bs);
  }

  lemma RestIsTail(bs: seq<Block>)
    requires bs != []
    ensures bs[..0] + bs[1..] == bs[1..]
  {
  }

  lemma HeadSomewhere(bs: seq<Block>, cs: seq<Block>) returns (i: nat)
    requires multiset(bs) == multiset(cs) && bs != []
    ensures i < |cs| && cs[i] == bs[0]
  {
    assert bs[0] in multiset(bs);
    i :| 0 <= i < |cs| && cs[i] == bs[0];
  }

  lemma RemoveOne(s: seq<Block>, i: nat)
    requires i < |s|
    ensures multiset(s[..i] + s[i + 1..]) == multiset(s) - multiset{s[i]}
  {
    var l, r := s[..i], s[i + 1..];
    assert s == (l + [s[i]]) + r;
    assert multiset(s) == multiset(l + [s[i]]) + multiset(r);
    assert multiset(l + [s[i]]) == multiset(l) + multiset{s[i]};
    assert multiset(l + r) == multiset(l) + multiset(r);
  }

  lemma PermutationNoClashes(db: Db, bs: seq<Block>, cs: seq<Block>)
    requires multiset(bs) == multiset(cs) && NoClashes(db, bs)
    ensures NoClashes(db, cs)
  {
    forall i | 0 <= i < |cs| ensures NoClash(db, cs[i]) {
      assert cs[i] in multiset(bs);
      var k :| 0 <= k < |bs| && bs[k] == cs[i];
    }
  }

  lemma PermutationDistinct(bs: seq<Block>, cs: seq<Block>)
    requires multiset(bs) == multiset(cs) && DistinctBlocks(bs)
    ensures DistinctBlocks(cs)
  {
    forall i, j | 0 <= i < j < |cs|
      ensures cs[i].hash != cs[j].hash && cs[i].header.number != cs[j].header.number
    {
      if cs[i] == cs[j] {
        TwiceInSequence(cs, i, j);
        assert multiset(bs)[cs[i]] >= 2;
        OnceInDistinct(bs, cs[i]);
        assert false;
      }
      assert cs[i] in multiset(bs) && cs[j] in multiset(bs);
      var k :| 0 <= k < |bs| && bs[k] == cs[i];
      var l :| 0 <= l < |bs| && bs[l] == cs[j];
    }
  }

  lemma TwiceInSequence(s: seq<Block>, i: nat, j: nat)
    requires i < j < |s| && s[i] == s[j]
    ensures multiset(s)[s[i]] >= 2
  {
    assert s == s[..i] + [s[i]] + s[i + 1..j] + [s[j]] + s[j + 1..];
  }

  lemma {:induction false} OnceInDistinct(s: seq<Block>, b: Block)
    requires DistinctBlocks(s)
    ensures multiset(s)[b] <= 1
  {
    if s != [] {
      var front, last := s[..|s| - 1], s[|s| - 1];
      OnceInDistinct(front, b);
      assert s == front + [last];
      if b == last {
        assert b !in front;
        assert multiset(front)[b] == 0;
      }
    }
  }

  /** After any such run the best block is the highest stored, if it is above the old one. */
  lemma {:induction false} BestIsHighest(db: Db, bs: seq<Block>)
    requires Sound(db) && DistinctBlocks(bs) && NoClashes(db, bs)
    ensures Sound(StoreAll(db, bs))
    ensures BestNumber(StoreAll(db, bs)) >= BestNumber(db)
    ensures forall i :: 0 <= i < |bs| ==> bs[i].header.number <= BestNumber(StoreAll(db, bs))
    ensures BestNumber(StoreAll(db, bs)) == BestNumber(db)
      || exists i :: 0 <= i < |bs| && bs[i].header.number == BestNumber(StoreAll(db, bs))
    decreases |bs|
  {
    if bs != [] {
      var db' := Store(db, bs[0]);
      StoreSound(db, bs[0]);
      NoClashesAfter(db, bs[0], bs[1..]);
      BestIsHighest(db', bs[1..]);
      hide Store, BestNumber;
      var top := BestNumber(StoreAll(db', bs[1..]));
      forall i | 0 <= i < |bs| ensures bs[i].header.number <= top {
        if i > 0 { assert bs[i] == bs[1..][i - 1]; }
      }
      if top != BestNumber(db') {
        var i :| 0 <= i < |bs[1..]| && bs[1..][i].header.number == top;
        assert bs[i + 1].header.number == top;
      }
    }
  }

  predicate NumberAmong(n: u64, bs: seq<Block>) {
    exists i :: 0 <= i < |bs| && bs[i].header.number == n
  }

  /** Every block stored can be looked up, and every other number is as it was. */
  lemma {:induction false} StoredLookups(db: Db, bs: seq<Block>)
    requires Sound(db) && DistinctBlocks(bs) && NoClashes(db, bs)
    ensures var after := StoreAll(db, bs);
      && (forall h :: h in db.byHash ==> h in after.byHash && after.byHash[h] == db.byHash[h])
      && (forall i :: 0 <= i < |bs| ==> BlockByNumber(after, bs[i].header.number) == Found(bs[i]))
      && (forall i :: 0 <= i < |bs| ==> bs[i].hash in after.byHash && after.byHash[bs[i].hash] == bs[i])
      && (forall n: u64 :: !NumberAmong(n, bs) ==> BlockByNumber(after, n) == BlockByNumber(db, n))
    decreases |bs|
  {
    if bs != [] {
      var first, rest := bs[0], bs[1..];
      var db' := Store(db, first);
      StoreSound(db, first);
      StoreShape(db, first);
      NoClashesAfter(db, first, rest);
      StoredLookups(db', rest);
      assert !NumberAmong(first.header.number, rest);
      hide Store, Sound, NoClashes, DistinctBlocks;
      var after := StoreAll(db', rest);
      assert BlockByNumber(after, first.header.number) == Found(first);
      forall i | 0 <= i < |bs|
        ensures BlockByNumber(after, bs[i].header.number) == Found(bs[i])
        ensures bs[i].hash in after.byHash && after.byHash[bs[i].hash] == bs[i]
      {
        if i > 0 { assert bs[i] == rest[i - 1]; }
      }
      forall n: u64 | !NumberAmong(n, bs) ensures BlockByNumber(after, n) == BlockByNumber(db, n) {
        assert first.header.number != n by { assert bs[0] == first; }
        NumberAmongRest(n, bs);
      }
    }
  }

  lemma NumberAmongRest(n: u64, bs: seq<Block>)
    requires bs != []
    ensures NumberAmong(n, bs[1..]) ==> NumberAmong(n, bs)
  {
    if i :| 0 <= i < |bs[1..]| && bs[1..][i].header.number == n {
      assert bs[i + 1].header.number == n;
    }
  }

  /** The best block is the old one or one of those stored. */
  lemma {:induction false} BestIsOldOrStored(db: Db, bs: seq<Block>)
    requires Sound(db) && DistinctBlocks(bs) && NoClashes(db, bs)
    ensures StoreAll(db, bs).best == db.best
      || exists i :: 0 <= i < |bs| && StoreAll(db, bs).best == Some(bs[i].hash)
    decreases |bs|
  {
    if bs != [] {
      StoreShape(db, bs[0]);
      StoreSound(db, bs[0]);
      NoClashesAfter(db, bs[0], bs[1..]);
      BestIsOldOrStored(Store(db, bs[0]), bs[1..]);
      hide Store;
      if i :| 0 <= i < |bs[1..]| && StoreAll(db, bs).best == Some(bs[1..][i].hash) {
        assert bs[i + 1] == bs[1..][i];
      }
    }
  }

  /** Stores of which one is above the old best leave the highest of them as the best block. */
  lemma HighestIsBest(db: Db, bs: seq<Block>) returns (top: nat)
    requires Sound(db) && DistinctBlocks(bs) && NoClashes(db, bs)
    requires exists i :: 0 <= i < |bs| && bs[i].header.number > BestNumber(db)
    ensures top < |bs| && StoreAll(db, bs).best == Some(bs[top].hash)
    ensures BestBlock(StoreAll(db, bs)) == Found(bs[top])
    ensures forall i :: 0 <= i < |bs| ==> bs[i].header.number <= bs[top].header.number
  {
    BestIsHighest(db, bs);
    BestIsOldOrStored(db, bs);
    StoredLookups(db, bs);
    var after := StoreAll(db, bs);
    hide Store, StoreAll, NoClashes, DistinctBlocks;
    assert after.best == db.best ==> BestNumber(after) == BestNumber(db);
    top :| 0 <= top < |bs| && after.best == Some(bs[top].hash);
  }

  /** Stores none of which is above the old best leave it as it is. */
  lemma {:induction false} LowerStoresKeepBest(db: Db, bs: seq<Block>)
    requires Sound(db) && DistinctBlocks(bs) && NoClashes(db, bs)
    requires forall i :: 0 <= i < |bs| ==> bs[i].header.number <= BestNumber(db)
    ensures StoreAll(db, bs).best == db.best && BestBlock(StoreAll(db, bs)) == BestBlock(db)
    decreases |bs|
  {
    StoredLookups(db, bs);
    if bs != [] {
      StoreShape(db, bs[0]);
      StoreSound(db, bs[0]);
      NoClashesAfter(db, bs[0], bs[1..]);
      hide Store, BestNumber;
      LowerStoresKeepBest(Store(db, bs[0]), bs[1..]);
    }
  }
}
