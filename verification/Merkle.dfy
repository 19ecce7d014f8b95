/**
 The Merkle root of core/consensus.go and what it pins down. SHA-256 is a parameter, so
 binding is stated constructively: equal lists, or the two colliding inputs.
 */
module Merkle {
  import opened Prelude
  import opened Types

  /** The bytes hashed for position i of the next level; an odd last element is paired with itself. */
  function Pair(level: seq<Hash>, i: nat): (p: seq<byte>)
    requires 2 * i < |level|
    ensures |p| == 64
  {
    var left: seq<byte> := level[2 * i];
    left + if 2 * i + 1 < |level| then level[2 * i + 1] else left
  }

  function NextLevel(sha: Sha256, level: seq<Hash>): (next: seq<Hash>)
    ensures |next| == (|level| + 1) / 2
  {
    seq<Hash>((|level| + 1) / 2, i requires 0 <= i < (|level| + 1) / 2 => sha(Pair(level, i)))
  }

  function Root(sha: Sha256, level: seq<Hash>): Hash
    requires level != []
    decreases |level|
  {
    if |level| == 1 then level[0] else Root(sha, NextLevel(sha, level))
  }

  function Leaves(sha: Sha256, txs: seq<Transaction>): (hashes: seq<Hash>)
    ensures |hashes| == |txs|
  {
    seq<Hash>(|txs|, i requires 0 <= i < |txs| => TransactionHash(sha, txs[i]))
  }

  function MerkleRoot(sha: Sha256, txs: seq<Transaction>): Hash {
    if txs == [] then ZeroHash() else Root(sha, Leaves(sha, txs))
  }

  method CalculateMerkleRoot(sha: Sha256, txs: seq<Transaction>) returns (root: Hash)
    ensures root == MerkleRoot(sha, txs)
  {
    if |txs| == 0 {
      return ZeroHash();
    }
    if |txs| == 1 {
      return TransactionHash(sha, txs[0]);
    }
    hide TransactionHash;
    var hashes := [];
    for i := 0 to |txs|
      invariant hashes == Leaves(sha, txs)[..i]
    {
      hashes := hashes + [TransactionHash(sha, txs[i])];
    }
    assert hashes == Leaves(sha, txs);
    while |hashes| > 1
      invariant hashes != [] && Root(sha, hashes) == MerkleRoot(sha, txs)
      decreases |hashes|
    {
      hashes := LevelAbove(sha, hashes);
    }
    root := hashes[0];
  }

  /** The inner loop: two hashes at a time. */
  method LevelAbove(sha: Sha256, hashes: seq<Hash>) returns (nextLevel: seq<Hash>)
    ensures nextLevel == NextLevel(sha, hashes)
  {
    nextLevel := [];
    var i := 0;
    while i < |hashes|
      invariant i % 2 == 0 && i <= |hashes| + 1
      invariant nextLevel == NextLevel(sha, hashes)[..i / 2]
    {
      var left: seq<byte> := hashes[i];
      var right: seq<byte> := if i + 1 < |hashes| then hashes[i + 1] else hashes[i];
      assert left + right == Pair(hashes, i / 2);
      nextLevel := nextLevel + [sha(left + right)];
      i := i + 2;
    }
  }

  // ---------- the tree behind the root ----------

  datatype Tree = Leaf(tx: Transaction) | Node(left: Tree, right: Tree)

  /** The bytes hashed at the top of a tree. */
  function PreImage(sha: Sha256, t: Tree): seq<byte>
    decreases t, 0
  {
    match t
    case Leaf(tx) => TransactionBytes(tx)
    case Node(left, right) =>
      var l: seq<byte>, r: seq<byte> := HashOf(sha, left), HashOf(sha, right);
      l + r
  }

  function HashOf(sha: Sha256, t: Tree): Hash
    decreases t, 1
  {
    sha(PreImage(sha, t))
  }

  function Twin(level: seq<Tree>, i: nat): Tree
    requires 2 * i < |level|
  {
    Node(level[2 * i], if 2 * i + 1 < |level| then level[2 * i + 1] else level[2 * i])
  }

  function Paired(level: seq<Tree>): (next: seq<Tree>)
    ensures |next| == (|level| + 1) / 2
  {
    seq((|level| + 1) / 2, i requires 0 <= i < (|level| + 1) / 2 => Twin(level, i))
  }

  function Grow(level: seq<Tree>): Tree
    requires level != []
    decreases |level|
  {
    if |level| == 1 then level[0] else Grow(Paired(level))
  }

  function LeafTrees(txs: seq<Transaction>): (level: seq<Tree>)
    ensures |level| == |txs|
  {
    seq(|txs|, i requires 0 <= i < |txs| => Leaf(txs[i]))
  }

  /** The tree of a list, with the repeated last elements filled in. */
  function TreeOf(txs: seq<Transaction>): Tree
    requires txs != []
  {
    Grow(LeafTrees(txs))
  }

  function Hashes(sha: Sha256, level: seq<Tree>): (hashes: seq<Hash>)
    ensures |hashes| == |level|
  {
    seq<Hash>(|level|, i requires 0 <= i < |level| => HashOf(sha, level[i]))
  }

  lemma HashesOfPaired(sha: Sha256, level: seq<Tree>)
    ensures NextLevel(sha, Hashes(sha, level)) == Hashes(sha, Paired(level))
  {
    var n1, n2 := NextLevel(sha, Hashes(sha, level)), Hashes(sha, Paired(level));
    forall i | 0 <= i < |n1| ensures n1[i] == n2[i] {
      assert Pair(Hashes(sha, level), i) == PreImage(sha, Twin(level, i));
    }
  }

  lemma {:induction false} RootOfLevel(sha: Sha256, level: seq<Tree>)
    requires level != []
    ensures Root(sha, Hashes(sha, level)) == HashOf(sha, Grow(level))
    decreases |level|
  {
    if |level| > 1 {
      hide NextLevel, Paired, HashOf;
      HashesOfPaired(sha, level);
      RootOfLevel(sha, Paired(level));
    }
  }

  /** The level loops compute the hash of the tree. */
  lemma RootOfTree(sha: Sha256, txs: seq<Transaction>)
    requires txs != []
    ensures MerkleRoot(sha, txs) == HashOf(sha, TreeOf(txs))
  {
    RootOfLevel(sha, LeafTrees(txs));
    var hashes, leaves := Hashes(sha, LeafTrees(txs)), Leaves(sha, txs);
    forall i | 0 <= i < |txs| ensures hashes[i] == leaves[i] {
      assert PreImage(sha, Leaf(txs[i])) == TransactionBytes(txs[i]);
    }
    assert hashes == leaves;
    hide Hashes, Leaves, HashOf;
  }

  // ---------- binding ----------

  /** Two different inputs with the same hash. */
  predicate Collides(sha: Sha256, c: (seq<byte>, seq<byte>)) {
    c.0 != c.1 && sha(c.0) == sha(c.1)
  }

  /** What a transaction hash covers: everything but the signature, inputs, outputs and timestamp. */
  predicate SameCovered(t: Transaction, u: Transaction) {
    && t.from == u.from && t.to == u.to && t.amount == u.amount && t.nonce == u.nonce && t.fee == u.fee
    && t.gasUsed == u.gasUsed && t.gasPrice == u.gasPrice && t.data == u.data
  }

  predicate SameTree(s: Tree, t: Tree) {
    match (s, t)
    case (Leaf(x), Leaf(y)) => SameCovered(x, y)
    case (Node(l, r), Node(m, n)) => SameTree(l, m) && SameTree(r, n)
    case _ => false
  }

  /** Descend into the first part that differs while the bytes hashed agree, then report those bytes. */
  function Apart(sha: Sha256, s: Tree, t: Tree): (seq<byte>, seq<byte>) {
    if s.Node? && t.Node? && PreImage(sha, s) == PreImage(sha, t) then
      if SameTree(s.left, t.left) then Apart(sha, s.right, t.right) else Apart(sha, s.left, t.left)
    else (PreImage(sha, s), PreImage(sha, t))
  }

  lemma BytesDetermineCovered(t: Transaction, u: Transaction)
    ensures TransactionBytes(t) == TransactionBytes(u) <==> SameCovered(t, u)
  {
    if TransactionBytes(t) == TransactionBytes(u) {
      hide Bytes8;
      var x, y := TransactionBytes(t), TransactionBytes(u);
      assert x[..20] == t.from && y[..20] == u.from;
      assert x[20..40] == t.to && y[20..40] == u.to;
      assert x[40..48] == Bytes8(t.amount) && y[40..48] == Bytes8(u.amount);
      assert x[48..56] == Bytes8(t.nonce) && y[48..56] == Bytes8(u.nonce);
      assert x[56..64] == Bytes8(t.fee) && y[56..64] == Bytes8(u.fee);
      assert x[64..72] == Bytes8(t.gasUsed) && y[64..72] == Bytes8(u.gasUsed);
      assert x[72..80] == Bytes8(t.gasPrice) && y[72..80] == Bytes8(u.gasPrice);
      assert x[80..] == t.data && y[80..] == u.data;
      Bytes8Injective(t.amount, u.amount);
      Bytes8Injective(t.nonce, u.nonce);
      Bytes8Injective(t.fee, u.fee);
      Bytes8Injective(t.gasUsed, u.gasUsed);
      Bytes8Injective(t.gasPrice, u.gasPrice);
    }
  }

  lemma PreImageSplits(sha: Sha256, s: Tree, t: Tree)
    requires s.Node? && t.Node? && PreImage(sha, s) == PreImage(sha, t)
    ensures HashOf(sha, s.left) == HashOf(sha, t.left) && HashOf(sha, s.right) == HashOf(sha, t.right)
  {
    var p, q := PreImage(sha, s), PreImage(sha, t);
    hide HashOf;
    assert p[..32] == HashOf(sha, s.left) && q[..32] == HashOf(sha, t.left);
    assert p[32..] == HashOf(sha, s.right) && q[32..] == HashOf(sha, t.right);
  }

  /** A transaction is at least 80 bytes, an inner node 64: they are never hashed from the same bytes. */
  lemma LeafIsNoNode(sha: Sha256, s: Tree, t: Tree)
    requires s.Leaf? && t.Node?
    ensures PreImage(sha, s) != PreImage(sha, t)
  {
    hide Bytes8, HashOf;
    assert |PreImage(sha, s)| >= 80 && |PreImage(sha, t)| == 64;
  }

  /** Trees of any shapes under one hash agree on all covered fields, or a collision is computed from them. */
  lemma {:induction false} HashBindsTree(sha: Sha256, s: Tree, t: Tree)
    requires HashOf(sha, s) == HashOf(sha, t)
    ensures SameTree(s, t) || Collides(sha, Apart(sha, s, t))
    decreases s
  {
    if PreImage(sha, s) == PreImage(sha, t) {
      if s.Node? && t.Node? {
        PreImageSplits(sha, s, t);
        hide PreImage, HashOf, Collides;
        HashBindsTree(sha, s.left, t.left);
        HashBindsTree(sha, s.right, t.right);
      } else if s.Leaf? && t.Leaf? {
        BytesDetermineCovered(s.tx, t.tx);
      } else if s.Leaf? {
        LeafIsNoNode(sha, s, t);
      } else {
        LeafIsNoNode(sha, t, s);
      }
    }
  }

  lemma {:induction false} SameTreeSameHash(sha: Sha256, s: Tree, t: Tree)
    requires SameTree(s, t)
    ensures HashOf(sha, s) == HashOf(sha, t)
    decreases s
  {
    match (s, t)
    case (Leaf(x), Leaf(y)) =>
      BytesDetermineCovered(x, y);
    case (Node(l, r), Node(m, n)) =>
      SameTreeSameHash(sha, l, m);
      SameTreeSameHash(sha, r, n);
  }

  /**
   Exactly what the root pins down, for lists of any lengths: with the repeated last
   elements filled in, the trees agree on all covered fields, or a collision is computed.
   */
  lemma RootBindsTree(sha: Sha256, ts: seq<Transaction>, us: seq<Transaction>)
    requires ts != [] && us != []
    ensures SameTree(TreeOf(ts), TreeOf(us)) ==> MerkleRoot(sha, ts) == MerkleRoot(sha, us)
    ensures MerkleRoot(sha, ts) == MerkleRoot(sha, us) ==>
      SameTree(TreeOf(ts), TreeOf(us)) || Collides(sha, Apart(sha, TreeOf(ts), TreeOf(us)))
  {
    RootOfTree(sha, ts);
    RootOfTree(sha, us);
    hide MerkleRoot, TreeOf, HashOf, SameTree, Collides;
    if SameTree(TreeOf(ts), TreeOf(us)) {
      SameTreeSameHash(sha, TreeOf(ts), TreeOf(us));
    }
    if MerkleRoot(sha, ts) == MerkleRoot(sha, us) {
      HashBindsTree(sha, TreeOf(ts), TreeOf(us));
    }
  }

  /** Levels of the same length grow into the same tree only if they agree everywhere. */
  lemma {:induction false} SameLevels(s: seq<Tree>, t: seq<Tree>)
    requires |s| == |t| > 0 && SameTree(Grow(s), Grow(t))
    ensures forall i :: 0 <= i < |s| ==> SameTree(s[i], t[i])
    decreases |s|
  {
    if |s| > 1 {
      SameLevels(Paired(s), Paired(t));
      forall i | 0 <= i < |s| ensures SameTree(s[i], t[i]) {
        assert SameTree(Paired(s)[i / 2], Paired(t)[i / 2]);
      }
    }
  }

  // ---------- the checks of ValidateBlock ----------

  predicate MerkleChecks(sha: Sha256, header: BlockHeader, txs: seq<Transaction>) {
    header.merkleRoot == MerkleRoot(sha, txs) && header.txCount == |txs| % TWO32
  }

  predicate SameCoveredList(ts: seq<Transaction>, us: seq<Transaction>) {
    |ts| == |us| && forall i :: 0 <= i < |ts| ==> SameCovered(ts[i], us[i])
  }

  function ListCollision(sha: Sha256, ts: seq<Transaction>, us: seq<Transaction>): (seq<byte>, seq<byte>) {
    if ts == [] || us == [] then ([], []) else Apart(sha, TreeOf(ts), TreeOf(us))
  }

  /**
   Root and count together bind the list: two lists accepted under one header agree on
   every covered field of every transaction, or two colliding inputs can be computed from them.
   */
  lemma HeaderBindsTransactions(sha: Sha256, header: BlockHeader, ts: seq<Transaction>, us: seq<Transaction>)
    requires |ts| < TWO32 && |us| < TWO32
    requires MerkleChecks(sha, header, ts) && MerkleChecks(sha, header, us)
    ensures |ts| == |us|
    ensures SameCoveredList(ts, us) || Collides(sha, ListCollision(sha, ts, us))
  {
    hide MerkleRoot, SameCovered;
    if ts != [] {
      RootBindsTree(sha, ts, us);
      if SameTree(TreeOf(ts), TreeOf(us)) {
        SameLevels(LeafTrees(ts), LeafTrees(us));
        forall i | 0 <= i < |ts| ensures SameCovered(ts[i], us[i]) {
          assert SameTree(LeafTrees(ts)[i], LeafTrees(us)[i]);
        }
      }
    }
  }

  /** And it binds nothing more: inputs, outputs, signatures and timestamps can be exchanged freely. */
  lemma CoveredFieldsDecide(sha: Sha256, header: BlockHeader, ts: seq<Transaction>, us: seq<Transaction>)
    requires SameCoveredList(ts, us)
    ensures MerkleChecks(sha, header, ts) <==> MerkleChecks(sha, header, us)
  {
    forall i | 0 <= i < |ts| ensures Leaves(sha, ts)[i] == Leaves(sha, us)[i] {
      BytesDetermineCovered(ts[i], us[i]);
    }
    assert Leaves(sha, ts) == Leaves(sha, us);
  }

  /** Pairing an odd level already repeats its last element. */
  lemma PairedOfLonger(level: seq<Tree>)
    requires |level| % 2 == 1
    ensures Paired(level + [level[|level| - 1]]) == Paired(level)
  {
    var longer := level + [level[|level| - 1]];
    forall i | 0 <= i < |Paired(level)| ensures Paired(longer)[i] == Paired(level)[i] {
      assert Twin(longer, i) == Twin(level, i);
    }
  }

  lemma LeavesOfLonger(txs: seq<Transaction>)
    requires txs != []
    ensures LeafTrees(txs + [txs[|txs| - 1]]) == LeafTrees(txs) + [LeafTrees(txs)[|txs| - 1]]
  {
  }

  /** Without the count the root does not bind: an odd list and the list with its last entry twice share it. */
  lemma RootAloneDoesNotBind(sha: Sha256, txs: seq<Transaction>)
    requires |txs| >= 3 && |txs| % 2 == 1
    ensures MerkleRoot(sha, txs + [txs[|txs| - 1]]) == MerkleRoot(sha, txs)
  {
    var longer := txs + [txs[|txs| - 1]];
    hide MerkleRoot, Paired, LeafTrees, HashOf;
    RootOfTree(sha, txs);
    RootOfTree(sha, longer);
    LeavesOfLonger(txs);
    PairedOfLonger(LeafTrees(txs));
    assert TreeOf(longer) == TreeOf(txs);
  }

  /** The root of up to three transactions, spelled out: left before right, the odd one with itself. */
  lemma SmallRoots(sha: Sha256, t: Transaction, u: Transaction, v: Transaction)
    ensures MerkleRoot(sha, []) == seq(32, _ => 0)
    ensures MerkleRoot(sha, [t]) == sha(TransactionBytes(t))
    ensures var a: seq<byte>, b: seq<byte> := sha(TransactionBytes(t)), sha(TransactionBytes(u));
      MerkleRoot(sha, [t, u]) == sha(a + b)
    ensures var a: seq<byte>, b: seq<byte>, c: seq<byte> :=
        sha(TransactionBytes(t)), sha(TransactionBytes(u)), sha(TransactionBytes(v));
      var left: seq<byte>, right: seq<byte> := sha(a + b), sha(c + c);
      MerkleRoot(sha, [t, u, v]) == sha(left + right)
  {
    RootOfTree(sha, [t]);
    RootOfTree(sha, [t, u]);
    RootOfTree(sha, [t, u, v]);
    SmallTrees(t, u, v);
    hide MerkleRoot, TransactionBytes, TreeOf;
    LeafHash(sha, t);
    LeafHash(sha, u);
    LeafHash(sha, v);
    hide HashOf;
    NodeHash(sha, Leaf(t), Leaf(u));
    NodeHash(sha, Leaf(v), Leaf(v));
    NodeHash(sha, Node(Leaf(t), Leaf(u)), Node(Leaf(v), Leaf(v)));
  }

  lemma LeafHash(sha: Sha256, t: Transaction)
    ensures HashOf(sha, Leaf(t)) == sha(TransactionBytes(t))
  {
  }

  lemma NodeHash(sha: Sha256, l: Tree, r: Tree)
    ensures var x: seq<byte>, y: seq<byte> := HashOf(sha, l), HashOf(sha, r);
      HashOf(sha, Node(l, r)) == sha(x + y)
  {
  }

  lemma SmallTrees(t: Transaction, u: Transaction, v: Transaction)
    ensures TreeOf([t]) == Leaf(t)
    ensures TreeOf([t, u]) == Node(Leaf(t), Leaf(u))
    ensures TreeOf([t, u, v]) == Node(Node(Leaf(t), Leaf(u)), Node(Leaf(v), Leaf(v)))
  {
    var x, y, z := Leaf(t), Leaf(u), Leaf(v);
    assert LeafTrees([t]) == [x] && LeafTrees([t, u]) == [x, y] && LeafTrees([t, u, v]) == [x, y, z];
    GrowTwo(x, y);
    GrowThree(x, y, z);
    hide Grow, LeafTrees;
    assert Grow([x]) == x by { GrowOne(x); }
  }

  lemma GrowOne(x: Tree)
    ensures Grow([x]) == x
  {
  }

  lemma GrowTwo(x: Tree, y: Tree)
    ensures Grow([x, y]) == Node(x, y)
  {
    assert Twin([x, y], 0) == Node(x, y);
    assert Paired([x, y]) == [Node(x, y)];
    GrowOne(Node(x, y));
    hide Paired, Twin;
  }

  lemma GrowThree(x: Tree, y: Tree, z: Tree)
    ensures Grow([x, y, z]) == Node(Node(x, y), Node(z, z))
  {
    assert Twin([x, y, z], 0) == Node(x, y) && Twin([x, y, z], 1) == Node(z, z);
    assert Paired([x, y, z]) == [Node(x, y), Node(z, z)];
    GrowTwo(Node(x, y), Node(z, z));
    hide Paired, Twin;
  }
}
