/**
 Proof of work as arithmetic: the byte-wise target of core/consensus.go, the 64-bit test
 of core/blockchain.go and the miner's search loop, all as inequalities on 256-bit numbers.
 */
module ProofOfWork {
  import opened Digits
  import opened Prelude
  import opened Types

  /** A hash read as a 256-bit number. */
  function Number(h: Hash): nat { Value(h, 8) }

  /** Leading zero bits a difficulty asks for: min(max(d, 1) - 1, 256). */
  function ZeroBits(d: nat): (z: nat)
    ensures z <= 256
  {
    if d <= 1 then 0 else if d - 1 >= 256 then 256 else d - 1
  }

  // ---------- CalculateTarget ----------

  /** The partial byte `0xFF >> r`. */
  function Partial(r: nat): (b: byte)
    requires r < 8
  {
    match r
    case 0 => 0xFF case 1 => 0x7F case 2 => 0x3F case 3 => 0x1F
    case 4 => 0x0F case 5 => 0x07 case 6 => 0x03 case _ => 0x01
  }

  /** The 32 target bytes for z leading zero bits. */
  function TargetBytes(z: nat): (t: seq<byte>)
    requires z <= 256
    ensures |t| == 32
  {
    seq(32, i requires 0 <= i < 32 => if i < z / 8 then 0 else if i == z / 8 then Partial(z % 8) else 0xFF)
  }

  method CalculateTarget(difficulty: u64) returns (target: array<byte>)
    ensures fresh(target) && target[..] == TargetBytes(ZeroBits(difficulty))
  {
    target := new byte[32](_ => 0);
    if difficulty == 0 || difficulty == 1 {
      for i := 0 to 32
        invariant forall k :: 0 <= k < i ==> target[k] == 0xFF
      {
        target[i] := 0xFF;
      }
      return;
    }
    var leadingZeroBits := difficulty - 1;
    var leadingZeroBytes := leadingZeroBits / 8;
    var remainingBits := leadingZeroBits % 8;
    var i := leadingZeroBytes;
    while i < 32
      invariant leadingZeroBytes <= i && (leadingZeroBytes < 32 ==> i <= 32)
      invariant forall k :: 0 <= k < 32 && k < leadingZeroBytes ==> target[k] == 0
      invariant forall k :: leadingZeroBytes <= k < i && k < 32 ==> target[k] == 0xFF
    {
      target[i] := 0xFF;
      i := i + 1;
    }
    if remainingBits > 0 && leadingZeroBytes < 32 {
      target[leadingZeroBytes] := Partial(remainingBits);
    }
  }

  lemma PartialValue(r: nat)
    requires r < 8
    ensures Partial(r) == Pow2(8 - r) - 1
  {
    Pow2Small();
    assert Pow2(2) == 4 && Pow2(6) == 64 && Pow2(7) == 128;
  }

  lemma {:induction false} ZeroBytesValue(n: nat)
    ensures Value(seq(n, _ => 0), 8) == 0
  {
    if n > 0 {
      ZeroBytesValue(n - 1);
      assert seq(n, _ => 0 as nat)[..n - 1] == seq(n - 1, _ => 0);
    }
  }

  lemma {:induction false} FullBytesValue(n: nat)
    ensures Value(seq(n, _ => 0xFF), 8) == Pow2(8 * n) - 1
  {
    if n > 0 {
      FullBytesValue(n - 1);
      assert seq(n, _ => 0xFF as nat)[..n - 1] == seq(n - 1, _ => 0xFF);
      Pow2Add(8 * (n - 1), 8);
      Pow2Small();
    }
  }

  lemma TargetParts(z: nat)
    requires z < 256
    ensures TargetBytes(z) == seq(z / 8, _ => 0) + [Partial(z % 8)] + seq(31 - z / 8, _ => 0xFF)
  {
    hide Partial;
  }

  /** The target bytes spell the largest number with z leading zero bits out of 256. */
  lemma TargetValue(z: nat)
    requires z <= 256
    ensures Value(TargetBytes(z), 8) == Pow2(256 - z) - 1
  {
    var q, r := z / 8, z % 8;
    if q == 32 {
      assert TargetBytes(z) == seq(32, _ => 0);
      ZeroBytesValue(32);
    } else {
      TargetParts(z);
      PartsValue(q, r);
      assert 256 - z == 8 - r + 8 * (31 - q);
      hide Value, Pow2, TargetBytes, Partial;
    }
  }

  /** Zero bytes, a partial byte, full bytes. */
  lemma PartsValue(q: nat, r: nat)
    requires q < 32 && r < 8
    ensures Value(seq(q, _ => 0) + [Partial(r)] + seq(31 - q, _ => 0xFF), 8) == Pow2(8 - r + 8 * (31 - q)) - 1
  {
    hide Value, Pow2, Partial;
    var zeros: seq<nat> := seq(q, _ => 0);
    var full: seq<nat> := seq(31 - q, _ => 0xFF);
    ValueConcat(zeros + [Partial(r)], full, 8);
    ValueSnoc(zeros, Partial(r), 8);
    ZeroBytesValue(q);
    FullBytesValue(31 - q);
    PartialValue(r);
    Pow2Add(8 - r, 8 * (31 - q));
    MulSplit(Pow2(8 - r) - 1, 1, Pow2(8 * (31 - q)));
  }

  // ---------- IsValidHash ----------

  /** Byte-wise comparison decides the order of the numbers. */
  lemma FirstDifference(xs: seq<byte>, ys: seq<byte>, i: nat)
    requires |xs| == |ys| && i < |xs| && xs[..i] == ys[..i] && xs[i] < ys[i]
    ensures Value(xs, 8) < Value(ys, 8)
  {
    hide Value, Pow2;
    var n := |xs| - i - 1;
    assert xs == xs[..i] + [xs[i]] + xs[i + 1..] && ys == ys[..i] + [ys[i]] + ys[i + 1..];
    ValueConcat(xs[..i] + [xs[i]], xs[i + 1..], 8);
    ValueConcat(ys[..i] + [ys[i]], ys[i + 1..], 8);
    ValueSnoc(xs[..i], xs[i], 8);
    ValueSnoc(ys[..i], ys[i], 8);
    Pow2Small();
    ValueBound(xs[i + 1..], 8);
    var a, b := Value(xs[..i], 8) * 256 + xs[i], Value(ys[..i], 8) * 256 + ys[i];
    MulMonotone(a + 1, b, Pow2(8 * n));
    MulSplit(a, 1, Pow2(8 * n));
  }

  /** The comparison loop of IsValidHash (and of the RandomX miner's isValidHash): at most the target. */
  method IsValidHash(hash: Hash, target: seq<byte>) returns (ok: bool)
    requires |target| == 32
    ensures ok == (Number(hash) <= Value(target, 8))
  {
    var allFF := true;
    for i := 0 to 32
      invariant forall k :: 0 <= k < i ==> target[k] == 0xFF
    {
      if target[i] != 0xFF {
        allFF := false;
        break;
      }
    }
    if allFF {
      AllFull(hash, target);
      return true;
    }
    for i := 0 to 32
      invariant hash[..i] == target[..i]
    {
      if hash[i] < target[i] {
        FirstDifference(hash, target, i);
        return true;
      } else if hash[i] > target[i] {
        FirstDifference(target, hash, i);
        return false;
      }
    }
    assert hash == target by { assert hash[..32] == hash && target[..32] == target; }
    ok := true;
  }

  lemma AllFull(hash: Hash, target: seq<byte>)
    requires |target| == 32 && forall k :: 0 <= k < 32 ==> target[k] == 0xFF
    ensures Number(hash) <= Value(target, 8)
  {
    assert target == seq(32, _ => 0xFF);
    FullBytesValue(32);
    Pow2Small();
    ValueBound(hash, 8);
  }

  /** The 256-bit test: below 2^(256 - z). */
  predicate Meets(h: Hash, d: nat) {
    Number(h) < Pow2(256 - ZeroBits(d))
  }

  /** CalculateTarget and IsValidHash together decide exactly that inequality. */
  method MeetsTarget(h: Hash, d: u64) returns (ok: bool)
    ensures ok == Meets(h, d)
  {
    var target := CalculateTarget(d);
    TargetValue(ZeroBits(d));
    ok := IsValidHash(h, target[..]);
  }

  /** Raising the difficulty only rules hashes out. */
  lemma MeetsAntitone(h: Hash, d: nat, e: nat)
    requires d <= e && Meets(h, e)
    ensures Meets(h, d)
  {
    Pow2Monotone(256 - ZeroBits(e), 256 - ZeroBits(d));
  }

  // ---------- the 64-bit test ----------

  /** `uint64(1) << (64 - d)`: the subtraction wraps, and a shift by 64 or more leaves 0. */
  function Target64(d: u64): u64 {
    var shift := Wrap64(64 - d);
    Pow2Small();
    if shift < 64 then Shifted(shift) else 0
  }

  function Shifted(n: nat): u64
    requires n < 64
  {
    Pow2Small();
    Pow2Monotone(n, 63);
    assert 2 * Pow2(63) == Pow2(64);
    Pow2(n)
  }

  /** `binary.BigEndian.Uint64(hash[:8])`. */
  function Top64(h: Hash): nat { Value(h[..8], 8) }

  predicate PassesV2(d: u64, h: Hash) {
    d <= 20 || Top64(h) < Target64(d)
  }

  method ValidateProofOfWorkV2(block: Block) returns (ok: bool)
    ensures ok == PassesV2(block.header.difficulty, block.hash)
  {
    if block.header.difficulty <= 20 {
      return true;
    }
    var target := Target64(block.header.difficulty);
    ok := Top64(block.hash) < target;
  }

  lemma TopBits(h: Hash, n: nat)
    requires n <= 64
    ensures Top64(h) < Pow2(n) <==> Number(h) < Pow2(192 + n)
  {
    hide Value, Pow2;
    assert h == h[..8] + h[8..];
    ValueConcat(h[..8], h[8..], 8);
    Pow2Small();
    ValueBound(h[8..], 8);
    Pow2Add(n, 192);
    var a, p, q := Top64(h), Pow2(n), Pow2(192);
    if a < p {
      MulMonotone(a + 1, p, q);
      MulSplit(a, 1, q);
    } else {
      MulMonotone(p, a, q);
    }
  }

  /** The 64-bit test asks for d leading zero bits, and nothing passes beyond 64. */
  lemma Target64Meaning(d: u64, h: Hash)
    ensures Top64(h) < Target64(d) <==> 1 <= d <= 64 && Number(h) < Pow2(256 - d)
  {
    Target64Value(d);
    hide Target64, Top64, Number, Pow2;
    if 1 <= d <= 64 {
      TopBits(h, 64 - d);
      assert 192 + (64 - d) == 256 - d;
    }
  }

  lemma Target64Value(d: u64)
    ensures Target64(d) == if 1 <= d <= 64 then Pow2(64 - d) else 0
  {
    hide Pow2;
  }

  /** Above difficulty 20 the 64-bit test is the 256-bit test one difficulty higher, up to 64. */
  lemma V2IsOneBitStricter(d: u64, h: Hash)
    requires d > 20
    ensures PassesV2(d, h) <==> d <= 64 && Meets(h, d + 1)
    ensures PassesV2(d, h) ==> Meets(h, d)
  {
    Target64Meaning(d, h);
    if PassesV2(d, h) {
      MeetsAntitone(h, d, d + 1);
    }
  }

  /** The consensus manager's ValidateProofOfWork recomputes the hash from the header. */
  predicate PassesV1(sha: Sha256, b: Block) {
    b.header.difficulty <= 20 || Meets(BlockHash(sha, b.header), b.header.difficulty)
  }

  // ---------- the miner's loop ----------

  function Candidate(b: Block, sha: Sha256, nonce: u64): Block {
    var header := b.header.(nonce := nonce);
    Block(header, b.txs, BlockHash(sha, header))
  }

  predicate Hit(sha: Sha256, template: Block, n: nat) {
    Top64(Candidate(template, sha, n % TWO64).hash) < Target64(template.header.difficulty)
  }

  predicate FirstHit(sha: Sha256, template: Block, n: nat) {
    Hit(sha, template, n) && forall k: nat :: k < n ==> !Hit(sha, template, k)
  }

  /**
   The search loop of the miner's mineBlock; the stop signal is seen at the latest before
   attempt `attempts`. A block it reports carries the hash of its own header and is the
   first nonce to meet the 64-bit target.
   */
  method MineBlock(sha: Sha256, template: Block, attempts: nat) returns (found: Option<Block>)
    ensures found.Some? ==> exists n: nat ::
      n < attempts && found.value == Candidate(template, sha, n % TWO64) && FirstHit(sha, template, n)
    ensures found.Some? ==> found.value.hash == sha(HeaderBytes(found.value.header))
    ensures found.None? ==> forall n: nat :: n < attempts ==> !Hit(sha, template, n)
  {
    hide Top64, Target64, HeaderBytes;
    var block := template;
    var nonce: u64 := 0;
    var target := Target64(template.header.difficulty);
    for tried := 0 to attempts
      invariant nonce == tried % TWO64
      invariant block.txs == template.txs && block.header == template.header.(nonce := block.header.nonce)
      invariant forall k: nat :: k < tried ==> !Hit(sha, template, k)
    {
      block := block.(header := block.header.(nonce := nonce));
      block := block.(hash := BlockHash(sha, block.header));
      assert block == Candidate(template, sha, tried % TWO64);
      if Top64(block.hash) < target {
        assert FirstHit(sha, template, tried);
        return Some(block);
      }
      nonce := Wrap64(nonce as int + 1);
    }
    found := None;
  }

  /** So every reported block passes both validators, and on the same hash. */
  lemma MinedBlockPasses(sha: Sha256, template: Block, n: nat)
    requires Hit(sha, template, n)
    ensures var b := Candidate(template, sha, n % TWO64);
      PassesV2(b.header.difficulty, b.hash) && PassesV1(sha, b)
  {
    var b := Candidate(template, sha, n % TWO64);
    if b.header.difficulty > 20 {
      V2IsOneBitStricter(b.header.difficulty, b.hash);
    }
  }

  /** At difficulty 0, and beyond 64, the target is 0 and the loop reports nothing. */
  lemma UnminableIff(d: u64)
    ensures (forall h: Hash :: Top64(h) >= Target64(d)) <==> d == 0 || d > 64
  {
    if 1 <= d <= 64 {
      ZeroBytesValue(8);
      assert ZeroHash()[..8] == seq(8, _ => 0);
      assert Top64(ZeroHash()) == 0 < Target64(d);
    }
  }

  /** What the node checks, as one inequality on the 256-bit number. */
  lemma PassesV2Iff(d: u64, h: Hash)
    ensures PassesV2(d, h) <==> d <= 20 || (d <= 64 && Number(h) < Pow2(256 - d))
  {
    Target64Meaning(d, h);
    hide Target64, Top64, Number, Pow2;
  }

  /** And what the consensus manager checks, on the hash it computes itself. */
  lemma PassesV1Iff(sha: Sha256, b: Block)
    ensures var d := b.header.difficulty;
      PassesV1(sha, b) <==>
      d <= 20 || Number(sha(HeaderBytes(b.header))) < Pow2(if d > 256 then 0 else 257 - d)
  {
    hide Number, Pow2, HeaderBytes;
  }
}
