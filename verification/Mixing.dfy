/**
 The rounds of mining/randomx.go on 32-byte states: mixing and bit manipulation can be
 undone for every round and data, the memory round cannot.
 */
module Mixing {

  type Byte = bv8
  type Word = bv32
  type State = s: seq<Byte> | |s| == 32 witness seq(32, _ => 0)

  // ---------- cryptographicMix ----------

  function XorByte(a: Byte, b: Byte): Byte { a ^ b }

  /** `data[(round*32+i) % len(data)]`. */
  function DataAt(data: seq<Byte>, round: nat, i: nat): Byte
    requires data != []
  {
    data[(round * 32 + i) % |data|]
  }

  function XorData(h: State, data: seq<Byte>, round: nat): State {
    if |data| == 0 then h
    else seq(32, i requires 0 <= i < 32 => XorByte(h[i], DataAt(data, round, i)))
  }

  /** binary.BigEndian.Uint32 of four bytes, and its bytes again. */
  function Join(a: Byte, b: Byte, c: Byte, d: Byte): Word {
    (a as Word << 24) | (b as Word << 16) | (c as Word << 8) | (d as Word)
  }

  function Part(w: Word, k: nat): Byte {
    match k
    case 0 => (w >> 24) as Byte
    case 1 => ((w >> 16) & 0xFF) as Byte
    case 2 => ((w >> 8) & 0xFF) as Byte
    case _ => (w & 0xFF) as Byte
  }

  function WordAt(h: State, j: nat): Word
    requires j < 8
  {
    Join(h[4 * j], h[4 * j + 1], h[4 * j + 2], h[4 * j + 3])
  }

  function FromWords(ws: seq<Word>): State
    requires |ws| == 8
  {
    seq(32, i requires 0 <= i < 32 => Part(ws[i / 4], i % 4))
  }

  /** `uint32(round) << (i % 8)` for i = 4j. */
  function Key(round: nat, j: nat): Word {
    var r := (round % 0x1_0000_0000) as Word;
    if j % 2 == 0 then r else r << 4
  }

  function MixWord(w: Word, key: Word): Word {
    var x := w ^ key;
    (x << 1) | (x >> 31)
  }

  function UnmixWord(w: Word, key: Word): Word {
    ((w >> 1) | (w << 31)) ^ key
  }

  function MixWords(h: State, round: nat): State {
    FromWords(seq(8, j requires 0 <= j < 8 => MixWord(WordAt(h, j), Key(round, j))))
  }

  function UnmixWords(h: State, round: nat): State {
    FromWords(seq(8, j requires 0 <= j < 8 => UnmixWord(WordAt(h, j), Key(round, j))))
  }

  function Mixed(h: State, data: seq<Byte>, round: nat): State {
    MixWords(XorData(h, data, round), round)
  }

  function Unmixed(h: State, data: seq<Byte>, round: nat): State {
    XorData(UnmixWords(h, round), data, round)
  }

  method XorWithData(h: State, data: seq<Byte>, round: nat) returns (hash: State)
    ensures hash == XorData(h, data, round)
  {
    hide DataAt, XorByte;
    hash := h;
    if |data| > 0 {
      for i := 0 to 32
        invariant forall k: nat :: k < i ==> hash[k] == XorByte(h[k], DataAt(data, round, k))
        invariant forall k: nat :: i <= k < 32 ==> hash[k] == h[k]
      {
        hash := hash[i := XorByte(hash[i], DataAt(data, round, i))];
      }
    }
  }

  /** cryptographicMix: the data, then the eight big-endian words in place. */
  method CryptographicMix(h: State, data: seq<Byte>, round: nat) returns (hash: State)
    ensures hash == Mixed(h, data, round)
  {
    hide Join, Part, MixWord, Key, XorData, MixWords;
    hash := XorWithData(h, data, round);
    ghost var before := hash;
    for j := 0 to 8
      invariant hash == Halfway(MixWords(before, round), before, 4 * j)
    {
      var i := 4 * j;
      var word := Join(hash[i], hash[i + 1], hash[i + 2], hash[i + 3]);
      MixStep(before, round, j);
      word := MixWord(word, Key(round, j));
      hash := PutWord(hash, i, word);
    }
  }

  /** binary.BigEndian.PutUint32(hash[i:i+4], w). */
  function PutWord(h: State, i: nat, w: Word): State
    requires i <= 28
  {
    h[i := Part(w, 0)][i + 1 := Part(w, 1)][i + 2 := Part(w, 2)][i + 3 := Part(w, 3)]
  }

  /** The first n bytes from the mixed state, the rest as before. */
  function Halfway(m: State, before: State, n: nat): State
    requires n <= 32
  {
    m[..n] + before[n..]
  }

  lemma MixStep(before: State, round: nat, j: nat)
    requires j < 8
    ensures var m := MixWords(before, round);
      var hash := Halfway(m, before, 4 * j);
      && WordAt(hash, j) == WordAt(before, j)
      && PutWord(hash, 4 * j, MixWord(WordAt(before, j), Key(round, j))) == Halfway(m, before, 4 * j + 4)
  {
    MixedWordBytes(before, round, j);
    hide Part, MixWord, Key, MixWords, Join;
    PutFour(MixWords(before, round), before, 4 * j, MixWord(WordAt(before, j), Key(round, j)));
  }

  lemma PutFour(m: State, before: State, i: nat, w: Word)
    requires i <= 28
    requires m[i] == Part(w, 0) && m[i + 1] == Part(w, 1) && m[i + 2] == Part(w, 2) && m[i + 3] == Part(w, 3)
    ensures PutWord(Halfway(m, before, i), i, w) == Halfway(m, before, i + 4)
  {
    hide Part;
    var h := Halfway(m, before, i);
    forall k | 0 <= k < 32 ensures PutWord(h, i, w)[k] == Halfway(m, before, i + 4)[k] {
      PutWordAt(h, i, w, k);
    }
  }

  lemma PutWordAt(h: State, i: nat, w: Word, k: nat)
    requires i <= 28 && k < 32
    ensures PutWord(h, i, w)[k] == if i <= k < i + 4 then Part(w, k - i) else h[k]
  {
    hide Part;
  }

  lemma MixedWordBytes(h: State, round: nat, j: nat)
    requires j < 8
    ensures var w, m := MixWord(WordAt(h, j), Key(round, j)), MixWords(h, round);
      m[4 * j] == Part(w, 0) && m[4 * j + 1] == Part(w, 1) && m[4 * j + 2] == Part(w, 2) && m[4 * j + 3] == Part(w, 3)
  {
    hide Part, MixWord, WordAt, Key;
  }

  // ---------- bitManipulation ----------

  /** rotateHash: byte i moves to position (i + amount) mod 32. */
  function Rotated(h: State, amount: nat): State {
    seq(32, k requires 0 <= k < 32 => h[Source(k, amount)])
  }

  function Source(k: nat, amount: nat): (i: nat)
    requires k < 32
    ensures i < 32
  {
    var a := amount % 32;
    if k >= a then k - a else k + 32 - a
  }

  predicate FlipsAt(i: nat, round: nat) { (i + round) % 3 == 0 }

  function Flipped(h: State, round: nat): State {
    seq(32, i requires 0 <= i < 32 => if FlipsAt(i, round) then XorByte(h[i], 0xFF) else h[i])
  }

  function RotateAmount(round: nat): nat { round % 7 + 1 }

  function Manipulated(h: State, round: nat): State {
    Flipped(Rotated(h, RotateAmount(round)), round)
  }

  function Unmanipulated(h: State, round: nat): State {
    Rotated(Flipped(h, round), 32 - RotateAmount(round))
  }

  lemma SourceTarget(i: nat, amount: nat)
    requires i < 32
    ensures Source((i + amount % 32) % 32, amount) == i
    ensures forall k: nat :: k < 32 && Source(k, amount) == i ==> k == (i + amount % 32) % 32
  {
  }

  method RotateHash(h: State, amount: nat) returns (result: State)
    ensures result == Rotated(h, amount)
  {
    var a := amount % 32;
    if a == 0 {
      assert forall k: nat :: k < 32 ==> Source(k, amount) == k;
      assert Rotated(h, amount) == h;
      return h;
    }
    hide Source;
    result := seq(32, _ => 0);
    for i := 0 to 32
      invariant forall k: nat :: k < 32 && Source(k, amount) < i ==> result[k] == h[Source(k, amount)]
    {
      var newPos := (i + a) % 32;
      SourceTarget(i, amount);
      result := result[newPos := h[i]];
    }
  }

  method BitManipulation(h: State, round: nat) returns (hash: State)
    ensures hash == Manipulated(h, round)
  {
    hide XorByte, Rotated, FlipsAt;
    hash := RotateHash(h, RotateAmount(round));
    ghost var turned := hash;
    for i := 0 to 32
      invariant hash == Flipped(turned, round)[..i] + turned[i..]
    {
      if FlipsAt(i, round) {
        hash := hash[i := XorByte(hash[i], 0xFF)];
      }
    }
  }

  // ---------- inverses ----------

  lemma XorByteTwice(a: Byte, b: Byte)
    ensures XorByte(XorByte(a, b), b) == a
  {
  }

  lemma XorDataTwice(h: State, data: seq<Byte>, round: nat)
    ensures XorData(XorData(h, data, round), data, round) == h
  {
    hide XorByte;
    if |data| > 0 {
      forall i | 0 <= i < 32 ensures XorData(XorData(h, data, round), data, round)[i] == h[i] {
        XorByteTwice(h[i], DataAt(data, round, i));
      }
    }
  }

  lemma JoinParts(w: Word)
    ensures Join(Part(w, 0), Part(w, 1), Part(w, 2), Part(w, 3)) == w
  {
  }

  lemma PartsJoin(a: Byte, b: Byte, c: Byte, d: Byte)
    ensures Part(Join(a, b, c, d), 0) == a && Part(Join(a, b, c, d), 1) == b
    ensures Part(Join(a, b, c, d), 2) == c && Part(Join(a, b, c, d), 3) == d
  {
  }

  lemma WordsOfBytes(ws: seq<Word>, j: nat)
    requires |ws| == 8 && j < 8
    ensures WordAt(FromWords(ws), j) == ws[j]
  {
    hide Join, Part;
    JoinParts(ws[j]);
  }

  lemma BytesOfWords(h: State)
    ensures FromWords(seq(8, j requires 0 <= j < 8 => WordAt(h, j))) == h
  {
    hide Join, Part;
    hide WordAt;
    forall i | 0 <= i < 32 ensures Part(WordAt(h, i / 4), i % 4) == h[i] {
      PartOfWord(h, i / 4, i % 4);
    }
  }

  lemma PartOfWord(h: State, j: nat, k: nat)
    requires j < 8 && k < 4
    ensures Part(WordAt(h, j), k) == h[4 * j + k]
  {
    PartsJoin(h[4 * j], h[4 * j + 1], h[4 * j + 2], h[4 * j + 3]);
    hide Join, Part;
    assert k == 0 || k == 1 || k == 2 || k == 3;
  }

  lemma UnmixMixWord(w: Word, key: Word)
    ensures UnmixWord(MixWord(w, key), key) == w
    ensures MixWord(UnmixWord(w, key), key) == w
  {
  }

  lemma UnmixMixWords(h: State, round: nat)
    ensures UnmixWords(MixWords(h, round), round) == h
    ensures MixWords(UnmixWords(h, round), round) == h
  {
    hide MixWord, UnmixWord, Key, WordAt, FromWords;
    var mixed := seq(8, j requires 0 <= j < 8 => MixWord(WordAt(h, j), Key(round, j)));
    var unmixed := seq(8, j requires 0 <= j < 8 => UnmixWord(WordAt(h, j), Key(round, j)));
    var plain := seq(8, j requires 0 <= j < 8 => WordAt(h, j));
    var back := seq(8, j requires 0 <= j < 8 => UnmixWord(WordAt(MixWords(h, round), j), Key(round, j)));
    var forth := seq(8, j requires 0 <= j < 8 => MixWord(WordAt(UnmixWords(h, round), j), Key(round, j)));
    forall j | 0 <= j < 8 ensures back[j] == plain[j] && forth[j] == plain[j] {
      WordsOfBytes(mixed, j);
      WordsOfBytes(unmixed, j);
      UnmixMixWord(WordAt(h, j), Key(round, j));
    }
    assert back == plain && forth == plain;
    BytesOfWords(h);
  }

  lemma RotateBack(h: State, a: nat)
    requires 0 < a < 32
    ensures Rotated(Rotated(h, a), 32 - a) == h
    ensures Rotated(Rotated(h, 32 - a), a) == h
  {
    hide Source;
    forall k | 0 <= k < 32
      ensures Rotated(Rotated(h, a), 32 - a)[k] == h[k] && Rotated(Rotated(h, 32 - a), a)[k] == h[k]
    {
      SourceBack(k, a);
    }
  }

  lemma SourceBack(k: nat, a: nat)
    requires k < 32 && 0 < a < 32
    ensures Source(Source(k, 32 - a), a) == k && Source(Source(k, a), 32 - a) == k
  {
  }

  lemma FlipTwice(h: State, round: nat)
    ensures Flipped(Flipped(h, round), round) == h
  {
    hide XorByte;
    forall i | 0 <= i < 32 ensures Flipped(Flipped(h, round), round)[i] == h[i] {
      XorByteTwice(h[i], 0xFF);
    }
  }

  /** One mixing and manipulation step, and the step that undoes it. */
  function Scrambled(h: State, data: seq<Byte>, round: nat): State {
    Manipulated(Mixed(h, data, round), round)
  }

  function Unscrambled(h: State, data: seq<Byte>, round: nat): State {
    Unmixed(Unmanipulated(h, round), data, round)
  }

  /** For every round and data the step is a bijection on 32-byte states, with this inverse. */
  lemma ScrambleBijective(h: State, data: seq<Byte>, round: nat)
    ensures Unscrambled(Scrambled(h, data, round), data, round) == h
    ensures Scrambled(Unscrambled(h, data, round), data, round) == h
  {
    hide Rotated, Flipped, MixWords, UnmixWords, XorData;
    var a := RotateAmount(round);
    var mixed := Mixed(h, data, round);
    FlipTwice(Rotated(mixed, a), round);
    RotateBack(mixed, a);
    UnmixMixWords(XorData(h, data, round), round);
    XorDataTwice(h, data, round);
    var turned := Unmanipulated(h, round);
    XorDataTwice(UnmixWords(turned, round), data, round);
    UnmixMixWords(turned, round);
    RotateBack(Flipped(h, round), a);
    FlipTwice(h, round);
  }

  // ---------- memoryHardRound ----------

  /** One byte: xor with round + i, then with the low byte of its sum with the round. */
  function MemoryByte(x: Byte, round: nat, i: nat): Byte {
    Churned(XorByte(x, LowByte(round + i)), LowByte(round))
  }

  function Churned(y: Byte, r: Byte): Byte { y ^ (y + r) }

  /** `byte(x)`. */
  function LowByte(x: nat): Byte { (x % 256) as Byte }

  predicate Odd(x: Byte) { x & 1 == 1 }

  function Touched(round: nat, i: nat): (offset: nat)
    ensures offset < 32
  {
    (round * 8 + i) % 32
  }

  function MemoryRound(h: State, round: nat, n: nat): State
    requires n <= 8
  {
    if n == 0 then h
    else
      var before := MemoryRound(h, round, n - 1);
      before[Touched(round, n - 1) := MemoryByte(before[Touched(round, n - 1)], round, n - 1)]
  }

  method MemoryHardRound(h: State, round: nat) returns (hash: State)
    ensures hash == MemoryRound(h, round, 8)
  {
    hide MemoryByte;
    hash := h;
    for i := 0 to 8
      invariant hash == MemoryRound(h, round, i)
    {
      var offset := (round * 8 + i) % 32;
      hash := hash[offset := MemoryByte(hash[offset], round, i)];
    }
  }

  lemma MemoryByteForgets(x: Byte, round: nat, i: nat)
    ensures Odd(MemoryByte(x, round, i)) == Odd(LowByte(round))
    ensures round == 0 ==> MemoryByte(x, round, i) == 0
  {
    XorSumParity(XorByte(x, LowByte(round + i)), LowByte(round));
    hide LowByte, XorByte, Churned, Odd;
    assert round == 0 ==> LowByte(round) == 0 by { LowByteZero(); }
  }

  lemma LowByteZero()
    ensures LowByte(0) == 0
  {
  }

  lemma XorSumParity(y: Byte, r: Byte)
    ensures Odd(Churned(y, r)) == Odd(r)
    ensures r == 0 ==> Churned(y, r) == 0
  {
  }

  lemma TouchedDistinct(round: nat, k: nat, n: nat)
    requires k < n < 8
    ensures Touched(round, k) != Touched(round, n)
  {
    TouchedForm(round, k);
    TouchedForm(round, n);
    hide Touched;
  }

  lemma TouchedInRoundZero(k: nat)
    requires k < 8
    ensures Touched(0, k) == k
  {
  }

  lemma TouchedForm(round: nat, i: nat)
    requires i < 8
    ensures Touched(round, i) == round % 4 * 8 + i
  {
    assert round * 8 + i == 32 * (round / 4) + (round % 4 * 8 + i);
  }

  /** After n bytes of a round, all of them carry the parity of the round; in round 0 they are zero. */
  lemma {:induction false} MemoryRoundForgets(h: State, round: nat, n: nat, k: nat)
    requires k < n <= 8
    ensures Odd(MemoryRound(h, round, n)[Touched(round, k)]) == Odd(LowByte(round))
    ensures round == 0 ==> MemoryRound(h, round, n)[k] == 0
  {
    hide MemoryByte, Odd, LowByte, Touched;
    TouchedInRoundZero(k);
    if k == n - 1 {
      MemoryByteForgets(MemoryRound(h, round, n - 1)[Touched(round, k)], round, k);
    } else {
      MemoryRoundForgets(h, round, n - 1, k);
      TouchedDistinct(round, k, n - 1);
    }
  }

  function FlipTop(h: State, i: nat): State
    requires i < 32
  {
    h[i := XorByte(h[i], 0x80)]
  }

  lemma TopBitCancels(y: Byte, r: Byte)
    ensures Churned(XorByte(y, 0x80), r) == Churned(y, r)
  {
  }

  lemma XorSwap(x: Byte, c: Byte)
    ensures XorByte(XorByte(x, 0x80), c) == XorByte(XorByte(x, c), 0x80)
  {
  }

  /** The top bit of a byte is lost: it meets itself again in the sum. */
  lemma MemoryByteTopBit(x: Byte, round: nat, i: nat)
    ensures MemoryByte(XorByte(x, 0x80), round, i) == MemoryByte(x, round, i)
  {
    var c, r := LowByte(round + i), LowByte(round);
    hide LowByte, XorByte, Churned;
    XorSwap(x, c);
    TopBitCancels(XorByte(x, c), r);
  }

  lemma {:induction false} MemoryRoundTopBit(h: State, round: nat, n: nat, k: nat)
    requires k < 8 && n <= 8
    ensures var offset := Touched(round, k);
      MemoryRound(FlipTop(h, offset), round, n)
      == if k < n then MemoryRound(h, round, n) else FlipTop(MemoryRound(h, round, n), offset)
  {
    hide MemoryByte, Touched, XorByte;
    if n > 0 {
      MemoryRoundTopBit(h, round, n - 1, k);
      var before := MemoryRound(h, round, n - 1);
      if k == n - 1 {
        MemoryByteTopBit(before[Touched(round, k)], round, k);
      } else if k > n - 1 {
        TouchedDistinct(round, n - 1, k);
      }
    }
  }

  lemma TopBitDiffers(x: Byte)
    ensures XorByte(x, 0x80) != x
  {
  }

  /** In no round can the step be undone: each of eight bytes can have its top bit flipped unnoticed. */
  lemma MemoryRoundNotInjective(h: State, round: nat, k: nat)
    requires k < 8
    ensures var g := FlipTop(h, Touched(round, k));
      g != h && MemoryRound(g, round, 8) == MemoryRound(h, round, 8)
  {
    hide Touched, MemoryRound, XorByte;
    MemoryRoundTopBit(h, round, 8, k);
    TopBitDiffers(h[Touched(round, k)]);
  }

  // ---------- what goes in where ----------

  /** Byte i of the state moves by the round mod 7 plus 1 and is flipped at every third place. */
  lemma ManipulatedByte(h: State, round: nat, i: nat)
    requires i < 32
    ensures var k := (i + (round % 7 + 1)) % 32;
      Manipulated(h, round)[k] == if (k + round) % 3 == 0 then XorByte(h[i], 0xFF) else h[i]
  {
    var amount := RotateAmount(round);
    SourceTarget(i, amount);
    SmallAmount(round);
    var turned := Rotated(h, amount);
    hide Source, RotateAmount;
    assert turned[(i + amount) % 32] == h[i];
    hide XorByte, Rotated;
  }

  lemma SmallAmount(round: nat)
    ensures RotateAmount(round) == round % 7 + 1 && RotateAmount(round) % 32 == round % 7 + 1
  {
  }

  /** The data read round and round. */
  function Cyclic(data: seq<Byte>, at: nat): Byte
    requires data != []
  {
    data[at % |data|]
  }

  /** Mixing sees exactly the 32 data bytes from position round * 32 on. */
  lemma DataSeen(h: State, data: seq<Byte>, other: seq<Byte>, round: nat)
    requires data != [] && other != []
    ensures Mixed(h, data, round) == Mixed(h, other, round)
      <==> forall at: nat :: round * 32 <= at < round * 32 + 32 ==> Cyclic(data, at) == Cyclic(other, at)
  {
    var x, y := XorData(h, data, round), XorData(h, other, round);
    UnmixMixWords(x, round);
    UnmixMixWords(y, round);
    forall i: nat | i < 32
      ensures x[i] == y[i] <==> Cyclic(data, round * 32 + i) == Cyclic(other, round * 32 + i)
    {
      XorByteInjective(h[i], DataAt(data, round, i), DataAt(other, round, i));
    }
    hide MixWords, UnmixWords, XorData, Cyclic;
    if forall at: nat :: round * 32 <= at < round * 32 + 32 ==> Cyclic(data, at) == Cyclic(other, at) {
      assert x == y;
    }
    if x == y {
      forall at: nat | round * 32 <= at < round * 32 + 32 ensures Cyclic(data, at) == Cyclic(other, at) {
        assert x[at - round * 32] == y[at - round * 32];
      }
    }
  }

  lemma XorByteInjective(a: Byte, b: Byte, c: Byte)
    ensures XorByte(a, b) == XorByte(a, c) <==> b == c
  {
  }

  /** A worked example: data 1, 2, 3 in round 1 on the zero state. */
  lemma MixingExample()
    ensures var zero: State := seq(32, _ => 0);
      Mixed(zero, [1, 2, 3], 1)[..8] == [0x06, 0x02, 0x04, 0x04, 0x02, 0x04, 0x06, 0x22]
  {
    var zero: State := seq(32, _ => 0);
    var data: seq<Byte> := [1, 2, 3];
    var x := XorData(zero, data, 1);
    ExampleData(zero, data);
    MixedWordBytes(x, 1, 0);
    MixedWordBytes(x, 1, 1);
    ExampleWords();
    hide Join, Part, MixWord, Key, XorData, MixWords;
  }

  lemma ExampleData(zero: State, data: seq<Byte>)
    requires data == [1, 2, 3] && forall i: nat :: i < 8 ==> zero[i] == 0
    ensures var x := XorData(zero, data, 1);
      && x[0] == 3 && x[1] == 1 && x[2] == 2 && x[3] == 3 && x[4] == 1 && x[5] == 2 && x[6] == 3 && x[7] == 1
  {
    assert XorByte(0, 1) == 1 && XorByte(0, 2) == 2 && XorByte(0, 3) == 3;
    hide XorByte;
  }

  lemma ExampleWords()
    ensures var w := MixWord(Join(3, 1, 2, 3), Key(1, 0));
      Part(w, 0) == 0x06 && Part(w, 1) == 0x02 && Part(w, 2) == 0x04 && Part(w, 3) == 0x04
    ensures var w := MixWord(Join(1, 2, 3, 1), Key(1, 1));
      Part(w, 0) == 0x02 && Part(w, 1) == 0x04 && Part(w, 2) == 0x06 && Part(w, 3) == 0x22
  {
    ExampleJoin();
    ExampleMix();
    hide Key, Join, MixWord;
  }

  lemma ExampleJoin()
    ensures Join(3, 1, 2, 3) == 0x03010203 && Join(1, 2, 3, 1) == 0x01020301
  {
  }

  lemma ExampleMix()
    ensures Key(1, 0) == 1 && MixWord(0x03010203, 1) == 0x06020404
    ensures Key(1, 1) == 16 && MixWord(0x01020301, 16) == 0x02040622
  {
    ExampleKeys();
    hide Key;
    ExampleMixFirst();
    ExampleMixSecond();
    hide MixWord;
  }

  lemma ExampleKeys()
    ensures Key(1, 0) == 1 && Key(1, 1) == 16
  {
    assert (1 % 0x1_0000_0000) as Word == 1;
  }

  lemma ExampleMixFirst()
    ensures MixWord(0x03010203, 1) == 0x06020404
  {
    var w: Word, key: Word := 0x03010203, 1;
    assert w ^ key == 0x03010202;
  }

  lemma ExampleMixSecond()
    ensures MixWord(0x01020301, 16) == 0x02040622
  {
    var w: Word, key: Word := 0x01020301, 16;
    assert w ^ key == 0x01020311;
  }

  /** And one for the memory round: round 1 rewrites bytes 8 to 15, here of the zero state. */
  lemma MemoryExample(zero: State, round: nat)
    requires round == 1 && forall i: nat :: i < 32 ==> zero[i] == 0
    ensures var after := MemoryRound(zero, round, 8);
      after[7] == 0 && after[8] == 3 && after[9] == 1 && after[10] == 7 && after[11] == 1 && after[16] == 0
  {
    LowBytes();
    hide LowByte;
    ExampleByte(round, 0, 1, 3);
    ExampleByte(round, 1, 2, 1);
    ExampleByte(round, 2, 3, 7);
    ExampleByte(round, 3, 4, 1);
    hide MemoryByte, MemoryRound, Churned;
    MemoryRoundAt(zero, round, 8, 7);
    MemoryRoundAt(zero, round, 8, 8);
    MemoryRoundAt(zero, round, 8, 9);
    MemoryRoundAt(zero, round, 8, 10);
    MemoryRoundAt(zero, round, 8, 11);
    MemoryRoundAt(zero, round, 8, 16);
  }

  lemma LowBytes()
    ensures LowByte(1) == 1 && LowByte(2) == 2 && LowByte(3) == 3 && LowByte(4) == 4
  {
  }

  lemma ExampleByte(round: nat, i: nat, y: Byte, r: Byte)
    requires LowByte(round) == 1 && LowByte(round + i) == y && y ^ (y + 1) == r
    ensures MemoryByte(0, round, i) == r
  {
    ZeroXor(y);
    hide LowByte, XorByte;
  }

  lemma ZeroXor(y: Byte)
    ensures XorByte(0, y) == y
  {
  }

  /** Where a memory round writes: byte i of its eight at (round * 8 + i) mod 32, once. */
  lemma {:induction false} MemoryRoundAt(h: State, round: nat, n: nat, k: nat)
    requires n <= 8 && k < 32
    ensures MemoryRound(h, round, n)[k] ==
      if round % 4 * 8 <= k < round % 4 * 8 + n then MemoryByte(h[k], round, k - round % 4 * 8) else h[k]
  {
    hide MemoryByte;
    if n > 0 {
      TouchedForm(round, n - 1);
      hide Touched;
      MemoryRoundAt(h, round, n - 1, k);
    }
  }
}
