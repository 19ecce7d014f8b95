/**
 The BIP-173 checksum as crypto/bech32.go computes it: `polymod` is a shift register
 over GF(2), so it is linear, its zero step loses nothing on 30-bit states, and the
 six checksum symbols of a message are uniquely determined.
 */
module Checksum {

  /** The register. Go's `uint` is wider, but no step ever sets a bit above the 30th. */
  type Word = bv32

  const GENERATOR: seq<Word> := [0x3b6a57b2, 0x26508e6d, 0x1ea119fa, 0x3d4233dd, 0x2a1462b3]

  /** A register state holds six 5-bit symbols. */
  predicate IsState(c: Word) { c < 0x4000_0000 }

  predicate IsSymbol(v: Word) { v < 32 }

  function Xor(a: Word, b: Word): Word { a ^ b }

  predicate Bit(b: Word, i: nat) {
    match i
    case 0 => b & 1 == 1
    case 1 => (b >> 1) & 1 == 1
    case 2 => (b >> 2) & 1 == 1
    case 3 => (b >> 3) & 1 == 1
    case 4 => (b >> 4) & 1 == 1
    case _ => false
  }

  function Contribution(b: Word, i: nat): Word
    requires i < 5
  {
    if Bit(b, i) then GENERATOR[i] else 0
  }

  /** What the first n generators contribute for the five bits shifted out. */
  function Feedback(b: Word, n: nat): Word
    requires n <= 5
  {
    if n == 0 then 0 else Xor(Feedback(b, n - 1), Contribution(b, n - 1))
  }

  function Low(c: Word): Word { (c & 0x1ffffff) << 5 }

  function Top(c: Word): Word { c >> 25 }

  function Step(c: Word, v: Word): Word {
    Xor(Xor(Low(c), v), Feedback(Top(c), 5))
  }

  /** The register after all of vs, from state c. */
  function Run(c: Word, vs: seq<Word>): Word {
    if vs == [] then c else Step(Run(c, vs[..|vs| - 1]), vs[|vs| - 1])
  }

  method Polymod(values: seq<Word>) returns (chk: Word)
    ensures chk == Run(1, values)
  {
    hide Xor, Bit, Low, Top;
    chk := 1;
    for k := 0 to |values|
      invariant chk == Run(1, values[..k])
    {
      ghost var before := chk;
      var b := Top(chk);
      chk := Xor(Low(chk), values[k]);
      ghost var shifted := chk;
      XorZero(shifted);
      for i := 0 to 5
        invariant chk == Xor(shifted, Feedback(b, i))
      {
        XorAssoc(shifted, Feedback(b, i), Contribution(b, i));
        XorZero(chk);
        if Bit(b, i) {
          chk := Xor(chk, GENERATOR[i]);
        }
      }
      assert values[..k + 1][..k] == values[..k];
      assert chk == Step(before, values[k]);
    }
    assert values[..|values|] == values;
  }

  // ---------- exclusive or ----------

  lemma XorAssoc(a: Word, b: Word, c: Word)
    ensures Xor(Xor(a, b), c) == Xor(a, Xor(b, c))
  {
  }

  lemma XorZero(a: Word)
    ensures Xor(0, a) == a && Xor(a, 0) == a && Xor(a, a) == 0
  {
  }

  lemma XorCancels(a: Word, b: Word)
    ensures Xor(a, b) == 0 <==> a == b
    ensures Xor(a, b) == Xor(b, a)
  {
    XorCommutes(a, b);
    hide Xor;
    XorAssoc(a, b, b);
    XorZero(a);
    XorZero(b);
  }

  lemma XorCommutes(a: Word, b: Word)
    ensures Xor(a, b) == Xor(b, a)
  {
  }

  lemma XorShuffle(a: Word, b: Word, c: Word, d: Word)
    ensures Xor(Xor(a, b), Xor(c, d)) == Xor(Xor(a, c), Xor(b, d))
  {
    hide Xor;
    XorAssoc(a, b, Xor(c, d));
    XorAssoc(b, c, d);
    XorCancels(b, c);
    XorAssoc(c, b, d);
    XorAssoc(a, c, Xor(b, d));
  }

  // ---------- linearity ----------

  lemma BitLinear(b: Word, d: Word, i: nat)
    ensures Bit(Xor(b, d), i) == (Bit(b, i) != Bit(d, i))
  {
  }

  lemma ContributionLinear(b: Word, d: Word, i: nat)
    requires i < 5
    ensures Contribution(Xor(b, d), i) == Xor(Contribution(b, i), Contribution(d, i))
  {
    hide Xor, Bit;
    BitLinear(b, d, i);
    XorZero(GENERATOR[i]);
    XorZero(0);
  }

  lemma {:induction false} FeedbackLinear(b: Word, d: Word, n: nat)
    requires n <= 5
    ensures Feedback(Xor(b, d), n) == Xor(Feedback(b, n), Feedback(d, n))
  {
    hide Xor, Contribution;
    if n == 0 {
      XorZero(0);
    } else {
      FeedbackLinear(b, d, n - 1);
      ContributionLinear(b, d, n - 1);
      XorShuffle(Feedback(b, n - 1), Feedback(d, n - 1), Contribution(b, n - 1), Contribution(d, n - 1));
    }
  }

  lemma ShiftLinear(c: Word, d: Word)
    ensures Low(Xor(c, d)) == Xor(Low(c), Low(d))
    ensures Top(Xor(c, d)) == Xor(Top(c), Top(d))
  {
  }

  /** One step of the register is linear in the state and the symbol together. */
  lemma StepLinear(c: Word, d: Word, u: Word, v: Word)
    ensures Step(Xor(c, d), Xor(u, v)) == Xor(Step(c, u), Step(d, v))
  {
    hide Xor, Low, Top, Feedback;
    ShiftLinear(c, d);
    FeedbackLinear(Top(c), Top(d), 5);
    XorShuffle(Low(c), Low(d), u, v);
    XorShuffle(Xor(Low(c), u), Xor(Low(d), v), Feedback(Top(c), 5), Feedback(Top(d), 5));
  }

  function XorAll(us: seq<Word>, vs: seq<Word>): (ws: seq<Word>)
    requires |us| == |vs|
    ensures |ws| == |us|
  {
    seq(|us|, i requires 0 <= i < |us| => Xor(us[i], vs[i]))
  }

  /** polymod is linear over messages of equal length. */
  lemma {:induction false} RunLinear(c: Word, d: Word, us: seq<Word>, vs: seq<Word>)
    requires |us| == |vs|
    ensures Run(Xor(c, d), XorAll(us, vs)) == Xor(Run(c, us), Run(d, vs))
  {
    hide Xor, Step;
    if us != [] {
      var n := |us| - 1;
      RunLinear(c, d, us[..n], vs[..n]);
      assert XorAll(us, vs)[..n] == XorAll(us[..n], vs[..n]);
      StepLinear(Run(c, us[..n]), Run(d, vs[..n]), us[n], vs[n]);
    }
  }

  lemma {:induction false} RunConcat(c: Word, us: seq<Word>, vs: seq<Word>)
    ensures Run(c, us + vs) == Run(Run(c, us), vs)
  {
    hide Step;
    if vs == [] {
      assert us + vs == us;
    } else {
      var n := |vs| - 1;
      RunConcat(c, us, vs[..n]);
      assert (us + vs)[..|us| + n] == us + vs[..n];
    }
  }

  // ---------- the zero step ----------

  lemma FeedbackClosed(b: Word)
    ensures Feedback(b, 5) ==
      (if b & 1 == 1 then 0x3b6a57b2 else 0) ^ (if (b >> 1) & 1 == 1 then 0x26508e6d else 0)
      ^ (if (b >> 2) & 1 == 1 then 0x1ea119fa else 0) ^ (if (b >> 3) & 1 == 1 then 0x3d4233dd else 0)
      ^ (if (b >> 4) & 1 == 1 then 0x2a1462b3 else 0)
  {
    assert Feedback(b, 1) == if b & 1 == 1 then 0x3b6a57b2 else 0;
    assert Feedback(b, 2) == Feedback(b, 1) ^ (if (b >> 1) & 1 == 1 then 0x26508e6d else 0);
    assert Feedback(b, 3) == Feedback(b, 2) ^ (if (b >> 2) & 1 == 1 then 0x1ea119fa else 0);
    assert Feedback(b, 4) == Feedback(b, 3) ^ (if (b >> 3) & 1 == 1 then 0x3d4233dd else 0);
  }

  /** The zero step has trivial kernel on 30-bit states. */
  lemma StepKernel(c: Word)
    requires IsState(c) && Step(c, 0) == 0
    ensures c == 0
  {
    FeedbackClosed(Top(c));
  }

  lemma StepKeepsState(c: Word, v: Word)
    requires v < 256
    ensures IsState(Step(c, v))
  {
    FeedbackClosed(Top(c));
  }

  function Zeros(n: nat): (zs: seq<Word>)
    ensures |zs| == n
  {
    seq(n, _ => 0)
  }

  lemma {:induction false} RunZeros(c: Word, n: nat)
    requires IsState(c)
    ensures IsState(Run(c, Zeros(n)))
    ensures Run(c, Zeros(n)) == 0 <==> c == 0
  {
    if n > 0 {
      RunZeros(c, n - 1);
      assert Zeros(n)[..n - 1] == Zeros(n - 1);
      var d := Run(c, Zeros(n - 1));
      assert Run(c, Zeros(n)) == Step(d, 0);
      StepKeepsState(d, 0);
      StepOfZero();
      hide Step, IsState;
      if Step(d, 0) == 0 {
        StepKernel(d);
      }
    }
  }

  lemma StepOfZero()
    ensures Step(0, 0) == 0
  {
    FeedbackClosed(0);
  }

  lemma {:induction false} RunKeepsState(c: Word, vs: seq<Word>)
    requires IsState(c) && forall i :: 0 <= i < |vs| ==> vs[i] < 256
    ensures IsState(Run(c, vs))
  {
    if vs != [] {
      StepKeepsState(Run(c, vs[..|vs| - 1]), vs[|vs| - 1]);
    }
  }

  // ---------- six symbols fill the register ----------

  predicate Symbols(vs: seq<Word>) {
    forall i :: 0 <= i < |vs| ==> IsSymbol(vs[i])
  }

  function Join(c: Word, v: Word): Word { (c << 5) | v }

  function JoinSix(vs: seq<Word>): Word
    requires |vs| == 6
  {
    Join(Join(Join(Join(Join(vs[0], vs[1]), vs[2]), vs[3]), vs[4]), vs[5])
  }

  /** The six 5-bit symbols of a state, most significant first, as createChecksum cuts them. */
  function SplitSix(p: Word): (vs: seq<Word>)
    ensures |vs| == 6 && Symbols(vs)
  {
    [(p >> 25) & 0x1f, (p >> 20) & 0x1f, (p >> 15) & 0x1f, (p >> 10) & 0x1f, (p >> 5) & 0x1f, p & 0x1f]
  }

  lemma SplitOfJoinSix(vs: seq<Word>)
    requires |vs| == 6 && Symbols(vs)
    ensures SplitSix(JoinSix(vs)) == vs && IsState(JoinSix(vs))
  {
    var a, b, c, d, e, f := vs[0], vs[1], vs[2], vs[3], vs[4], vs[5];
    assert vs == [a, b, c, d, e, f];
  }

  lemma JoinOfSplitSix(p: Word)
    requires IsState(p)
    ensures JoinSix(SplitSix(p)) == p
  {
  }

  lemma ShortStep(c: Word, v: Word)
    requires c < 0x200_0000 && IsSymbol(v)
    ensures Step(c, v) == Join(c, v)
  {
    FeedbackClosed(0);
    hide Feedback, Xor, Low, Top, Join;
    ShortParts(c, v);
    XorZero(Xor(Low(c), v));
  }

  lemma ShortParts(c: Word, v: Word)
    requires c < 0x200_0000 && IsSymbol(v)
    ensures Top(c) == 0 && Xor(Low(c), v) == Join(c, v)
  {
  }

  lemma JoinBound(c: Word, v: Word)
    requires IsSymbol(v)
    ensures c < 32 ==> Join(c, v) < 1024
    ensures c < 1024 ==> Join(c, v) < 0x8000
    ensures c < 0x8000 ==> Join(c, v) < 0x10_0000
    ensures c < 0x10_0000 ==> Join(c, v) < 0x200_0000
  {
  }

  lemma ShortSix(a: Word, b: Word, c: Word, d: Word, e: Word, f: Word)
    requires IsSymbol(a) && IsSymbol(b) && IsSymbol(c) && IsSymbol(d) && IsSymbol(e) && IsSymbol(f)
    ensures Step(Step(Step(Step(Step(Step(0, a), b), c), d), e), f)
      == Join(Join(Join(Join(Join(a, b), c), d), e), f)
  {
    hide Step, Join;
    ShortStep(0, a);
    JoinZero(a);
    ShortStep(a, b);
    JoinBound(a, b);
    var ab := Join(a, b);
    ShortStep(ab, c);
    JoinBound(ab, c);
    var abc := Join(ab, c);
    ShortStep(abc, d);
    JoinBound(abc, d);
    var abcd := Join(abc, d);
    ShortStep(abcd, e);
    JoinBound(abcd, e);
    ShortStep(Join(abcd, e), f);
  }

  /** From the zero state, six symbols just fill the register. */
  lemma RunSix(vs: seq<Word>)
    requires |vs| == 6 && Symbols(vs)
    ensures Run(0, vs) == JoinSix(vs)
  {
    assert forall i :: 0 <= i < 6 ==> IsSymbol(vs[i]);
    RunUnroll(vs);
    hide Step, Join, Run, IsSymbol;
    ShortSix(vs[0], vs[1], vs[2], vs[3], vs[4], vs[5]);
  }

  lemma JoinZero(v: Word)
    ensures Join(0, v) == v
  {
  }

  lemma RunUnroll(vs: seq<Word>)
    requires |vs| == 6
    ensures Run(0, vs) == Step(Step(Step(Step(Step(Step(0, vs[0]), vs[1]), vs[2]), vs[3]), vs[4]), vs[5])
  {
    hide Step;
    assert vs[..5][..4] == vs[..4] && vs[..4][..3] == vs[..3] && vs[..3][..2] == vs[..2] && vs[..2][..1] == vs[..1];
    assert Run(0, vs[..1]) == Step(0, vs[0]);
    assert Run(0, vs[..2]) == Step(Run(0, vs[..1]), vs[1]);
    assert Run(0, vs[..3]) == Step(Run(0, vs[..2]), vs[2]);
    assert Run(0, vs[..4]) == Step(Run(0, vs[..3]), vs[3]);
    assert Run(0, vs[..5]) == Step(Run(0, vs[..4]), vs[4]);
  }

  // ---------- what the checksum guarantees ----------

  /** Exactly one choice of six symbols completes a message: the one createChecksum returns. */
  lemma ChecksumUnique(message: seq<Word>, six: seq<Word>)
    requires |six| == 6 && Symbols(six)
    requires forall i :: 0 <= i < |message| ==> message[i] < 256
    ensures Run(1, message + six) == 1 <==> six == SplitSix(Xor(Run(1, message + Zeros(6)), 1))
  {
    var c := Run(1, message);
    RunConcat(1, message, six);
    RunConcat(1, message, Zeros(6));
    RunKeepsState(1, message);
    RunZeros(c, 6);
    var r := Run(c, Zeros(6));
    assert XorAll(Zeros(6), six) == six by {
      forall i | 0 <= i < 6 ensures XorAll(Zeros(6), six)[i] == six[i] { XorZero(six[i]); }
    }
    RunLinear(c, 0, Zeros(6), six);
    XorZero(c);
    RunSix(six);
    assert Run(c, six) == Xor(r, JoinSix(six));
    SplitOfJoinSix(six);
    CompletesTo(r, six);
  }

  lemma CompletesTo(r: Word, six: seq<Word>)
    requires IsState(r) && |six| == 6 && Symbols(six)
    ensures Xor(r, JoinSix(six)) == 1 <==> six == SplitSix(Xor(r, 1))
  {
    hide Xor, JoinSix, SplitSix, IsState;
    SplitOfJoinSix(six);
    XorMove(r, JoinSix(six));
    JoinOfSplitSix(Xor(r, 1));
  }

  lemma XorMove(r: Word, p: Word)
    requires IsState(r)
    ensures Xor(r, p) == 1 <==> p == Xor(r, 1)
    ensures IsState(Xor(r, 1))
  {
    assert IsState(Xor(r, 1));
    hide Xor;
    XorAssoc(r, r, p);
    XorAssoc(r, r, 1);
    XorZero(r); XorZero(p); XorZero(1);
  }

  /** Two equally long messages that differ, but only inside six consecutive symbols, leave different registers. */
  lemma BurstChangesRegister(vs: seq<Word>, ws: seq<Word>, p: nat)
    requires |vs| == |ws| && p + 6 <= |vs| && vs != ws
    requires forall i :: 0 <= i < |vs| && !(p <= i < p + 6) ==> vs[i] == ws[i]
    requires forall i :: p <= i < p + 6 ==> IsSymbol(vs[i]) && IsSymbol(ws[i])
    ensures Run(1, vs) != Run(1, ws)
  {
    var six := XorAll(vs, ws)[p..p + 6];
    var m := |vs| - p - 6;
    BurstDifference(vs, ws, p);
    RunLinear(1, 1, vs, ws);
    hide Run, XorAll, JoinSix, Zeros, IsSymbol;
    XorZero(1);
    XorCancels(Run(1, vs), Run(1, ws));
    hide Xor;
    RunConcat(0, Zeros(p) + six, Zeros(m));
    RunConcat(0, Zeros(p), six);
    RunZeros(0, p);
    RunSix(six);
    RunZeros(JoinSix(six), m);
  }

  /** The difference of such messages: zeros, six symbols that are not all zero, zeros. */
  lemma BurstDifference(vs: seq<Word>, ws: seq<Word>, p: nat)
    requires |vs| == |ws| && p + 6 <= |vs| && vs != ws
    requires forall i :: 0 <= i < |vs| && !(p <= i < p + 6) ==> vs[i] == ws[i]
    requires forall i :: p <= i < p + 6 ==> IsSymbol(vs[i]) && IsSymbol(ws[i])
    ensures var six := XorAll(vs, ws)[p..p + 6];
      && XorAll(vs, ws) == Zeros(p) + six + Zeros(|vs| - p - 6)
      && Symbols(six) && IsState(JoinSix(six)) && JoinSix(six) != 0
  {
    var e := XorAll(vs, ws);
    var six := e[p..p + 6];
    BurstNonzero(vs, ws, p);
    hide Xor, JoinSix;
    forall i | 0 <= i < |e| ensures e[i] == (Zeros(p) + six + Zeros(|vs| - p - 6))[i] { XorCancels(vs[i], ws[i]); }
    forall i | 0 <= i < 6 ensures IsSymbol(six[i]) { SymbolXor(vs[p + i], ws[p + i]); }
    SplitOfJoinSix(six);
  }

  lemma SymbolXor(a: Word, b: Word)
    requires IsSymbol(a) && IsSymbol(b)
    ensures IsSymbol(Xor(a, b))
  {
  }

  lemma BurstNonzero(vs: seq<Word>, ws: seq<Word>, p: nat)
    requires |vs| == |ws| && p + 6 <= |vs| && vs != ws
    requires forall i :: 0 <= i < |vs| && !(p <= i < p + 6) ==> vs[i] == ws[i]
    requires forall i :: p <= i < p + 6 ==> IsSymbol(vs[i]) && IsSymbol(ws[i])
    ensures JoinSix(XorAll(vs, ws)[p..p + 6]) != 0
  {
    var six := XorAll(vs, ws)[p..p + 6];
    var k :| 0 <= k < |vs| && vs[k] != ws[k];
    XorCancels(vs[k], ws[k]);
    assert six[k - p] != 0;
    assert Symbols(six) by {
      forall i | 0 <= i < 6 ensures IsSymbol(six[i]) { SymbolXor(vs[p + i], ws[p + i]); }
    }
    SplitOfJoinSix(six);
    SplitZero();
    hide JoinSix, SplitSix, Xor;
  }

  lemma SplitZero()
    ensures SplitSix(0) == [0, 0, 0, 0, 0, 0]
  {
  }
}
