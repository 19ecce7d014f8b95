/**
 Known answers: the smallest test vector of BIP-173 and the one that uses every character
 of the charset. They pin the constants, the expansion of the prefix and its order.
 */
module Bip173 {
  import opened Digits
  import opened Prelude
  import opened Regroup
  import opened Utf8
  import opened Bech32
  import opened Bech32Prefix
  import C = Checksum

  function Bytes(text: string): (s: GoString)
    requires forall i :: 0 <= i < |text| ==> text[i] < 128 as char
    ensures |s| == |text|
  {
    seq(|text|, i requires 0 <= i < |text| => text[i] as int)
  }

  lemma {:induction false} AsciiRunes(s: GoString)
    requires Ascii(s)
    ensures Runes(s) == s
  {
    if s != [] {
      AsciiRunes(s[1..]);
    }
  }

  // ---------- the register, evaluated ----------

  /** The feedback of the five bits shifted out, in closed form. */
  function Closed(b: C.Word): C.Word {
    (if b & 1 == 1 then 0x3b6a57b2 else 0) ^ (if (b >> 1) & 1 == 1 then 0x26508e6d else 0)
    ^ (if (b >> 2) & 1 == 1 then 0x1ea119fa else 0) ^ (if (b >> 3) & 1 == 1 then 0x3d4233dd else 0)
    ^ (if (b >> 4) & 1 == 1 then 0x2a1462b3 else 0)
  }

  /** The same of a whole state. */
  function Fed(c: C.Word): C.Word {
    (if (c >> 25) & 1 == 1 then 0x3b6a57b2 else 0) ^ (if (c >> 26) & 1 == 1 then 0x26508e6d else 0)
    ^ (if (c >> 27) & 1 == 1 then 0x1ea119fa else 0) ^ (if (c >> 28) & 1 == 1 then 0x3d4233dd else 0)
    ^ (if (c >> 29) & 1 == 1 then 0x2a1462b3 else 0)
  }

  /** One step in closed form. */
  function Next(c: C.Word, v: C.Word): C.Word {
    C.Xor(C.Xor(C.Low(c), v), Fed(c))
  }

  lemma ClosedTop(c: C.Word)
    ensures Closed(C.Top(c)) == Fed(c)
  {
    TopBits(c);
    hide C.Top;
  }

  lemma TopBits(c: C.Word)
    ensures var b := C.Top(c);
      b & 1 == (c >> 25) & 1 && (b >> 1) & 1 == (c >> 26) & 1 && (b >> 2) & 1 == (c >> 27) & 1
      && (b >> 3) & 1 == (c >> 28) & 1 && (b >> 4) & 1 == (c >> 29) & 1
  {
  }

  lemma ClosedStep(c: C.Word, v: C.Word)
    ensures C.Step(c, v) == C.Xor(C.Xor(C.Low(c), v), Closed(C.Top(c)))
  {
    C.FeedbackClosed(C.Top(c));
    hide C.Feedback, C.Top, C.Low, C.Xor;
  }

  lemma NextIsStep(c: C.Word, v: C.Word)
    ensures C.Step(c, v) == Next(c, v)
  {
    ClosedStep(c, v);
    ClosedTop(c);
    hide C.Step, Closed, Fed, C.Top, C.Xor, C.Low;
  }

  /** The register after vs and a list of symbols given as numbers. */
  function After(vs: seq<C.Word>, ds: seq<nat>): C.Word
    requires Symbols(ds)
  {
    C.Run(1, vs + Words(ds))
  }

  lemma OneMore(vs: seq<C.Word>, v: C.Word, c: C.Word, d: C.Word)
    requires C.Run(1, vs) == c && Next(c, v) == d
    ensures C.Run(1, vs + [v]) == d
  {
    assert (vs + [v])[..|vs|] == vs;
    NextIsStep(c, v);
    hide C.Step, Next;
  }

  lemma WordsSnoc(ds: seq<nat>, i: nat)
    requires Symbols(ds) && i < |ds|
    ensures Words(ds[..i + 1]) == Words(ds[..i]) + [ds[i] as C.Word]
  {
    var longer, shorter := Words(ds[..i + 1]), Words(ds[..i]);
    forall k | 0 <= k < i ensures longer[k] == shorter[k] {
      assert ds[..i + 1][k] == ds[..i][k];
    }
    assert longer[i] == ds[i] as C.Word;
    hide Words;
  }

  /** The next symbol of ds. */
  lemma NextSymbol(vs: seq<C.Word>, ds: seq<nat>, i: nat, v: C.Word, c: C.Word, d: C.Word)
    requires Symbols(ds) && i < |ds| && ds[i] as C.Word == v && After(vs, ds[..i]) == c && Next(c, v) == d
    ensures After(vs, ds[..i + 1]) == d
  {
    WordsSnoc(ds, i);
    hide Next, C.Run, Words;
    OneMore(vs + Words(ds[..i]), v, c, d);
    assert vs + Words(ds[..i + 1]) == vs + Words(ds[..i]) + [v];
  }

  /** The expansion of an ASCII prefix, as numbers. */
  function Upper(hrp: GoString): (ds: seq<nat>)
    requires Ascii(hrp)
    ensures |ds| == |hrp| && Symbols(ds)
  {
    seq(|hrp|, i requires 0 <= i < |hrp| => hrp[i] / 32)
  }

  function Lower(hrp: GoString): (ds: seq<nat>)
    requires Ascii(hrp)
    ensures |ds| == |hrp| && Symbols(ds)
  {
    seq(|hrp|, i requires 0 <= i < |hrp| => hrp[i] % 32)
  }

  function Expansion(hrp: GoString): (ds: seq<nat>)
    requires Ascii(hrp)
    ensures |ds| == 2 * |hrp| + 1 && Symbols(ds)
  {
    Upper(hrp) + [0] + Lower(hrp)
  }

  lemma AsciiExpansion(hrp: GoString)
    requires Ascii(hrp)
    ensures HrpWords(hrp) == Words(Expansion(hrp))
  {
    AsciiRunes(hrp);
    AsciiParts(hrp);
    hide Runes, High, LowBits, Upper, Lower, Words;
    WordsConcat(Upper(hrp) + [0], Lower(hrp));
    WordsConcat(Upper(hrp), [0]);
    ZeroWord();
  }

  lemma ZeroWord()
    ensures Words([0]) == [0]
  {
  }

  lemma WordsConcat(ds: seq<nat>, es: seq<nat>)
    requires Symbols(ds) && Symbols(es)
    ensures Words(ds + es) == Words(ds) + Words(es)
  {
    hide Words;
    var all, parts := Words(ds + es), Words(ds) + Words(es);
    forall k | 0 <= k < |all| ensures all[k] == parts[k] {
      WordAt(ds + es, k);
      if k < |ds| { WordAt(ds, k); } else { WordAt(es, k - |ds|); }
    }
  }

  lemma WordAt(ds: seq<nat>, k: nat)
    requires Symbols(ds) && k < |ds|
    ensures Words(ds)[k] == ds[k] as C.Word
  {
  }

  lemma AsciiParts(hrp: GoString)
    requires Ascii(hrp)
    ensures High(hrp) == Words(Upper(hrp)) && LowBits(hrp) == Words(Lower(hrp))
  {
    hide HighWord, LowWord;
    forall i | 0 <= i < |hrp|
      ensures High(hrp)[i] == Words(Upper(hrp))[i] && LowBits(hrp)[i] == Words(Lower(hrp))[i]
    {
      AsciiWords(hrp[i]);
    }
  }

  lemma AsciiWords(r: Rune)
    requires r < 128
    ensures HighWord(r) == (r / 32) as C.Word && LowWord(r) == (r % 32) as C.Word
  {
  }

  // ---------- "a" ----------

  lemma PrefixA()
    ensures HrpWords(Bytes("a")) == Words([3, 0, 1])
  {
    assert Expansion(Bytes("a")) == [3, 0, 1];
    AsciiExpansion(Bytes("a"));
    hide HrpWords, Words, Bytes;
  }

  lemma RunA()
    ensures C.Run(1, HrpWords(Bytes("a"))) == 0x8c01
  {
    var ds: seq<nat> := [3, 0, 1];
    hide *;
    PrefixA();
    StartOf(ds);
    ThreeSymbols([], ds);
    AfterAll(ds);
  }

  lemma ThreeSymbols(vs: seq<C.Word>, ds: seq<nat>)
    requires Symbols(ds) && |ds| == 3 && ds[0] == 3 && ds[1] == 0 && ds[2] == 1 && After(vs, ds[..0]) == 1
    ensures After(vs, ds[..3]) == 0x8c01
  {
    hide After, Symbols;
    NextSymbol(vs, ds, 0, 3, 1, 0x23);
    NextSymbol(vs, ds, 1, 0, 0x23, 0x460);
    NextSymbol(vs, ds, 2, 1, 0x460, 0x8c01);
  }

  function SixOfA(): (six: seq<nat>)
    ensures Symbols(six) && |six| == 6
  {
    [10, 28, 25, 31, 20, 31]
  }

  lemma VerifiesA()
    ensures Verifies(Bytes("a"), SixOfA())
  {
    var vs, six := HrpWords(Bytes("a")), SixOfA();
    hide *;
    DigitsOfA();
    RunA();
    AfterNone(vs, six);
    SixSymbols(vs, six);
    assert six[..6] == six;
    AfterVerifies(Bytes("a"), six);
  }

  lemma DigitsOfA()
    ensures var six := SixOfA();
      six[0] == 10 && six[1] == 28 && six[2] == 25 && six[3] == 31 && six[4] == 20 && six[5] == 31
  {
  }

  lemma AfterNone(vs: seq<C.Word>, ds: seq<nat>)
    requires Symbols(ds)
    ensures After(vs, ds[..0]) == C.Run(1, vs)
  {
    assert vs + Words(ds[..0]) == vs;
  }

  lemma SixSymbols(vs: seq<C.Word>, six: seq<nat>)
    requires Symbols(six) && |six| == 6 && After(vs, six[..0]) == 0x8c01
    requires six[0] == 10 && six[1] == 28 && six[2] == 25 && six[3] == 31 && six[4] == 20 && six[5] == 31
    ensures After(vs, six[..6]) == 1
  {
    hide After, Symbols;
    NextSymbol(vs, six, 0, 10, 0x8c01, 0x11802a);
    NextSymbol(vs, six, 1, 28, 0x11802a, 0x230055c);
    NextSymbol(vs, six, 2, 25, 0x230055c, 0x3d6afc2b);
    NextSymbol(vs, six, 3, 31, 0x3d6afc2b, 0x2f84386);
    NextSymbol(vs, six, 4, 20, 0x2f84386, 0x24622766);
    NextSymbol(vs, six, 5, 31, 0x24622766, 1);
  }

  // ---------- "abcdef" ----------

  function ExpansionOfAbcdef(): (ds: seq<nat>)
    ensures Symbols(ds) && |ds| == 13
  {
    [3, 3, 3, 3, 3, 3, 0, 1, 2, 3, 4, 5, 6]
  }

  lemma PrefixAbcdef()
    ensures HrpWords(Bytes("abcdef")) == Words(ExpansionOfAbcdef())
  {
    var hrp := Bytes("abcdef");
    assert hrp[0] == 97 && hrp[1] == 98 && hrp[2] == 99 && hrp[3] == 100 && hrp[4] == 101 && hrp[5] == 102;
    assert Expansion(hrp) == ExpansionOfAbcdef();
    AsciiExpansion(hrp);
    hide HrpWords, Words;
  }

  lemma RunAbcdef()
    ensures C.Run(1, HrpWords(Bytes("abcdef"))) == 0x3be80e6a
  {
    hide *;
    var ds := ExpansionOfAbcdef();
    PrefixAbcdef();
    StartOf(ds);
    ExpansionDigits();
    Expansion0([], ds);
    Expansion7([], ds);
    AfterAll(ds);
  }

  lemma ExpansionDigits()
    ensures var ds := ExpansionOfAbcdef();
      && ds[0] == 3 && ds[1] == 3 && ds[2] == 3 && ds[3] == 3 && ds[4] == 3 && ds[5] == 3 && ds[6] == 0
      && ds[7] == 1 && ds[8] == 2 && ds[9] == 3 && ds[10] == 4 && ds[11] == 5 && ds[12] == 6
  {
  }

  lemma StartOf(ds: seq<nat>)
    requires Symbols(ds)
    ensures After([], ds[..0]) == 1
  {
    AfterNone([], ds);
  }

  lemma AfterAll(ds: seq<nat>)
    requires Symbols(ds)
    ensures After([], ds[..|ds|]) == C.Run(1, Words(ds))
  {
    assert ds[..|ds|] == ds && [] + Words(ds) == Words(ds);
    hide C.Run, Words;
  }

  lemma Expansion0(vs: seq<C.Word>, ds: seq<nat>)
    requires Symbols(ds) && |ds| >= 7 && After(vs, ds[..0]) == 1
    requires ds[0] == 3 && ds[1] == 3 && ds[2] == 3 && ds[3] == 3 && ds[4] == 3 && ds[5] == 3 && ds[6] == 0
    ensures After(vs, ds[..7]) == 0x4dcbcd9
  {
    hide After, Symbols;
    NextSymbol(vs, ds, 0, 3, 1, 0x23);
    NextSymbol(vs, ds, 1, 3, 0x23, 0x463);
    NextSymbol(vs, ds, 2, 3, 0x463, 0x8c63);
    NextSymbol(vs, ds, 3, 3, 0x8c63, 0x118c63);
    NextSymbol(vs, ds, 4, 3, 0x118c63, 0x2318c63);
    NextSymbol(vs, ds, 5, 3, 0x2318c63, 0x3d5bdbd1);
    NextSymbol(vs, ds, 6, 0, 0x3d5bdbd1, 0x4dcbcd9);
  }

  lemma Expansion7(vs: seq<C.Word>, ds: seq<nat>)
    requires Symbols(ds) && |ds| >= 13 && After(vs, ds[..7]) == 0x4dcbcd9
    requires ds[7] == 1 && ds[8] == 2 && ds[9] == 3 && ds[10] == 4 && ds[11] == 5 && ds[12] == 6
    ensures After(vs, ds[..13]) == 0x3be80e6a
  {
    hide After, Symbols;
    NextSymbol(vs, ds, 7, 1, 0x4dcbcd9, 0x3dc7154c);
    NextSymbol(vs, ds, 8, 2, 0x3dc7154c, 0x17456f7b);
    NextSymbol(vs, ds, 9, 3, 0x17456f7b, 0x8d50561);
    NextSymbol(vs, ds, 10, 4, 0x8d50561, 0x401b5de);
    NextSymbol(vs, ds, 11, 5, 0x401b5de, 0x266635a8);
    NextSymbol(vs, ds, 12, 6, 0x266635a8, 0x3be80e6a);
  }

  lemma Symbols0(vs: seq<C.Word>, ds: seq<nat>)
    requires Symbols(ds) && |ds| >= 8 && After(vs, ds[..0]) == 0x3be80e6a
    requires ds[0] == 0 && ds[1] == 1 && ds[2] == 2 && ds[3] == 3 && ds[4] == 4 && ds[5] == 5 && ds[6] == 6
    requires ds[7] == 7
    ensures After(vs, ds[..8]) == 0x11e88668
  {
    hide After, Symbols;
    NextSymbol(vs, ds, 0, 0, 0x3be80e6a, 0xf9cd266);
    NextSymbol(vs, ds, 1, 1, 0xf9cd266, 0x30018ce4);
    NextSymbol(vs, ds, 2, 2, 0x30018ce4, 0x1767cdec);
    NextSymbol(vs, ds, 3, 3, 0x1767cdec, 0xc815781);
    NextSymbol(vs, ds, 4, 4, 0xc815781, 0x28db67b3);
    NextSymbol(vs, ds, 5, 5, 0x28db67b3, 0x2fd98d2c);
    NextSymbol(vs, ds, 6, 6, 0x2fd98d2c, 0x12be0710);
    NextSymbol(vs, ds, 7, 7, 0x12be0710, 0x11e88668);
  }

  lemma Symbols8(vs: seq<C.Word>, ds: seq<nat>)
    requires Symbols(ds) && |ds| >= 16 && After(vs, ds[..8]) == 0x11e88668
    requires ds[8] == 8 && ds[9] == 9 && ds[10] == 10 && ds[11] == 11 && ds[12] == 12 && ds[13] == 13 && ds[14] == 14
    requires ds[15] == 15
    ensures After(vs, ds[..16]) == 0x31223f8a
  {
    hide After, Symbols;
    NextSymbol(vs, ds, 8, 8, 0x11e88668, 0x52fed5);
    NextSymbol(vs, ds, 9, 9, 0x52fed5, 0xa5fdaa9);
    NextSymbol(vs, ds, 10, 10, 0xa5fdaa9, 0x2e301b62);
    NextSymbol(vs, ds, 11, 11, 0x2e301b62, 0x2f8ccedd);
    NextSymbol(vs, ds, 12, 12, 0x2f8ccedd, 0x1816793a);
    NextSymbol(vs, ds, 13, 13, 0x1816793a, 0x212c0d6a);
    NextSymbol(vs, ds, 14, 14, 0x212c0d6a, 0xf95cffd);
    NextSymbol(vs, ds, 15, 15, 0xf95cffd, 0x31223f8a);
  }

  lemma Symbols16(vs: seq<C.Word>, ds: seq<nat>)
    requires Symbols(ds) && |ds| >= 24 && After(vs, ds[..16]) == 0x31223f8a
    requires ds[16] == 16 && ds[17] == 17 && ds[18] == 18
    requires ds[19] == 19 && ds[20] == 20 && ds[21] == 21 && ds[22] == 22
    requires ds[23] == 23
    ensures After(vs, ds[..24]) == 0x297c48e0
  {
    hide After, Symbols;
    NextSymbol(vs, ds, 16, 16, 0x31223f8a, 0x3311a03e);
    NextSymbol(vs, ds, 17, 17, 0x3311a03e, 0xe08010d);
    NextSymbol(vs, ds, 18, 18, 0xe08010d, 0x29be197);
    NextSymbol(vs, ds, 19, 19, 0x29be197, 0x28166541);
    NextSymbol(vs, ds, 20, 20, 0x28166541, 0x3679d37d);
    NextSymbol(vs, ds, 21, 21, 0x3679d37d, 0x556e704);
    NextSymbol(vs, ds, 22, 22, 0x556e704, 0xc8c6efb);
    NextSymbol(vs, ds, 23, 23, 0xc8c6efb, 0x297c48e0);
  }

  lemma Symbols24(vs: seq<C.Word>, ds: seq<nat>)
    requires Symbols(ds) && |ds| >= 32 && After(vs, ds[..24]) == 0x297c48e0
    requires ds[24] == 24 && ds[25] == 25 && ds[26] == 26
    requires ds[27] == 27 && ds[28] == 28 && ds[29] == 29 && ds[30] == 30
    requires ds[31] == 31
    ensures After(vs, ds[..32]) == 0x1a0d3656
  {
    hide After, Symbols;
    NextSymbol(vs, ds, 24, 24, 0x297c48e0, 0x1b3c6751);
    NextSymbol(vs, ds, 25, 25, 0x1b3c6751, 0x3f0597ac);
    NextSymbol(vs, ds, 26, 26, 0x3f0597ac, 0x347f64d1);
    NextSymbol(vs, ds, 27, 27, 0x347f64d1, 0x3eea4538);
    NextSymbol(vs, ds, 28, 28, 0x3eea4538, 0x9853657);
    NextSymbol(vs, ds, 29, 29, 0x9853657, 0x2e07d307);
    NextSymbol(vs, ds, 30, 30, 0x2e07d307, 0x2975c268);
    NextSymbol(vs, ds, 31, 31, 0x2975c268, 0x1a0d3656);
  }

  lemma Symbols32(vs: seq<C.Word>, ds: seq<nat>)
    requires Symbols(ds) && |ds| >= 38 && After(vs, ds[..32]) == 0x1a0d3656
    requires ds[32] == 27 && ds[33] == 0 && ds[34] == 0 && ds[35] == 0 && ds[36] == 6 && ds[37] == 14
    ensures After(vs, ds[..38]) == 1
  {
    hide After, Symbols;
    NextSymbol(vs, ds, 32, 27, 0x1a0d3656, 0x192fb74e);
    NextSymbol(vs, ds, 33, 0, 0x192fb74e, 0x615c3e7);
    NextSymbol(vs, ds, 34, 0, 0x615c3e7, 0x1f82a53f);
    NextSymbol(vs, ds, 35, 0, 0x1f82a53f, 0xe8d5418);
    NextSymbol(vs, ds, 36, 6, 0xe8d5418, 0x12314323);
    NextSymbol(vs, ds, 37, 14, 0x12314323, 1);
  }

  // ---------- the vectors ----------

  lemma NoPayload()
    ensures Payload8To5([]) == []
  {
  }

  /** Six symbols that verify are the checksum. */
  lemma EncodedWith(hrp: GoString, data: seq<byte>, six: seq<nat>)
    requires Symbols(six) && |six| == 6 && Verifies(hrp, Payload8To5(data) + six)
    ensures Encoded(hrp, data) == hrp + [SEPARATOR] + Text(Payload8To5(data)) + Text(six)
  {
    hide HrpWords, Padded, C.Run, CharAt;
    VerifiesIffChecksum(hrp, Payload8To5(data), six);
    assert Text(Payload8To5(data) + six) == Text(Payload8To5(data)) + Text(six);
  }

  /** The smallest one, a12uel5l: prefix "a", no data, and the checksum 2uel5l. */
  lemma SmallestVector()
    ensures Encoded(Bytes("a"), []) == Bytes("a") + Bytes("1") + Bytes("2uel5l")
  {
    hide *;
    VerifiesA();
    NoPayload();
    TextA();
    assert [] + SixOfA() == SixOfA();
    EncodedWith(Bytes("a"), [], SixOfA());
  }

  lemma TextA()
    ensures Text(SixOfA()) == Bytes("2uel5l") && Text([]) == [] && Bytes("1") == [SEPARATOR]
  {
  }

  /** The symbols 0 to 31 in order. */
  function AllSymbols(): (ds: seq<nat>)
    ensures Symbols(ds)
  {
    seq(32, i requires 0 <= i < 32 => i)
  }

  /** The twenty bytes whose bits they are. */
  function AllBits(): (data: seq<byte>)
    ensures |data| == 20
  {
    Pow2Small();
    Groups(Value(AllSymbols(), 5), 20, 8)
  }

  lemma AllBitsPayload()
    ensures Payload8To5(AllBits()) == AllSymbols()
  {
    AllBitsValue();
    PaddedWhole(AllBits(), 32);
    FitsSymbols(AllSymbols());
    hide Value, Groups, Padded, AllBits, AllSymbols, Fits;
    GroupsOfValue(AllSymbols(), 5);
  }

  lemma AllBitsValue()
    ensures Value(AllBits(), 8) == Value(AllSymbols(), 5) && |AllSymbols()| == 32
  {
    FitsSymbols(AllSymbols());
    hide Value, Groups, Fits, Pow2;
    ValueBound(AllSymbols(), 5);
    ValueOfGroups(Value(AllSymbols(), 5), 20, 8);
  }

  lemma PaddedWhole(data: seq<byte>, n: nat)
    requires 8 * |data| == 5 * n
    ensures Padded(data, 8, 5) == Groups(Value(data, 8), n, 5)
  {
    CeilingUnique(8 * |data|, 5, n);
    assert Pow2(0) == 1;
  }

  function SixOfAbcdef(): (six: seq<nat>)
    ensures Symbols(six) && |six| == 6
  {
    [27, 0, 0, 0, 6, 14]
  }

  lemma VerifiesAbcdef()
    ensures Verifies(Bytes("abcdef"), AllSymbols() + SixOfAbcdef())
  {
    var vs, ds := HrpWords(Bytes("abcdef")), AllSymbols() + SixOfAbcdef();
    hide *;
    DigitsOfAbcdef();
    RunAbcdef();
    AfterNone(vs, ds);
    AllSteps(vs, ds);
    assert ds[..38] == ds;
    AfterVerifies(Bytes("abcdef"), ds);
  }

  lemma AllSteps(vs: seq<C.Word>, ds: seq<nat>)
    requires Symbols(ds) && |ds| == 38 && (forall i :: 0 <= i < 32 ==> ds[i] == i)
    requires ds[32] == 27 && ds[33] == 0 && ds[34] == 0 && ds[35] == 0 && ds[36] == 6 && ds[37] == 14
    requires After(vs, ds[..0]) == 0x3be80e6a
    ensures After(vs, ds[..38]) == 1
  {
    hide *;
    Symbols0(vs, ds);
    Symbols8(vs, ds);
    Symbols16(vs, ds);
    Symbols24(vs, ds);
    Symbols32(vs, ds);
  }

  lemma DigitsOfAbcdef()
    ensures var ds := AllSymbols() + SixOfAbcdef();
      && |ds| == 38 && (forall i :: 0 <= i < 32 ==> ds[i] == i)
      && ds[32] == 27 && ds[33] == 0 && ds[34] == 0 && ds[35] == 0 && ds[36] == 6 && ds[37] == 14
  {
  }

  lemma AfterVerifies(hrp: GoString, ds: seq<nat>)
    requires Symbols(ds) && After(HrpWords(hrp), ds) == 1
    ensures Verifies(hrp, ds)
  {
  }

  /** The one with every character of the charset: prefix "abcdef" and the symbols 0 to 31 as twenty bytes. */
  lemma CharsetVector()
    ensures Encoded(Bytes("abcdef"), AllBits())
      == Bytes("abcdef") + Bytes("1") + Bytes("qpzry9x8gf2tvdw0s3jn54khce6mua7l") + Bytes("mqqqxw")
  {
    hide *;
    AllBitsPayload();
    VerifiesAbcdef();
    TextAbcdef();
    TextA();
    EncodedWith(Bytes("abcdef"), AllBits(), SixOfAbcdef());
  }

  lemma TextAbcdef()
    ensures Text(AllSymbols()) == Bytes("qpzry9x8gf2tvdw0s3jn54khce6mua7l")
    ensures Text(SixOfAbcdef()) == Bytes("mqqqxw")
  {
  }
}
