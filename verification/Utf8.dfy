/**
 How a Go `range` loop reads a string: runes are decoded from UTF-8, and every byte
 that does not start a well-formed sequence counts as one U+FFFD.
 */
module Utf8 {
  import opened Prelude

  type GoString = seq<byte>
  type Rune = nat

  const RUNE_ERROR: Rune := 0xFFFD

  datatype RuneRead = RuneRead(rune: Rune, width: nat)

  predicate Continuation(b: byte) { 0x80 <= b <= 0xBF }

  function Payload(b: byte): nat
    requires Continuation(b)
  {
    b as int - 0x80
  }

  /** The first rune of a non-empty string and its width in bytes. */
  function FirstRune(s: GoString): (d: RuneRead)
    requires s != []
    ensures 1 <= d.width <= |s|
    ensures s[0] < 0x80 ==> d == RuneRead(s[0], 1)
    ensures s[0] >= 0x80 ==> d.rune >= 0x80
  {
    var b: nat := s[0];
    if b < 0x80 then
      RuneRead(b, 1)
    else if 0xC2 <= b <= 0xDF && |s| >= 2 && Continuation(s[1]) then
      RuneRead((b - 0xC0) * 64 + Payload(s[1]), 2)
    else if 0xE0 <= b <= 0xEF && |s| >= 3
      && (if b == 0xE0 then 0xA0 else 0x80) <= s[1] <= (if b == 0xED then 0x9F else 0xBF)
      && Continuation(s[2]) then
      RuneRead((b - 0xE0) * 4096 + Payload(s[1]) * 64 + Payload(s[2]), 3)
    else if 0xF0 <= b <= 0xF4 && |s| >= 4
      && (if b == 0xF0 then 0x90 else 0x80) <= s[1] <= (if b == 0xF4 then 0x8F else 0xBF)
      && Continuation(s[2]) && Continuation(s[3]) then
      RuneRead((b - 0xF0) * 262144 + Payload(s[1]) * 4096 + Payload(s[2]) * 64 + Payload(s[3]), 4)
    else
      RuneRead(RUNE_ERROR, 1)
  }

  function Runes(s: GoString): seq<Rune> {
    if s == [] then [] else
      var d := FirstRune(s);
      [d.rune] + Runes(s[d.width..])
  }

  predicate Ascii(s: GoString) {
    forall i :: 0 <= i < |s| ==> s[i] < 0x80
  }

  /** A string all of whose runes are ASCII has only ASCII bytes. */
  lemma {:induction false} AsciiBytes(s: GoString)
    requires forall r :: r in Runes(s) ==> r < 0x80
    ensures Ascii(s) && Runes(s) == s
  {
    if s != [] {
      var d := FirstRune(s);
      assert d.rune == Runes(s)[0];
      assert d.rune in Runes(s);
      assert forall r :: r in Runes(s[d.width..]) ==> r in Runes(s);
      AsciiBytes(s[1..]);
    }
  }

  // ---------- the decoder against the encoding of RFC 3629, section 3 ----------

  /** Code points that have an encoding: surrogates do not. */
  predicate Scalar(r: Rune) {
    r < 0xD800 || 0xE000 <= r < 0x110000
  }

  function Encoding(r: Rune): (s: GoString)
    requires Scalar(r)
    ensures 1 <= |s| <= 4
  {
    if r < 0x80 then [r]
    else if r < 0x800 then [0xC0 + r / 64, 0x80 + r % 64]
    else if r < 0x10000 then [0xE0 + r / 4096, 0x80 + r / 64 % 64, 0x80 + r % 64]
    else [0xF0 + r / 262144, 0x80 + r / 4096 % 64, 0x80 + r / 64 % 64, 0x80 + r % 64]
  }

  /** A well-formed rune at the front is read back, with its width. */
  lemma DecodesEncoding(r: Rune, rest: GoString)
    requires Scalar(r)
    ensures FirstRune(Encoding(r) + rest) == RuneRead(r, |Encoding(r)|)
  {
    if r < 0x800 {
      ReadsShort(r, rest);
    } else if r < 0x10000 {
      ReadsThree(r, rest);
    } else {
      ReadsFour(r, rest);
    }
  }

  lemma ReadsShort(r: Rune, rest: GoString)
    requires Scalar(r) && r < 0x800
    ensures FirstRune(Encoding(r) + rest) == RuneRead(r, |Encoding(r)|)
  {
    var s := Encoding(r) + rest;
    if r >= 0x80 {
      assert s[0] == 0xC0 + r / 64 && s[1] == 0x80 + r % 64;
    }
  }

  lemma ReadsThree(r: Rune, rest: GoString)
    requires Scalar(r) && 0x800 <= r < 0x10000
    ensures FirstRune(Encoding(r) + rest) == RuneRead(r, |Encoding(r)|)
  {
    var s := Encoding(r) + rest;
    assert s[0] == 0xE0 + r / 4096 && s[1] == 0x80 + r / 64 % 64 && s[2] == 0x80 + r % 64;
    SixBits(r, r / 64);
  }

  lemma ReadsFour(r: Rune, rest: GoString)
    requires Scalar(r) && 0x10000 <= r
    ensures FirstRune(Encoding(r) + rest) == RuneRead(r, |Encoding(r)|)
  {
    var s := Encoding(r) + rest;
    assert s[0] == 0xF0 + r / 262144 && s[1] == 0x80 + r / 4096 % 64;
    assert s[2] == 0x80 + r / 64 % 64 && s[3] == 0x80 + r % 64;
    SixBits(r, r / 64);
    SixBits(r / 64, r / 4096);
  }

  lemma SixBits(r: nat, q: nat)
    requires q == r / 64
    ensures r == q * 64 + r % 64 && q / 64 == r / 4096 && q / 4096 == r / 262144
  {
  }

  /** Whatever is not the encoding of a rune counts as one U+FFFD of width one. */
  lemma DecodesOnlyEncodings(s: GoString)
    requires s != []
    ensures var d := FirstRune(s);
      d == RuneRead(RUNE_ERROR, 1) || (Scalar(d.rune) && s[..d.width] == Encoding(d.rune))
  {
    var width := FirstRune(s).width;
    assert width <= 4;
    hide Encoding, Scalar, FirstRune;
    if width == 4 {
      DecodesFour(s);
    } else if width == 3 {
      DecodesThree(s);
    } else {
      DecodesShort(s);
    }
  }

  lemma DecodesShort(s: GoString)
    requires s != [] && FirstRune(s).width <= 2
    ensures var d := FirstRune(s); d == RuneRead(RUNE_ERROR, 1) || (Scalar(d.rune) && s[..d.width] == Encoding(d.rune))
  {
  }

  lemma DecodesThree(s: GoString)
    requires s != [] && FirstRune(s).width == 3
    ensures var d := FirstRune(s); Scalar(d.rune) && s[..3] == Encoding(d.rune)
  {
    FourBytes(0, s[0] as int - 0xE0, Payload(s[1]), Payload(s[2]));
  }

  lemma DecodesFour(s: GoString)
    requires s != [] && FirstRune(s).width == 4
    ensures var d := FirstRune(s); Scalar(d.rune) && s[..4] == Encoding(d.rune)
  {
    FourBytes(s[0] as int - 0xF0, Payload(s[1]), Payload(s[2]), Payload(s[3]));
  }

  lemma FourBytes(a: nat, b: nat, c: nat, d: nat)
    requires a < 8 && b < 64 && c < 64 && d < 64
    ensures var r := a * 262144 + b * 4096 + c * 64 + d;
      r / 262144 == a && r / 4096 % 64 == b && r / 64 % 64 == c && r % 64 == d && r / 4096 == a * 64 + b
  {
    var x := a * 64 + b;
    var y := x * 64 + c;
    JoinSixBits(a, b);
    JoinSixBits(x, c);
    JoinSixBits(y, d);
    SixBits(y * 64 + d, y);
    SixBits(y, x);
  }

  lemma JoinSixBits(high: nat, low: nat)
    requires low < 64
    ensures (high * 64 + low) / 64 == high && (high * 64 + low) % 64 == low
  {
  }
}
