/**
 The bech32 codec of crypto/bech32.go. Strings are Go byte strings, so a human-readable
 part may hold any bytes at all, including '1' and malformed UTF-8.
 */
module Bech32 {
  import opened Digits
  import opened Prelude
  import opened Utf8
  import C = Checksum
  import opened Regroup

  const CHARSET: string := "qpzry9x8gf2tvdw0s3jn54khce6mua7l"
  const SEPARATOR: byte := 49 // '1'

  datatype DecodeError = InvalidString | InvalidCharacter | InvalidChecksum | InvalidPadding | InvalidLength

  datatype Decoding = Decoding(hrp: GoString, data: seq<byte>)

  function CharAt(i: nat): byte
    requires i < 32
  {
    CHARSET[i] as int
  }

  /** strings.IndexRune over the charset, from position i on. */
  function IndexFrom(c: Rune, i: nat): (r: Option<nat>)
    requires i <= 32
    ensures r.Some? ==> i <= r.value < 32 && CharAt(r.value) == c
    ensures r.None? ==> forall k :: i <= k < 32 ==> CharAt(k) != c
    decreases 32 - i
  {
    if i == 32 then None
    else if CharAt(i) == c then Some(i)
    else IndexFrom(c, i + 1)
  }

  predicate InCharset(c: Rune) {
    IndexFrom(c, 0).Some?
  }

  function SymbolOf(c: Rune): (v: nat)
    requires InCharset(c)
    ensures v < 32 && CharAt(v) == c
  {
    IndexFrom(c, 0).value
  }

  /** 5-bit symbols. */
  predicate Symbols(ds: seq<nat>) {
    forall i :: 0 <= i < |ds| ==> ds[i] < 32
  }

  predicate AllInCharset(s: seq<Rune>) {
    forall i :: 0 <= i < |s| ==> InCharset(s[i])
  }

  function Text(ds: seq<nat>): (s: GoString)
    requires Symbols(ds)
    ensures |s| == |ds|
  {
    seq(|ds|, i requires 0 <= i < |ds| => CharAt(ds[i]))
  }

  function SymbolsOf(s: GoString): (ds: seq<nat>)
    requires AllInCharset(s)
    ensures |ds| == |s| && Symbols(ds)
  {
    seq(|s|, i requires 0 <= i < |s| => SymbolOf(s[i]))
  }

  /** `byte(c >> 5)` and `byte(c & 0x1f)` of one rune. */
  function HighWord(r: Rune): C.Word {
    ((r / 32) % 256) as C.Word
  }

  function LowWord(r: Rune): C.Word {
    (r % 32) as C.Word
  }

  function High(rs: seq<Rune>): (ws: seq<C.Word>)
    ensures |ws| == |rs|
  {
    seq(|rs|, i requires 0 <= i < |rs| => HighWord(rs[i]))
  }

  function LowBits(rs: seq<Rune>): (ws: seq<C.Word>)
    ensures |ws| == |rs|
  {
    seq(|rs|, i requires 0 <= i < |rs| => LowWord(rs[i]))
  }

  /** The human-readable part as checksum input: high bits, a zero, low bits. */
  function HrpWords(hrp: GoString): seq<C.Word> {
    High(Runes(hrp)) + [0] + LowBits(Runes(hrp))
  }

  function Words(ds: seq<nat>): (ws: seq<C.Word>)
    requires Symbols(ds)
    ensures |ws| == |ds|
  {
    seq(|ds|, i requires 0 <= i < |ds| => ds[i] as C.Word)
  }

  function Naturals(ws: seq<C.Word>): (ds: seq<nat>)
    ensures |ds| == |ws|
  {
    seq(|ws|, i requires 0 <= i < |ws| => ws[i] as nat)
  }

  function ChecksumOf(hrp: GoString, data: seq<nat>): (six: seq<nat>)
    requires Symbols(data)
    ensures |six| == 6
  {
    Naturals(C.SplitSix(C.Xor(C.Run(1, HrpWords(hrp) + Words(data) + C.Zeros(6)), 1)))
  }

  predicate Verifies(hrp: GoString, data: seq<nat>)
    requires Symbols(data)
  {
    C.Run(1, HrpWords(hrp) + Words(data)) == 1
  }

  /** strings.LastIndex(s, "1"), or -1. */
  function LastSeparator(s: GoString): (sep: int)
    ensures -1 <= sep < |s|
    ensures sep >= 0 ==> s[sep] == SEPARATOR
    ensures forall k :: sep < k < |s| ==> s[k] != SEPARATOR
  {
    if s == [] then -1
    else if s[|s| - 1] == SEPARATOR then |s| - 1
    else LastSeparator(s[..|s| - 1])
  }

  // ---------- what Encode and Decode return ----------

  function Payload8To5(data: seq<byte>): (ds: seq<nat>)
    ensures Symbols(ds)
  {
    Pow2Small();
    Padded(data, 8, 5)
  }

  function Encoded(hrp: GoString, data: seq<byte>): GoString {
    var ds := Payload8To5(data);
    ChecksumSymbols(hrp, ds);
    hrp + [SEPARATOR] + Text(ds + ChecksumOf(hrp, ds))
  }

  function Decoded(s: GoString): Result<Decoding, DecodeError> {
    var sep := LastSeparator(s);
    if sep < 1 || sep + 7 > |s| then Err(InvalidString)
    else if !AllInCharset(s[sep + 1..]) then Err(InvalidCharacter)
    else
      var ds := SymbolsOf(s[sep + 1..]);
      if !Verifies(s[..sep], ds) then Err(InvalidChecksum)
      else
        match Exact(ds[..|ds| - 6], 5, 8)
        case None => Err(InvalidPadding)
        case Some(bytes) =>
          ExactBytes(ds[..|ds| - 6]);
          Ok(Decoding(s[..sep], bytes))
  }

  lemma ChecksumSymbols(hrp: GoString, data: seq<nat>)
    requires Symbols(data)
    ensures Symbols(ChecksumOf(hrp, data))
  {
    var p := C.Xor(C.Run(1, HrpWords(hrp) + Words(data) + C.Zeros(6)), 1);
    hide C.Xor, C.Run, C.SplitSix;
    forall i | 0 <= i < 6 ensures ChecksumOf(hrp, data)[i] < 32 {
      assert C.IsSymbol(C.SplitSix(p)[i]);
    }
  }

  lemma ExactBytes(ds: seq<nat>)
    requires Exact(ds, 5, 8).Some?
    ensures forall i :: 0 <= i < |Exact(ds, 5, 8).value| ==> Exact(ds, 5, 8).value[i] < 256
  {
    Pow2Small();
  }

  // ---------- charset and conversions ----------

  lemma CharsetDistinct(i: nat, j: nat)
    requires i < j < 32
    ensures CharAt(i) != CharAt(j)
  {
  }

  lemma SymbolOfChar(v: nat)
    requires v < 32
    ensures InCharset(CharAt(v)) && SymbolOf(CharAt(v)) == v
  {
    var u := SymbolOf(CharAt(v));
    if u < v { CharsetDistinct(u, v); } else if v < u { CharsetDistinct(v, u); }
  }

  lemma CharsetAscii(c: Rune)
    requires InCharset(c)
    ensures c < 0x80 && c != SEPARATOR
  {
  }

  lemma TextSymbols(ds: seq<nat>)
    requires Symbols(ds)
    ensures AllInCharset(Text(ds)) && SymbolsOf(Text(ds)) == ds
  {
    forall i | 0 <= i < |ds| ensures InCharset(Text(ds)[i]) && SymbolOf(Text(ds)[i]) == ds[i] {
      SymbolOfChar(ds[i]);
    }
  }

  lemma SymbolsText(s: GoString)
    requires AllInCharset(s)
    ensures Text(SymbolsOf(s)) == s
  {
  }

  lemma WordOfNat(x: nat)
    requires x < 32
    ensures C.IsSymbol(x as C.Word) && (x as C.Word) as nat == x
  {
  }

  lemma NatOfWord(w: C.Word)
    requires C.IsSymbol(w)
    ensures w as nat < 32 && (w as nat) as C.Word == w
  {
  }

  lemma NaturalsWords(ds: seq<nat>)
    requires Symbols(ds)
    ensures C.Symbols(Words(ds)) && Naturals(Words(ds)) == ds
  {
    forall i | 0 <= i < |ds| ensures C.IsSymbol(Words(ds)[i]) && Naturals(Words(ds))[i] == ds[i] {
      WordOfNat(ds[i]);
    }
  }

  lemma WordsNaturals(ws: seq<C.Word>)
    requires C.Symbols(ws)
    ensures Symbols(Naturals(ws)) && Words(Naturals(ws)) == ws
  {
    forall i | 0 <= i < |ws| ensures ws[i] as nat < 32 && (ws[i] as nat) as C.Word == ws[i] {
      assert C.IsSymbol(ws[i]);
      NatOfWord(ws[i]);
    }
  }

  lemma ByteWord(x: nat)
    requires x < 256
    ensures (x as C.Word) < 256
  {
  }

  predicate ByteSized(ws: seq<C.Word>) {
    forall i :: 0 <= i < |ws| ==> ws[i] < 256
  }

  lemma HrpWordsBounded(hrp: GoString)
    ensures ByteSized(HrpWords(hrp))
  {
    var rs := Runes(hrp);
    forall i | 0 <= i < |rs| ensures High(rs)[i] < 256 && LowBits(rs)[i] < 256 {
      ByteWord((rs[i] / 32) % 256);
      ByteWord(rs[i] % 32);
    }
  }

  lemma WordsBounded(ds: seq<nat>)
    requires Symbols(ds)
    ensures ByteSized(Words(ds))
  {
    forall i | 0 <= i < |ds| ensures Words(ds)[i] < 256 {
      ByteWord(ds[i]);
    }
  }

  /** verifyChecksum accepts exactly the six symbols createChecksum returns. */
  lemma VerifiesIffChecksum(hrp: GoString, data: seq<nat>, six: seq<nat>)
    requires Symbols(data) && Symbols(six) && |six| == 6
    ensures Verifies(hrp, data + six) <==> six == ChecksumOf(hrp, data)
  {
    hide C.SplitSix, C.Xor, C.Run, HrpWords, Naturals;
    var message := HrpWords(hrp) + Words(data);
    HrpWordsBounded(hrp);
    WordsBounded(data);
    NaturalsWords(six);
    assert Words(data + six) == Words(data) + Words(six);
    assert HrpWords(hrp) + Words(data + six) == message + Words(six);
    hide Words;
    var p := C.Xor(C.Run(1, message + C.Zeros(6)), 1);
    assert forall i :: 0 <= i < |message| ==> message[i] < 256;
    C.ChecksumUnique(message, Words(six));
    WordsNaturals(C.SplitSix(p));
  }

  // ---------- separator ----------

  lemma SeparatorOfEncoded(hrp: GoString, text: GoString)
    requires AllInCharset(text)
    ensures LastSeparator(hrp + [SEPARATOR] + text) == |hrp|
  {
    var s := hrp + [SEPARATOR] + text;
    assert s[|hrp|] == SEPARATOR;
    forall k | |hrp| < k < |s| ensures s[k] != SEPARATOR {
      assert s[k] == text[k - |hrp| - 1];
      CharsetAscii(s[k]);
    }
  }

  // ---------- round trips ----------

  /** Decoding what was encoded returns exactly the same parts; only the empty prefix is refused. */
  lemma DecodeOfEncode(hrp: GoString, data: seq<byte>)
    ensures Decoded(Encoded(hrp, data)) == if hrp == [] then Err(InvalidString) else Ok(Decoding(hrp, data))
  {
    var ds := Payload8To5(data);
    var six := ChecksumOf(hrp, ds);
    ChecksumSymbols(hrp, ds);
    var s := Encoded(hrp, data);
    TextSymbols(ds + six);
    SeparatorOfEncoded(hrp, Text(ds + six));
    if hrp != [] {
      assert s[..|hrp|] == hrp;
      assert s[|hrp| + 1..] == Text(ds + six);
      VerifiesIffChecksum(hrp, ds, six);
      assert (ds + six)[..|ds|] == ds;
      FitsBytes(data);
      ExactUndoesPadded(data, 8, 5);
    }
  }

  lemma FitsBytes(data: seq<byte>)
    ensures Fits(data, 8)
  {
    Pow2Small();
  }

  lemma FitsSymbols(ds: seq<nat>)
    requires Symbols(ds)
    ensures Fits(ds, 5)
  {
    Pow2Small();
  }

  /** Every accepted string is the encoding of what it decodes to. */
  lemma EncodeOfDecode(s: GoString)
    ensures Decoded(s).Ok? ==> Encoded(Decoded(s).value.hrp, Decoded(s).value.data) == s
  {
    if Decoded(s).Ok? {
      EncodeOfAccepted(s);
    }
  }

  lemma EncodeOfAccepted(s: GoString)
    requires Decoded(s).Ok?
    ensures Encoded(Decoded(s).value.hrp, Decoded(s).value.data) == s
  {
    hide InCharset, SymbolOf, CharAt;
    var sep := LastSeparator(s);
    var ds := SymbolsOf(s[sep + 1..]);
    var n := |ds| - 6;
    FitsSymbols(ds[..n]);
    PaddedUndoesExact(ds[..n], 5, 8);
    assert ds[..n] + ds[n..] == ds;
    VerifiesIffChecksum(s[..sep], ds[..n], ds[n..]);
    SymbolsText(s[sep + 1..]);
    assert s == s[..sep] + [SEPARATOR] + s[sep + 1..];
  }

  /** The accepted strings are exactly the encodings with a non-empty prefix. */
  lemma AcceptedIffEncoding(s: GoString)
    ensures Decoded(s).Ok? <==> exists hrp: GoString, data: seq<byte> :: hrp != [] && s == Encoded(hrp, data)
  {
    if Decoded(s).Ok? {
      EncodeOfDecode(s);
      var d := Decoded(s).value;
      assert d.hrp != [] && s == Encoded(d.hrp, d.data);
    }
    forall hrp: GoString, data: seq<byte> | hrp != [] && s == Encoded(hrp, data) ensures Decoded(s).Ok? {
      DecodeOfEncode(hrp, data);
    }
  }

  // ---------- burst errors ----------

  /** t is s with some data characters replaced by other charset characters, all within [p, p + 6). */
  predicate Burst(s: GoString, t: GoString, p: nat) {
    && |s| == |t| && s != t
    && LastSeparator(s) < p
    && forall i :: 0 <= i < |s| ==> if p <= i < p + 6 then InCharset(t[i]) else t[i] == s[i]
  }

  /** No burst of at most six data characters goes unnoticed, however long the string. */
  lemma BurstRejected(s: GoString, t: GoString, p: nat)
    ensures Decoded(s).Ok? && Burst(s, t, p) ==> Decoded(t) == Err(InvalidChecksum)
  {
    if Decoded(s).Ok? && Burst(s, t, p) {
      BurstBreaksChecksum(s, t, p);
    }
  }

  lemma BurstBreaksChecksum(s: GoString, t: GoString, p: nat)
    requires Decoded(s).Ok? && Burst(s, t, p)
    ensures Decoded(t) == Err(InvalidChecksum)
  {
    hide InCharset, LastSeparator, Verifies, Exact, SymbolOf, Text, Symbols, Burst;
    var sep := LastSeparator(s);
    var q := BurstSplit(s, t, p);
    var a, b := s[sep + 1..], t[sep + 1..];
    SymbolsText(a);
    SymbolsText(b);
    SymbolBurst(s[..sep], SymbolsOf(a), SymbolsOf(b), q);
  }

  /** A burst leaves the prefix and the separator alone; the window is moved inside the data part. */
  lemma BurstSplit(s: GoString, t: GoString, p: nat) returns (q: nat)
    requires 1 <= LastSeparator(s) && LastSeparator(s) + 7 <= |s|
    requires AllInCharset(s[LastSeparator(s) + 1..]) && Burst(s, t, p)
    ensures LastSeparator(t) == LastSeparator(s)
    ensures t[..LastSeparator(s)] == s[..LastSeparator(s)]
    ensures var a, b := s[LastSeparator(s) + 1..], t[LastSeparator(s) + 1..];
      && AllInCharset(b) && |a| == |b| && a != b && q + 6 <= |a|
      && forall i :: 0 <= i < |a| && !(q <= i < q + 6) ==> a[i] == b[i]
  {
    hide InCharset, LastSeparator;
    var sep := LastSeparator(s);
    var a, b := s[sep + 1..], t[sep + 1..];
    assert t[..sep] == s[..sep];
    assert t[sep] == s[sep];
    assert t == s[..sep] + [SEPARATOR] + b;
    forall i | 0 <= i < |b| ensures InCharset(b[i]) { assert b[i] == t[sep + 1 + i] && a[i] == s[sep + 1 + i]; }
    SeparatorOfEncoded(s[..sep], b);
    assert s == s[..sep] + [SEPARATOR] + a;
    q := if p - sep - 1 + 6 <= |a| then p - sep - 1 else |a| - 6;
    forall i | 0 <= i < |a| && !(q <= i < q + 6) ensures a[i] == b[i] { assert s[sep + 1 + i] == t[sep + 1 + i]; }
  }

  lemma SymbolBurst(hrp: GoString, ds: seq<nat>, es: seq<nat>, q: nat)
    requires Symbols(ds) && Symbols(es) && |ds| == |es| && q + 6 <= |ds| && ds != es
    requires forall i :: 0 <= i < |ds| && !(q <= i < q + 6) ==> ds[i] == es[i]
    requires Verifies(hrp, ds)
    ensures !Verifies(hrp, es)
  {
    var head := HrpWords(hrp);
    NaturalsWords(ds);
    NaturalsWords(es);
    var vs, ws := head + Words(ds), head + Words(es);
    assert vs[|head|..] == Words(ds) && ws[|head|..] == Words(es);
    var p := |head| + q;
    forall i | 0 <= i < |vs| && !(p <= i < p + 6) ensures vs[i] == ws[i] {
      if i >= |head| { assert ds[i - |head|] == es[i - |head|]; }
    }
    forall i | p <= i < p + 6 ensures C.IsSymbol(vs[i]) && C.IsSymbol(ws[i]) {
      assert vs[i] == Words(ds)[i - |head|] && ws[i] == Words(es)[i - |head|];
    }
    C.BurstChangesRegister(vs, ws, p);
  }
}
