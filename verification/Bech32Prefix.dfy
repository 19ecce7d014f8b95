/**
 What the bech32 checksum says about the human-readable part: a string that is accepted
 is rejected once up to six neighbouring characters of its prefix are exchanged.
 */
module Bech32Prefix {
  import opened Digits
  import opened Prelude
  import opened Utf8
  import opened Bech32
  import C = Checksum

  /** Runes that differ, but only within six consecutive positions. */
  predicate Window(rs: seq<Rune>, ts: seq<Rune>, p: nat) {
    && |rs| == |ts| && rs != ts
    && forall i :: 0 <= i < |rs| && !(p <= i < p + 6) ==> rs[i] == ts[i]
  }

  /** Only the low five bits differ: `c >> 5` is the same everywhere. */
  predicate SameHigh(rs: seq<Rune>, ts: seq<Rune>)
    requires |rs| == |ts|
  {
    forall i :: 0 <= i < |rs| ==> rs[i] / 32 == ts[i] / 32
  }

  /** Only the bits above the low five differ: `c & 0x1f` is the same everywhere. */
  predicate SameLow(rs: seq<Rune>, ts: seq<Rune>)
    requires |rs| == |ts|
  {
    forall i :: 0 <= i < |rs| ==> rs[i] % 32 == ts[i] % 32
  }

  predicate AsciiOnly(rs: seq<Rune>) {
    forall i :: 0 <= i < |rs| ==> rs[i] < 128
  }

  lemma LowDiffers(r: Rune, t: Rune)
    ensures LowWord(r) == LowWord(t) <==> r % 32 == t % 32
    ensures C.IsSymbol(LowWord(r))
  {
    WordOfNat(r % 32);
    WordOfNat(t % 32);
  }

  lemma HighDiffers(r: Rune, t: Rune)
    requires r < 128 && t < 128
    ensures HighWord(r) == HighWord(t) <==> r / 32 == t / 32
    ensures C.IsSymbol(HighWord(r))
  {
    WordOfNat(r / 32);
    WordOfNat(t / 32);
  }

  /** The checksum input, position by position: the upper bits of each rune, a zero, the low bits, the data. */
  predicate Expands(rs: seq<Rune>, vs: seq<C.Word>, data: seq<nat>)
    requires Symbols(data)
  {
    && |vs| == 2 * |rs| + 1 + |data| && vs[|rs|] == 0
    && (forall i :: 0 <= i < |rs| ==> vs[i] == HighWord(rs[i]))
    && (forall i :: |rs| < i < 2 * |rs| + 1 ==> vs[i] == LowWord(rs[i - |rs| - 1]))
    && (forall i :: 2 * |rs| + 1 <= i < |vs| ==> vs[i] == Words(data)[i - (2 * |rs| + 1)])
  }

  lemma ChecksumInput(hrp: GoString, data: seq<nat>)
    requires Symbols(data)
    ensures Expands(Runes(hrp), HrpWords(hrp) + Words(data), data)
  {
    hide Runes, HighWord, LowWord, Words;
  }

  /** From the zero on everything is a 5-bit symbol; before it, if the prefix is ASCII. */
  lemma SymbolHere(rs: seq<Rune>, vs: seq<C.Word>, data: seq<nat>, i: nat)
    requires Symbols(data) && Expands(rs, vs, data) && i < |vs| && (i >= |rs| || AsciiOnly(rs))
    ensures C.IsSymbol(vs[i])
  {
    if i < |rs| {
      HighDiffers(rs[i], rs[i]);
    } else if |rs| < i < 2 * |rs| + 1 {
      LowDiffers(rs[i - |rs| - 1], rs[i - |rs| - 1]);
    } else if i > |rs| {
      NaturalsWords(data);
    }
  }

  lemma FirstDifference(rs: seq<Rune>, ts: seq<Rune>) returns (k: nat)
    requires |rs| == |ts| && rs != ts
    ensures k < |rs| && rs[k] != ts[k]
  {
    k :| 0 <= k < |rs| && rs[k] != ts[k];
  }

  /** Where two expansions agree: wherever the same bits of the same rune agree. */
  lemma SameWord(rs: seq<Rune>, ts: seq<Rune>, vs: seq<C.Word>, ws: seq<C.Word>, data: seq<nat>, i: nat)
    requires Symbols(data) && Expands(rs, vs, data) && Expands(ts, ws, data) && |rs| == |ts| && i < |vs|
    requires i < |rs| ==> rs[i] / 32 == ts[i] / 32
    requires |rs| < i < 2 * |rs| + 1 ==> rs[i - |rs| - 1] % 32 == ts[i - |rs| - 1] % 32
    ensures vs[i] == ws[i]
  {
    hide Words, HighWord, LowWord;
    if i < |rs| {
      WordsAgree(rs[i], ts[i]);
    } else if |rs| < i < 2 * |rs| + 1 {
      WordsAgree(rs[i - |rs| - 1], ts[i - |rs| - 1]);
    }
  }

  lemma WordsAgree(r: Rune, t: Rune)
    ensures r / 32 == t / 32 ==> HighWord(r) == HighWord(t)
    ensures r % 32 == t % 32 ==> LowWord(r) == LowWord(t)
  {
  }

  /** Only low bits differ: the inputs differ within six symbols after the zero. */
  lemma LowWindow(rs: seq<Rune>, ts: seq<Rune>, vs: seq<C.Word>, ws: seq<C.Word>, data: seq<nat>, p: nat)
    requires Symbols(data) && |data| >= 6 && Expands(rs, vs, data) && |rs| == |ts| && Expands(ts, ws, data)
    requires Window(rs, ts, p) && SameHigh(rs, ts)
    ensures C.Run(1, vs) != C.Run(1, ws)
  {
    var n := |rs|;
    var k := FirstDifference(rs, ts);
    assert rs[k] / 32 == ts[k] / 32 && p <= k < p + 6;
    LowDiffers(rs[k], ts[k]);
    assert vs[n + 1 + k] == LowWord(rs[k]) && ws[n + 1 + k] == LowWord(ts[k]);
    var q := n + 1 + p;
    hide C.Run, C.IsSymbol, Expands, LowWord, HighWord;
    forall i | 0 <= i < |vs| && !(q <= i < q + 6) ensures vs[i] == ws[i] {
      SameWord(rs, ts, vs, ws, data, i);
    }
    forall i | q <= i < q + 6 ensures C.IsSymbol(vs[i]) && C.IsSymbol(ws[i]) {
      SymbolHere(rs, vs, data, i);
      SymbolHere(ts, ws, data, i);
    }
    C.BurstChangesRegister(vs, ws, q);
  }

  /** Only upper bits differ, in ASCII: the inputs differ within six symbols of the first part. */
  lemma HighWindow(rs: seq<Rune>, ts: seq<Rune>, vs: seq<C.Word>, ws: seq<C.Word>, data: seq<nat>, p: nat)
    requires Symbols(data) && |data| >= 6 && Expands(rs, vs, data) && |rs| == |ts| && Expands(ts, ws, data)
    requires Window(rs, ts, p) && SameLow(rs, ts) && AsciiOnly(rs) && AsciiOnly(ts)
    ensures C.Run(1, vs) != C.Run(1, ws)
  {
    var k := FirstDifference(rs, ts);
    assert rs[k] % 32 == ts[k] % 32 && p <= k < p + 6;
    HighDiffers(rs[k], ts[k]);
    assert vs[k] == HighWord(rs[k]) && ws[k] == HighWord(ts[k]);
    hide C.Run, C.IsSymbol, Expands, LowWord, HighWord;
    forall i | 0 <= i < |vs| && !(p <= i < p + 6) ensures vs[i] == ws[i] {
      SameWord(rs, ts, vs, ws, data, i);
    }
    forall i | p <= i < p + 6 ensures C.IsSymbol(vs[i]) && C.IsSymbol(ws[i]) {
      SymbolHere(rs, vs, data, i);
      SymbolHere(ts, ws, data, i);
    }
    C.BurstChangesRegister(vs, ws, p);
  }

  /** t is s with its prefix replaced by one of as many runes. */
  predicate Relabelled(s: GoString, t: GoString, other: GoString) {
    LastSeparator(s) >= 0 && t == other + s[LastSeparator(s)..]
  }

  /**
   Exchanging prefix runes of an accepted string within six consecutive positions is
   rejected as a checksum error: for runes that keep their upper bits under any prefix,
   for runes that keep their low five bits under ASCII prefixes.
   */
  lemma PrefixBurstRejected(s: GoString, t: GoString, other: GoString, p: nat)
    requires Decoded(s).Ok? && Relabelled(s, t, other)
    requires var rs, ts := Runes(Decoded(s).value.hrp), Runes(other);
      && Window(rs, ts, p)
      && (SameHigh(rs, ts) || (SameLow(rs, ts) && AsciiOnly(rs) && AsciiOnly(ts)))
    ensures Decoded(t) == Err(InvalidChecksum)
  {
    var sep := LastSeparator(s);
    hide *;
    AcceptedParts(s);
    RelabelledText(s, t, other);
    NoRunes(other);
    NoRunes(s[..sep]);
    WindowLengths(Runes(s[..sep]), Runes(other), p);
    SeparatorOfEncoded(other, s[sep + 1..]);
    RelabelledVerifies(s[..sep], other, SymbolsOf(s[sep + 1..]), p);
    DecodedInvalid(t, other, s[sep + 1..]);
  }

  lemma WindowLengths(rs: seq<Rune>, ts: seq<Rune>, p: nat)
    requires Window(rs, ts, p)
    ensures rs != [] && ts != []
  {
  }

  lemma RelabelledText(s: GoString, t: GoString, other: GoString)
    requires Relabelled(s, t, other) && s[LastSeparator(s)] == SEPARATOR
    ensures t == other + [SEPARATOR] + s[LastSeparator(s) + 1..]
  {
    hide LastSeparator;
  }

  lemma NoRunes(s: GoString)
    ensures s == [] <==> Runes(s) == []
  {
  }

  lemma AcceptedParts(s: GoString)
    requires Decoded(s).Ok?
    ensures var sep := LastSeparator(s);
      && 1 <= sep && sep + 7 <= |s| && Decoded(s).value.hrp == s[..sep] && s[sep] == SEPARATOR
      && AllInCharset(s[sep + 1..]) && Verifies(s[..sep], SymbolsOf(s[sep + 1..]))
  {
    hide Verifies, AllInCharset, SymbolsOf, LastSeparator;
  }

  lemma RelabelledVerifies(hrp: GoString, other: GoString, ds: seq<nat>, p: nat)
    requires Symbols(ds) && |ds| >= 6 && Verifies(hrp, ds)
    requires var rs, ts := Runes(hrp), Runes(other);
      && Window(rs, ts, p)
      && (SameHigh(rs, ts) || (SameLow(rs, ts) && AsciiOnly(rs) && AsciiOnly(ts)))
    ensures !Verifies(other, ds)
  {
    ChecksumInput(hrp, ds);
    ChecksumInput(other, ds);
    var rs, ts := Runes(hrp), Runes(other);
    hide Runes, HrpWords, Words, Expands, C.Run;
    var vs, ws := HrpWords(hrp) + Words(ds), HrpWords(other) + Words(ds);
    if SameHigh(rs, ts) {
      LowWindow(rs, ts, vs, ws, ds, p);
    } else {
      HighWindow(rs, ts, vs, ws, ds, p);
    }
  }

  lemma DecodedInvalid(t: GoString, other: GoString, tail: GoString)
    requires other != [] && |tail| >= 6 && AllInCharset(tail) && t == other + [SEPARATOR] + tail
    requires LastSeparator(t) == |other| && !Verifies(other, SymbolsOf(tail))
    ensures Decoded(t) == Err(InvalidChecksum)
  {
    hide Verifies, InCharset, SymbolOf, LastSeparator;
    assert t[..|other|] == other && t[|other| + 1..] == tail;
  }
}
