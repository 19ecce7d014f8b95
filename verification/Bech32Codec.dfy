/**
 The loops of crypto/bech32.go, each proved to return what module Bech32 specifies.
 */
module Bech32Codec {
  import opened Prelude
  import opened Utf8
  import opened Types
  import opened Regroup
  import opened Bech32
  import C = Checksum

  /** The prefix as checksum input: two passes over its runes. */
  method ExpandHrp(hrp: GoString) returns (values: seq<C.Word>)
    ensures values == HrpWords(hrp)
  {
    hide High, LowBits, HighWord, LowWord, FirstRune, Runes;
    ghost var rs := Runes(hrp);
    ghost var seen := [];
    EmptyBits();
    assert [] + Runes(hrp[0..]) == rs by { assert hrp[0..] == hrp; }
    assert hrp[|hrp|..] == [];
    NoRunes();
    values := [];
    var i := 0;
    while i < |hrp|
      invariant i <= |hrp|
      invariant seen + Runes(hrp[i..]) == rs && values == High(seen)
    {
      var d := FirstRune(hrp[i..]);
      RunesFrom(hrp, i);
      SnocBits(seen, d.rune);
      values := values + [HighWord(d.rune)];
      seen := seen + [d.rune];
      i := i + d.width;
    }
    assert seen == rs;
    values := values + [0];
    ghost var head := values;
    seen := [];
    i := 0;
    while i < |hrp|
      invariant i <= |hrp|
      invariant seen + Runes(hrp[i..]) == rs && values == head + LowBits(seen)
    {
      var d := FirstRune(hrp[i..]);
      RunesFrom(hrp, i);
      SnocBits(seen, d.rune);
      values := values + [LowWord(d.rune)];
      seen := seen + [d.rune];
      i := i + d.width;
    }
    assert seen == rs;
  }

  lemma RunesFrom(s: GoString, i: nat)
    requires i < |s|
    ensures var d := FirstRune(s[i..]); Runes(s[i..]) == [d.rune] + Runes(s[i + d.width..])
  {
    var d := FirstRune(s[i..]);
    assert s[i..][d.width..] == s[i + d.width..];
  }

  lemma NoRunes()
    ensures Runes([]) == []
  {
  }

  lemma EmptyBits()
    ensures High([]) == [] && LowBits([]) == []
  {
  }

  lemma SnocBits(rs: seq<Rune>, r: Rune)
    ensures High(rs + [r]) == High(rs) + [HighWord(r)]
    ensures LowBits(rs + [r]) == LowBits(rs) + [LowWord(r)]
  {
    hide HighWord, LowWord;
  }

  method AppendData(values: seq<C.Word>, data: seq<nat>) returns (all: seq<C.Word>)
    requires Symbols(data)
    ensures all == values + Words(data)
  {
    all := values;
    for i := 0 to |data|
      invariant all == values + Words(data)[..i]
    {
      all := all + [data[i] as C.Word];
    }
  }

  method CreateChecksum(hrp: GoString, data: seq<nat>) returns (six: seq<nat>)
    requires Symbols(data)
    ensures six == ChecksumOf(hrp, data)
  {
    var values := ExpandHrp(hrp);
    values := AppendData(values, data);
    values := values + [0, 0, 0, 0, 0, 0];
    assert values == HrpWords(hrp) + Words(data) + C.Zeros(6);
    var polymod := C.Polymod(values);
    polymod := C.Xor(polymod, 1);
    var shift := 25;
    six := [];
    for i := 0 to 6
      invariant shift == 5 * (5 - i)
      invariant six == Naturals(C.SplitSix(polymod))[..i]
    {
      six := six + [SymbolAt(polymod, i)];
      shift := shift - 5;
    }
  }

  /** `(p >> (5 * (5 - i))) & 0x1f`, the shift being one of six constants. */
  function SymbolAt(p: C.Word, i: nat): (v: nat)
    requires i < 6
    ensures v == Naturals(C.SplitSix(p))[i]
  {
    match i
    case 0 => ((p >> 25) & 0x1f) as nat
    case 1 => ((p >> 20) & 0x1f) as nat
    case 2 => ((p >> 15) & 0x1f) as nat
    case 3 => ((p >> 10) & 0x1f) as nat
    case 4 => ((p >> 5) & 0x1f) as nat
    case _ => (p & 0x1f) as nat
  }

  method VerifyChecksum(hrp: GoString, data: seq<nat>) returns (ok: bool)
    requires Symbols(data)
    ensures ok == Verifies(hrp, data)
  {
    var values := ExpandHrp(hrp);
    values := AppendData(values, data);
    var polymod := C.Polymod(values);
    ok := polymod == 1;
  }

  method Encode(hrp: GoString, data: seq<byte>) returns (s: GoString)
    ensures s == Encoded(hrp, data)
  {
    hide ChecksumOf, Padded, CharAt;
    FitsBytes(data);
    var converted := ConvertBits(data, 8, 5, true);
    var ds := converted.value;
    assert ds == Payload8To5(data);
    var checksum := CreateChecksum(hrp, ds);
    ChecksumSymbols(hrp, ds);
    var combined := ds + checksum;
    s := hrp + [SEPARATOR];
    for i := 0 to |combined|
      invariant s == hrp + [SEPARATOR] + Text(combined)[..i]
    {
      s := s + [CharAt(combined[i])];
    }
  }

  /** The first loop of Decode: every rune of the data part must be in the charset. */
  method ValidCharacters(data: GoString) returns (ok: bool)
    ensures ok == AllInCharset(data)
  {
    hide InCharset;
    var i := 0;
    while i < |data|
      invariant i <= |data|
      invariant AllInCharset(data[..i])
    {
      var d := FirstRune(data[i..]);
      CharsetBytes(data, i);
      if !InCharset(d.rune) {
        return false;
      }
      i := i + d.width;
    }
    assert data[..|data|] == data;
    ok := true;
  }

  /** A rune of the charset is one ASCII byte; any other rune starts with a byte outside the charset. */
  lemma CharsetBytes(data: GoString, i: nat)
    requires i < |data|
    ensures var d := FirstRune(data[i..]);
      && (InCharset(d.rune) <==> InCharset(data[i]))
      && (InCharset(d.rune) ==> d.width == 1)
  {
    var d := FirstRune(data[i..]);
    assert data[i..][0] == data[i];
    if InCharset(d.rune) { CharsetAscii(d.rune); }
    if InCharset(data[i]) { CharsetAscii(data[i]); }
  }

  method Decode(s: GoString) returns (r: Result<Decoding, DecodeError>)
    ensures r == Decoded(s)
  {
    hide Verifies, Exact, InCharset, SymbolOf;
    var sep := LastSeparator(s);
    if sep < 1 || sep + 7 > |s| || sep + 1 + 6 > |s| {
      return Err(InvalidString);
    }
    var hrp, data := s[..sep], s[sep + 1..];
    var valid := ValidCharacters(data);
    if !valid {
      return Err(InvalidCharacter);
    }
    var decoded := [];
    for i := 0 to |data|
      invariant decoded == SymbolsOf(data)[..i]
    {
      decoded := decoded + [SymbolOf(data[i])];
    }
    assert decoded == SymbolsOf(data);
    var verified := VerifyChecksum(hrp, decoded);
    if !verified {
      return Err(InvalidChecksum);
    }
    var payload := decoded[..|decoded| - 6];
    FitsSymbols(payload);
    var converted := ConvertBits(payload, 5, 8, false);
    match converted
    case None => r := Err(InvalidPadding);
    case Some(bytes) =>
      ExactBytes(payload);
      r := Ok(Decoding(hrp, bytes));
  }

  // ---------- addresses ----------

  method AddressToBech32(address: Address, hrp: GoString) returns (s: GoString)
    ensures s == Encoded(hrp, address)
  {
    s := Encode(hrp, address);
  }

  /** The address a string stands for: its twenty data bytes, under any prefix. */
  function ParsedAddress(s: GoString): Result<Address, DecodeError> {
    match Decoded(s)
    case Err(e) => Err(e)
    case Ok(d) => if |d.data| != 20 then Err(InvalidLength) else Ok(d.data)
  }

  method Bech32ToAddress(s: GoString) returns (r: Result<Address, DecodeError>)
    ensures r == ParsedAddress(s)
  {
    hide Decoded;
    var d := Decode(s);
    match d
    case Err(e) => r := Err(e);
    case Ok(decoding) =>
      if |decoding.data| != 20 {
        r := Err(InvalidLength);
      } else {
        var data := decoding.data;
        r := Ok(data);
      }
  }

  /** Reading an address back from its bech32 form, under any prefix the decoder accepts. */
  lemma AddressRoundTrip(hrp: GoString, address: Address)
    requires hrp != []
    ensures ParsedAddress(Encoded(hrp, address)) == Ok(address)
  {
    DecodeOfEncode(hrp, address);
  }

  /** Two strings for one address under one prefix are the same string. */
  lemma AddressTextUnique(s: GoString, t: GoString)
    requires ParsedAddress(s).Ok? && ParsedAddress(t) == ParsedAddress(s)
    requires Decoded(s).value.hrp == Decoded(t).value.hrp
    ensures s == t
  {
    EncodeOfDecode(s);
    EncodeOfDecode(t);
  }
}
