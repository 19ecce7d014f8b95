/**
 Regrouping bits (`convertBits` in crypto/bech32.go): a list of f-bit groups is re-cut
 into t-bit groups. The specification re-cuts the number the groups spell; the method
 is the accumulator loop.
 */
module Regroup {
  import opened Digits
  import opened Prelude

  /** How many t-bit groups are needed to hold `bits` bits. */
  function Ceiling(bits: nat, t: nat): (n: nat)
    requires t > 0
  {
    Quotient(bits + (t - 1), t)
  }

  /** With padding: zero bits are added on the right up to a whole group. */
  function Padded(data: seq<nat>, f: nat, t: nat): (out: seq<nat>)
    requires t > 0
  {
    var n := Ceiling(f * |data|, t);
    CeilingCovers(f * |data|, t);
    Groups(Value(data, f) * Pow2(n * t - f * |data|), n, t)
  }

  lemma CeilingCovers(bits: nat, t: nat)
    requires t > 0
    ensures bits <= Ceiling(bits, t) * t < bits + t
  {
    DivMod(bits + (t - 1), t);
  }

  /** Without padding: the leftover bits must be fewer than f and all zero. */
  function Exact(data: seq<nat>, f: nat, t: nat): (out: Option<seq<nat>>)
    requires t > 0
  {
    var n, rest := Quotient(f * |data|, t), Remainder(f * |data|, t);
    if rest < f && Remainder(Value(data, f), Pow2(rest)) == 0
    then Some(Groups(Quotient(Value(data, f), Pow2(rest)), n, t))
    else None
  }

  function ConvertedBits(data: seq<nat>, f: nat, t: nat, pad: bool): Option<seq<nat>>
    requires t > 0
  {
    if pad then Some(Padded(data, f, t)) else Exact(data, f, t)
  }

  /** The accumulator loop: what was cut off so far, then the bits still held. */
  ghost predicate Cut(data: seq<nat>, f: nat, result: seq<nat>, t: nat, acc: nat, bits: nat) {
    && Fits(result, t)
    && t * |result| + bits == f * |data|
    && Value(result, t) * Pow2(bits) + Remainder(acc, Pow2(bits)) == Value(data, f)
  }

  /**
   The unsigned operations are written as arithmetic: `x << k` multiplies by 2^k,
   `x >> k` divides, `& (2^k - 1)` takes the remainder, and `|` of disjoint bits adds.
   Every intermediate value stays far below 64 bits.
   */
  method ConvertBits(data: seq<nat>, f: nat, t: nat, pad: bool) returns (out: Option<seq<nat>>)
    requires 1 <= f <= 8 && 1 <= t <= 8 && Fits(data, f)
    ensures out == ConvertedBits(data, f, t, pad)
  {
    hide Cut, Padded, Exact, Remainder, Quotient, Fits;
    var acc: nat, bits: nat := 0, 0;
    var result := [];
    CutStart(data, f, t);
    for i := 0 to |data|
      invariant bits < t
      invariant Cut(data[..i], f, result, t, acc, bits)
    {
      ghost var before := acc;
      acc := Remainder(acc * Pow2(f) + data[i], Pow2(f + t - 1));
      Absorb(data, i, f, result, t, before, bits);
      bits := bits + f;
      while bits >= t
        invariant bits < f + t
        invariant Cut(data[..i + 1], f, result, t, acc, bits)
      {
        bits := bits - t;
        Emit(data[..i + 1], f, result, t, acc, bits);
        result := result + [Remainder(Quotient(acc, Pow2(bits)), Pow2(t))];
      }
    }
    assert data[..|data|] == data;
    if pad {
      if bits > 0 {
        PadTail(data, f, result, t, acc, bits);
        result := result + [Remainder(acc * Pow2(t - bits), Pow2(t))];
      } else {
        NoTail(data, f, result, t, acc);
      }
      out := Some(result);
    } else {
      ExactTail(data, f, result, t, acc, bits);
      if bits >= f || Remainder(acc * Pow2(t - bits), Pow2(t)) != 0 {
        out := None;
      } else {
        out := Some(result);
      }
    }
  }

  // ---------- arithmetic of the loop ----------

  /** Reducing first by a larger power changes nothing. */
  lemma RemainderOfRemainder(a: nat, m: nat, n: nat)
    requires n <= m
    ensures Remainder(Remainder(a, Pow2(m)), Pow2(n)) == Remainder(a, Pow2(n))
  {
    Pow2Add(m - n, n);
    var p, q := Pow2(m - n), Pow2(n);
    var x, r := Quotient(a, Pow2(m)), Remainder(a, Pow2(m));
    DivMod(a, Pow2(m));
    DivMod(r, q);
    MulAssoc(x, p, q);
    MulSplit(x * p, Quotient(r, q), q);
    DivModUnique(a, x * p + Quotient(r, q), q, Remainder(r, q));
  }

  /** Shifting left keeps the low bits. */
  lemma RemainderOfShift(a: nat, n: nat, f: nat, b: nat)
    requires b < Pow2(f)
    ensures Remainder(a * Pow2(f) + b, Pow2(n + f)) == Remainder(a, Pow2(n)) * Pow2(f) + b
  {
    var x, r := Quotient(a, Pow2(n)), Remainder(a, Pow2(n));
    DivMod(a, Pow2(n));
    Pow2Add(n, f);
    MulSplit(x * Pow2(n), r, Pow2(f));
    MulAssoc(x, Pow2(n), Pow2(f));
    MulMonotone(r + 1, Pow2(n), Pow2(f));
    MulSplit(r, 1, Pow2(f));
    DivModUnique(a * Pow2(f) + b, x, Pow2(n + f), r * Pow2(f) + b);
  }

  /** The low m + n bits are the low m bits above the low n bits. */
  lemma RemainderSplit(a: nat, m: nat, n: nat)
    ensures Remainder(a, Pow2(m + n))
      == Remainder(Quotient(a, Pow2(n)), Pow2(m)) * Pow2(n) + Remainder(a, Pow2(n))
  {
    var h, r := Quotient(a, Pow2(n)), Remainder(a, Pow2(n));
    DivMod(a, Pow2(n));
    RemainderOfShift(h, m, n, r);
  }

  lemma CutStart(data: seq<nat>, f: nat, t: nat)
    ensures Cut(data[..0], f, [], t, 0, 0)
  {
    assert f * |data[..0]| == 0;
    assert t * 0 == 0;
    DivModUnique(0, 0, Pow2(0), 0);
  }

  lemma Absorb(data: seq<nat>, i: nat, f: nat, result: seq<nat>, t: nat, acc: nat, bits: nat)
    requires f > 0 && t > 0 && i < |data| && Fits(data, f) && bits < t
    requires Cut(data[..i], f, result, t, acc, bits)
    ensures Cut(data[..i + 1], f, result, t, Remainder(acc * Pow2(f) + data[i], Pow2(f + t - 1)), bits + f)
  {
    hide Value, Pow2, Remainder;
    var acc' := acc * Pow2(f) + data[i];
    RemainderOfRemainder(acc', f + t - 1, bits + f);
    RemainderOfShift(acc, bits, f, data[i]);
    assert data[..i + 1] == data[..i] + [data[i]];
    ValueSnoc(data[..i], data[i], f);
    Pow2Add(bits, f);
    var v, r := Value(result, t), Remainder(acc, Pow2(bits));
    MulAssoc(v, Pow2(bits), Pow2(f));
    MulSplit(v * Pow2(bits), r, Pow2(f));
    WidthSplit(f, i + 1);
  }

  lemma Emit(data: seq<nat>, f: nat, result: seq<nat>, t: nat, acc: nat, bits: nat)
    requires t > 0 && Cut(data, f, result, t, acc, bits + t)
    ensures Cut(data, f, result + [Remainder(Quotient(acc, Pow2(bits)), Pow2(t))], t, acc, bits)
  {
    hide Pow2, Remainder, Quotient;
    var x := Remainder(Quotient(acc, Pow2(bits)), Pow2(t));
    RemainderSplit(acc, t, bits);
    ValueSnoc(result, x, t);
    Pow2Add(t, bits);
    Regrouped(Value(result, t), Pow2(t), Pow2(bits), x);
    WidthSplit(t, |result| + 1);
    hide Value;
  }

  lemma Regrouped(v: nat, q: nat, p: nat, x: nat)
    ensures (v * q + x) * p == v * (q * p) + x * p
  {
    MulAssoc(v, q, p);
    MulSplit(v * q, x, p);
  }

  lemma CeilingUnique(bits: nat, t: nat, n: nat)
    requires t > 0 && bits <= n * t < bits + t
    ensures Ceiling(bits, t) == n
  {
    DivModUnique(bits + (t - 1), n, t, bits + (t - 1) - n * t);
  }

  lemma NoTail(data: seq<nat>, f: nat, result: seq<nat>, t: nat, acc: nat)
    requires t > 0 && Cut(data, f, result, t, acc, 0)
    ensures result == Padded(data, f, t)
  {
    var bits, n := f * |data|, |result|;
    Commutes(t, n);
    assert bits == n * t;
    CeilingUnique(bits, t, n);
    assert Pow2(0) == 1 && Remainder(acc, 1) == 0;
    hide Pow2, Value, Groups, Quotient, Remainder, Ceiling;
    GroupsOfValue(result, t);
    assert Value(result, t) == Value(data, f);
  }

  /** The last, partial group is its bits moved to the top of the group. */
  lemma TailGroup(acc: nat, t: nat, bits: nat)
    requires bits <= t
    ensures Remainder(acc * Pow2(t - bits), Pow2(t)) == Remainder(acc, Pow2(bits)) * Pow2(t - bits)
  {
    RemainderOfShift(acc, bits, t - bits, 0);
  }

  lemma PadTail(data: seq<nat>, f: nat, result: seq<nat>, t: nat, acc: nat, bits: nat)
    requires 0 < bits < t && Cut(data, f, result, t, acc, bits)
    ensures result + [Remainder(acc * Pow2(t - bits), Pow2(t))] == Padded(data, f, t)
  {
    var x := Remainder(acc * Pow2(t - bits), Pow2(t));
    var out := result + [x];
    WidthSplit(t, |out|);
    CeilingUnique(f * |data|, t, |out|);
    TailGroup(acc, t, bits);
    ValueSnoc(result, x, t);
    Pow2Add(bits, t - bits);
    var v, r, p := Value(result, t), Remainder(acc, Pow2(bits)), Pow2(t - bits);
    MulSplit(v * Pow2(bits), r, p);
    MulAssoc(v, Pow2(bits), p);
    assert Value(out, t) == Value(data, f) * p;
    GroupsOfValue(out, t);
  }

  lemma ExactTail(data: seq<nat>, f: nat, result: seq<nat>, t: nat, acc: nat, bits: nat)
    requires bits < t && Cut(data, f, result, t, acc, bits)
    ensures Exact(data, f, t)
      == if bits >= f || Remainder(acc * Pow2(t - bits), Pow2(t)) != 0 then None else Some(result)
  {
    DivModUnique(f * |data|, |result|, t, bits);
    TailGroup(acc, t, bits);
    var r := Remainder(acc, Pow2(bits));
    DivModUnique(Value(data, f), Value(result, t), Pow2(bits), r);
    GroupsOfValue(result, t);
    if r > 0 {
      MulMonotone(1, r, Pow2(t - bits));
    }
  }

  // ---------- the two directions undo each other ----------

  lemma PaddedShape(data: seq<nat>, f: nat, t: nat)
    requires t > 0 && Fits(data, f)
    ensures var out := Padded(data, f, t);
      var p := |out| * t - f * |data|;
      && 0 <= p < t && Fits(out, t)
      && Value(out, t) == Value(data, f) * Pow2(p)
  {
    var bits := f * |data|;
    CeilingCovers(bits, t);
    var n := Ceiling(bits, t);
    var p := n * t - bits;
    ValueBound(data, f);
    Pow2Add(bits, p);
    MulStrict(Value(data, f), Pow2(bits), Pow2(p));
    Commutes(t, n);
    hide Value, Pow2, Fits, Ceiling;
    ValueOfGroups(Value(data, f) * Pow2(p), n, t);
  }

  lemma MulStrict(a: nat, b: nat, p: nat)
    requires a < b && p > 0
    ensures a * p < b * p
  {
    MulMonotone(a + 1, b, p);
    MulSplit(a, 1, p);
  }

  /** Cutting exactly undoes cutting with padding, when the new groups are no wider than the old. */
  lemma ExactUndoesPadded(data: seq<nat>, f: nat, t: nat)
    requires 0 < t <= f && Fits(data, f)
    ensures Exact(Padded(data, f, t), t, f) == Some(data)
  {
    PaddedShape(data, f, t);
    hide Padded, Value, Pow2, Groups, Fits, Quotient, Remainder;
    var out := Padded(data, f, t);
    var p := |out| * t - f * |data|;
    Commutes(t, |out|);
    DivModUnique(t * |out|, |data|, f, p);
    DivModUnique(Value(out, t), Value(data, f), Pow2(p), 0);
    GroupsOfValue(data, f);
  }

  /** Whatever cuts exactly is the padded form of the result: there is only one way to write it. */
  lemma PaddedUndoesExact(data: seq<nat>, f: nat, t: nat)
    requires 0 < f <= t && Fits(data, f)
    requires Exact(data, f, t).Some?
    ensures Fits(Exact(data, f, t).value, t)
    ensures Padded(Exact(data, f, t).value, t, f) == data
  {
    var out := Exact(data, f, t).value;
    var rest := Remainder(f * |data|, t);
    DivMod(f * |data|, t);
    assert f * |data| == t * |out| + rest;
    DivMod(Value(data, f), Pow2(rest));
    var v := Quotient(Value(data, f), Pow2(rest));
    ValueBound(data, f);
    Pow2Add(t * |out|, rest);
    QuotientBound(Value(data, f), Pow2(t * |out|), Pow2(rest));
    ValueOfGroups(v, |out|, t);
    CeilingUnique(t * |out|, f, |data|);
    GroupsOfValue(data, f);
  }
}
