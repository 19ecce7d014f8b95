/**
 Positional numbers: a list of w-bit groups, most significant first, read as one
 natural number. Byte strings, 5-bit groups and 64-bit big-endian fields are all
 instances, so the codec, the proof-of-work targets and the hash pre-images share
 the lemmas below.
 */
module Digits {

  function Pow2(n: nat): (p: nat)
    ensures p > 0
  {
    if n == 0 then 1 else 2 * Pow2(n - 1)
  }

  lemma {:induction false} Pow2Add(m: nat, n: nat)
    ensures Pow2(m + n) == Pow2(m) * Pow2(n)
  {
    if m > 0 {
      Pow2Add(m - 1, n);
      assert Pow2(m + n) == 2 * Pow2(m - 1 + n);
    }
  }

  lemma Pow2Monotone(m: nat, n: nat)
    requires m <= n
    ensures Pow2(m) <= Pow2(n)
  {
    Pow2Add(m, n - m);
    var p, q := Pow2(m), Pow2(n - m);
    assert p * q >= p * 1;
  }

  lemma Pow2Small()
    ensures Pow2(1) == 2 && Pow2(3) == 8 && Pow2(4) == 16 && Pow2(5) == 32 && Pow2(8) == 256
    ensures Pow2(32) == 0x1_0000_0000 && Pow2(64) == 0x1_0000_0000_0000_0000
  {
    assert Pow2(4) == 16;
    Pow2Add(4, 4); Pow2Add(8, 8); Pow2Add(16, 16); Pow2Add(32, 32);
  }

  /** Every element is a w-bit group. */
  predicate Fits(ds: seq<nat>, w: nat) {
    forall i :: 0 <= i < |ds| ==> ds[i] < Pow2(w)
  }

  /** The number the groups spell, most significant group first. */
  function Value(ds: seq<nat>, w: nat): nat {
    if ds == [] then 0 else Value(ds[..|ds| - 1], w) * Pow2(w) + ds[|ds| - 1]
  }

  /** The n lowest w-bit groups of v, most significant first. */
  function Groups(v: nat, n: nat, w: nat): (ds: seq<nat>)
    ensures |ds| == n
    ensures Fits(ds, w)
  {
    var p := Pow2(w);
    if n == 0 then [] else Groups(Quotient(v, p), n - 1, w) + [Remainder(v, p)]
  }

  function Quotient(v: nat, d: nat): (q: nat)
    requires d > 0
    ensures q <= v
  {
    QuotientRange(v, d);
    v / d
  }

  lemma QuotientRange(v: nat, d: nat)
    requires d > 0
    ensures 0 <= v / d <= v
  {
    var q, r := v / d, v % d;
    assert v == q * d + r;
    assert 0 <= r < d;
    NegativeProduct(q, d);
    if 0 <= q {
      MulMonotone(1, d, q);
    }
  }

  lemma NegativeProduct(q: int, d: nat)
    requires d > 0
    ensures q < 0 ==> q * d <= 0 - (d as int)
  {
    if q < 0 {
      MulMonotone(1, -q, d);
    }
  }

  function Remainder(v: nat, d: nat): (r: nat)
    requires d > 0
    ensures r < d
  {
    v % d
  }

  lemma DivMod(v: nat, d: nat)
    requires d > 0
    ensures v == Quotient(v, d) * d + Remainder(v, d)
  {
  }

  lemma ValueSnoc(ds: seq<nat>, x: nat, w: nat)
    ensures Value(ds + [x], w) == Value(ds, w) * Pow2(w) + x
  {
    assert (ds + [x])[..|ds|] == ds;
  }

  lemma MulSplit(a: nat, b: nat, q: nat)
    ensures (a + b) * q == a * q + b * q
  {
  }

  lemma MulMonotone(a: nat, b: nat, q: nat)
    requires a <= b
    ensures a * q <= b * q
  {
    MulSplit(a, b - a, q);
  }

  lemma Commutes(a: nat, b: nat)
    ensures a * b == b * a
  {
  }

  lemma MulAssoc(a: nat, p: nat, q: nat)
    ensures a * p * q == a * (p * q)
  {
  }

  lemma {:induction false} ValueBound(ds: seq<nat>, w: nat)
    requires Fits(ds, w)
    ensures Value(ds, w) < Pow2(w * |ds|)
  {
    if ds == [] {
      assert w * |ds| == 0;
    } else {
      var front := ds[..|ds| - 1];
      ValueBound(front, w);
      WidthSplit(w, |ds|);
      Pow2Add(w * |front|, w);
      MulMonotone(Value(front, w) + 1, Pow2(w * |front|), Pow2(w));
      MulSplit(Value(front, w), 1, Pow2(w));
    }
  }

  lemma WidthSplit(w: nat, n: nat)
    requires n > 0
    ensures w * n == w * (n - 1) + w
  {
  }

  /** Splitting a list of groups splits its number. */
  lemma {:induction false} ValueConcat(xs: seq<nat>, ys: seq<nat>, w: nat)
    ensures Value(xs + ys, w) == Value(xs, w) * Pow2(w * |ys|) + Value(ys, w)
  {
    if ys == [] {
      assert xs + ys == xs;
      assert w * |ys| == 0;
    } else {
      var front, last := ys[..|ys| - 1], ys[|ys| - 1];
      ValueConcat(xs, front, w);
      assert xs + ys == (xs + front) + [last];
      ValueSnoc(xs + front, last, w);
      WidthSplit(w, |ys|);
      Pow2Add(w * |front|, w);
      MulSplit(Value(xs, w) * Pow2(w * |front|), Value(front, w), Pow2(w));
      MulAssoc(Value(xs, w), Pow2(w * |front|), Pow2(w));
    }
  }

  lemma DivModUnique(a: nat, b: nat, d: nat, r: nat)
    requires r < d && a == b * d + r
    ensures Quotient(a, d) == b && Remainder(a, d) == r
  {
    DivMod(a, d);
    var q := Quotient(a, d);
    if q < b {
      MulMonotone(q + 1, b, d);
      MulSplit(q, 1, d);
    } else if b < q {
      MulMonotone(b + 1, q, d);
      MulSplit(b, 1, d);
    }
  }

  lemma QuotientBound(v: nat, p: nat, q: nat)
    requires q > 0 && v < p * q
    ensures Quotient(v, q) < p
  {
    DivMod(v, q);
    if p <= Quotient(v, q) {
      MulMonotone(p, Quotient(v, q), q);
    }
  }

  /** Groups inverts Value on lists of groups. */
  lemma {:induction false} GroupsOfValue(ds: seq<nat>, w: nat)
    requires Fits(ds, w)
    ensures Groups(Value(ds, w), |ds|, w) == ds
  {
    if ds != [] {
      var front, last := ds[..|ds| - 1], ds[|ds| - 1];
      GroupsOfValue(front, w);
      DivModUnique(Value(ds, w), Value(front, w), Pow2(w), last);
      assert ds == front + [last];
    }
  }

  /** Value inverts Groups on numbers that fit. */
  lemma {:induction false} ValueOfGroups(v: nat, n: nat, w: nat)
    requires v < Pow2(w * n)
    ensures Value(Groups(v, n, w), w) == v
  {
    if n == 0 {
      assert w * n == 0;
    } else {
      WidthSplit(w, n);
      Pow2Add(w * (n - 1), w);
      var q := Quotient(v, Pow2(w));
      QuotientBound(v, Pow2(w * (n - 1)), Pow2(w));
      ValueOfGroups(q, n - 1, w);
      ValueSnoc(Groups(q, n - 1, w), Remainder(v, Pow2(w)), w);
      DivMod(v, Pow2(w));
    }
  }

  lemma GroupsInjective(u: nat, v: nat, n: nat, w: nat)
    requires u < Pow2(w * n) && v < Pow2(w * n)
    requires Groups(u, n, w) == Groups(v, n, w)
    ensures u == v
  {
    ValueOfGroups(u, n, w);
    ValueOfGroups(v, n, w);
  }
}
