/** Exact decimal numbers: the values of NUMBER tokens. The source stores them
    as Python `int` when integral and as `float` otherwise; here both are one
    canonical decimal, integral exactly when its scale is zero. */
module Decimals {
  import opened Digits

  /** The number `mant / 10^scale`. */
  datatype Decimal = Decimal(mant: int, scale: nat)

  /** No trailing zero after the decimal point: each number has exactly one
      canonical form, and it is integral exactly when `scale == 0`. */
  predicate Canonical(d: Decimal) {
    d.scale == 0 || d.mant % 10 != 0
  }

  /** `a` and `b` denote the same rational number. */
  ghost predicate SameValue(a: Decimal, b: Decimal) {
    a.mant * Pow10(b.scale) == b.mant * Pow10(a.scale)
  }

  function Abs(i: int): nat {
    if i < 0 then -i else i
  }

  /** Drops trailing fractional zeros: `100.0` becomes the integer `100`. */
  function Normalize(d: Decimal): (r: Decimal)
    ensures Canonical(r) && SameValue(r, d)
    ensures r.scale <= d.scale
    decreases d.scale
  {
    if d.scale > 0 && d.mant % 10 == 0 then
      var r := Normalize(Decimal(d.mant / 10, d.scale - 1));
      ScaleBack(r, d);
      r
    else
      d
  }

  lemma ScaleBack(r: Decimal, d: Decimal)
    requires d.scale > 0 && d.mant % 10 == 0
    requires SameValue(r, Decimal(d.mant / 10, d.scale - 1))
    ensures SameValue(r, d)
  {
    var q := d.mant / 10;
    assert d.mant == 10 * q;
    assert Pow10(d.scale) == 10 * Pow10(d.scale - 1);
    calc {
      r.mant * Pow10(d.scale);
      r.mant * (10 * Pow10(d.scale - 1));
      10 * (r.mant * Pow10(d.scale - 1));
      10 * (q * Pow10(r.scale));
      (10 * q) * Pow10(r.scale);
      d.mant * Pow10(r.scale);
    }
  }

  /** Equal values have equal canonical forms, so structural equality of
      canonical decimals is numeric equality. */
  lemma CanonicalUnique(a: Decimal, b: Decimal)
    requires Canonical(a) && Canonical(b) && SameValue(a, b)
    ensures a == b
  {
    if a.scale <= b.scale {
      CanonicalUniqueOrdered(a, b);
    } else {
      CanonicalUniqueOrdered(b, a);
    }
    MulCancel(a.mant, b.mant, Pow10(a.scale));
  }

  lemma CanonicalUniqueOrdered(a: Decimal, b: Decimal)
    requires Canonical(b) && SameValue(a, b)
    requires a.scale <= b.scale
    ensures a.scale == b.scale
  {
    var k := b.scale - a.scale;
    if k > 0 {
      var p := Pow10(a.scale);
      var q := Pow10(k - 1);
      Pow10Add(a.scale, k);
      assert Pow10(b.scale) == p * (10 * q);
      Regroup(a.mant, p, q);
      MulCancel(10 * (a.mant * q), b.mant, p);
    }
  }

  lemma Regroup(x: int, p: nat, q: nat)
    ensures x * (p * (10 * q)) == (10 * (x * q)) * p
  {
  }

  lemma MulCancel(x: int, y: int, p: nat)
    requires p > 0 && x * p == y * p
    ensures x == y
  {
    assert (x - y) * p == 0;
  }

  function Neg(d: Decimal): (r: Decimal)
    ensures Canonical(d) ==> Canonical(r)
    ensures SameValue(r, Decimal(-d.mant, d.scale))
  {
    Decimal(-d.mant, d.scale)
  }

  /** The exact product of two decimals, in canonical form. */
  function Mul(a: Decimal, b: Decimal): (r: Decimal)
    ensures Canonical(r)
    ensures SameValue(r, Decimal(a.mant * b.mant, a.scale + b.scale))
  {
    Normalize(Decimal(a.mant * b.mant, a.scale + b.scale))
  }

  /** Python's `str` of the number in positional notation: the integer text
      when integral (`100`, never `100.0`), else sign, integer part, `.`,
      and exactly `scale` fractional digits (`0.01`, `-1.57`). */
  function DecimalText(d: Decimal): (r: string)
    ensures |r| > 0 && (r[0] == '-' <==> d.mant < 0)
    ensures d.scale == 0 <==> '.' !in r
  {
    var sign := if d.mant < 0 then "-" else "";
    if d.scale == 0 then
      var a := NatText(Abs(d.mant));
      assert IntText(d.mant) == sign + a;
      assert !IsDigit('-') && IsDigit(a[0]);
      assert forall i :: 0 <= i < |a| ==> a[i] != '.';
      IntText(d.mant)
    else
      var (hi, lo) := SplitFraction(Abs(d.mant), d.scale);
      var a := NatText(hi);
      var r := sign + a + "." + PadLeft(NatText(lo), d.scale);
      assert r[|sign| + |a|] == '.';
      assert IsDigit(a[0]);
      r
  }

  /** Integer and fractional digits of `a / 10^scale`. */
  function SplitFraction(a: nat, scale: nat): (r: (nat, nat))
    ensures r.1 < Pow10(scale)
    ensures r.0 * Pow10(scale) + r.1 == a
  {
    var p := Pow10(scale);
    DivMod(a, p);
    (a / p, a % p)
  }

  lemma DivMod(a: nat, p: nat)
    requires p >= 1
    ensures 0 <= a / p && 0 <= a % p < p && (a / p) * p + a % p == a
  {
  }

  /** The fractional part of the text has exactly `scale` digits, and the
      digits before and after the point read back as `|mant|`. */
  lemma FractionDigits(d: Decimal)
    requires d.scale > 0
    ensures var (hi, lo) := SplitFraction(Abs(d.mant), d.scale);
      |PadLeft(NatText(lo), d.scale)| == d.scale
      && DigitsValue(NatText(hi) + PadLeft(NatText(lo), d.scale)) == Abs(d.mant)
  {
    var (hi, lo) := SplitFraction(Abs(d.mant), d.scale);
    NatTextLength(lo, d.scale);
    var frac := PadLeft(NatText(lo), d.scale);
    DigitsValueAppend(NatText(hi), frac);
    PadLeftValue(NatText(lo), d.scale);
    NatTextValue(hi);
    NatTextValue(lo);
  }
}
