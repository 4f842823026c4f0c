/**
  Python `decimal.Decimal` values with a finite value, kept exactly:
  `coefficient * 10^exponent`. Their numeric value is an exact `real`
  (a rational), so no floating-point rounding enters the model.
 */
module Decimals {

  /** 10 to the power `n`. */
  function Pow10(n: nat): (r: nat)
    ensures r >= 1
  {
    if n == 0 then 1 else 10 * Pow10(n - 1)
  }

  lemma {:induction false} Pow10Add(a: nat, b: nat)
    ensures Pow10(a + b) == Pow10(a) * Pow10(b)
    decreases a
  {
    if a > 0 {
      Pow10Add(a - 1, b);
      assert Pow10(a + b) == 10 * Pow10(a - 1 + b);
    }
  }

  /** Euclidean division by a positive scale, stated once so that callers need not rederive it. */
  lemma DivMod(a: int, p: nat)
    requires p >= 1
    ensures a == (a / p) * p + a % p && 0 <= a % p < p
    ensures a >= 0 ==> a / p >= 0
  {
  }

  /** A finite decimal: `coefficient * 10^exponent` (`Decimal("1.1")` is `Decimal(11, -1)`). */
  datatype Decimal = Decimal(coefficient: int, exponent: int)

  /** The exact number a decimal denotes. */
  function RealValue(d: Decimal): real
  {
    if d.exponent >= 0 then (d.coefficient * Pow10(d.exponent)) as real
    else d.coefficient as real / Pow10(-d.exponent) as real
  }

  /** The decimal has no fractional part (the model of `float(d).is_integer()` without rounding). */
  predicate IsIntegral(d: Decimal)
  {
    d.exponent >= 0 || d.coefficient % Pow10(-d.exponent) == 0
  }

  /** The integer an integral decimal denotes (the model of `int(float(d))`). */
  function IntegerValue(d: Decimal): (i: int)
    requires IsIntegral(d)
    ensures i as real == RealValue(d)
  {
    if d.exponent >= 0 then d.coefficient * Pow10(d.exponent)
    else
      var p := Pow10(-d.exponent);
      var q := d.coefficient / p;
      assert d.coefficient == q * p;
      MulDivReal(q, p);
      q
  }

  /** `(q * p) / p == q` over the reals. */
  lemma MulDivReal(q: int, p: nat)
    requires p >= 1
    ensures (q * p) as real / p as real == q as real
  {
    assert (q * p) as real == q as real * p as real;
  }

  /** `IsIntegral` says exactly that the decimal's value is a whole number. */
  lemma IntegralIff(d: Decimal)
    ensures IsIntegral(d) <==> RealValue(d).Floor as real == RealValue(d)
  {
    if d.exponent < 0 {
      var p := Pow10(-d.exponent);
      var c := d.coefficient;
      FractionSplit(c, p);
    }
  }

  /** `c / p` splits into its whole part and a remainder fraction in `[0, 1)`. */
  lemma FractionSplit(c: int, p: nat)
    requires p >= 1
    ensures (c as real / p as real).Floor == c / p
    ensures c % p == 0 <==> (c / p) as real == c as real / p as real
  {
    var q, r := c / p, c % p;
    var x := c as real / p as real;
    assert c as real == q as real * p as real + r as real;
    var f := r as real / p as real;
    assert x == q as real + f;
    assert 0.0 <= f < 1.0;
  }

  /**
    A decimal in the form Python's `repr(float)` prints without an exponent:
    at least one fractional digit, and no trailing zero beyond the first.
   */
  predicate IsCanonicalFraction(d: Decimal)
  {
    d.exponent <= -1 && (d.exponent == -1 || d.coefficient % 10 != 0)
  }

  /** The canonical fraction with the same value as `d`. */
  function Canonical(d: Decimal): (r: Decimal)
    ensures IsCanonicalFraction(r)
    ensures RealValue(r) == RealValue(d)
  {
    if d.exponent >= 0 then
      var n := d.coefficient * Pow10(d.exponent);
      MulDivReal(n, 10);
      Decimal(n * 10, -1)
    else Strip(d.coefficient, -d.exponent)
  }

  /** Drops trailing zero digits of `c / 10^k` while more than one fractional digit remains. */
  function Strip(c: int, k: nat): (r: Decimal)
    requires k >= 1
    ensures IsCanonicalFraction(r)
    ensures RealValue(r) == RealValue(Decimal(c, -(k as int)))
    decreases k
  {
    if k > 1 && c % 10 == 0 then
      var r := Strip(c / 10, k - 1);
      assert RealValue(Decimal(c / 10, -(k - 1))) == RealValue(Decimal(c, -(k as int))) by {
        var p := Pow10(k - 1);
        assert Pow10(k) == 10 * p;
        assert c == (c / 10) * 10;
        assert c as real == (c / 10) as real * 10.0;
      }
      r
    else Decimal(c, -(k as int))
  }

  /** Cross-multiplication of two fractions with positive denominators. */
  lemma CrossMultiply(x: int, p: nat, y: int, q: nat)
    requires p >= 1 && q >= 1
    requires x as real / p as real == y as real / q as real
    ensures x * q == y * p
  {
    var a := x as real / p as real;
    assert a * p as real == x as real;
    assert a * q as real == y as real / q as real * q as real == y as real;
    assert (x * q) as real == a * p as real * q as real;
    assert (y * p) as real == a * q as real * p as real;
  }

  /** Two canonical fractions with the same value are the same decimal. */
  lemma CanonicalUnique(a: Decimal, b: Decimal)
    requires IsCanonicalFraction(a) && IsCanonicalFraction(b)
    requires RealValue(a) == RealValue(b)
    ensures a == b
  {
    if -a.exponent <= -b.exponent {
      CanonicalUniqueOrdered(a, b);
    } else {
      CanonicalUniqueOrdered(b, a);
    }
  }

  lemma CanonicalUniqueOrdered(a: Decimal, b: Decimal)
    requires IsCanonicalFraction(a) && IsCanonicalFraction(b)
    requires RealValue(a) == RealValue(b)
    requires -a.exponent <= -b.exponent
    ensures a == b
  {
    var ka: nat, kb: nat := -a.exponent, -b.exponent;
    var g: nat := kb - ka;
    CrossMultiply(a.coefficient, Pow10(ka), b.coefficient, Pow10(kb));
    Pow10Add(ka, g);
    ScaleCancel(a.coefficient, b.coefficient, Pow10(ka), Pow10(g));
    if g > 0 {
      TrailingZero(a.coefficient, g);
    }
  }

  lemma ScaleCancel(x: int, y: int, p: nat, s: nat)
    requires p >= 1
    requires x * (p * s) == y * p
    ensures x * s == y
  {
    assert (x * s) * p == y * p;
  }

  /** A multiple of `10^g` with `g >= 1` ends in a zero digit. */
  lemma TrailingZero(x: int, g: nat)
    requires g >= 1
    ensures (x * Pow10(g)) % 10 == 0
  {
    var q := Pow10(g - 1);
    assert Pow10(g) == 10 * q;
    var y := x * q;
    assert x * Pow10(g) == 10 * y;
  }

  /** Canonicalising depends only on the value, and leaves a canonical fraction alone. */
  lemma CanonicalOfSameValue(a: Decimal, b: Decimal)
    requires RealValue(a) == RealValue(b)
    ensures Canonical(a) == Canonical(b)
  {
    CanonicalUnique(Canonical(a), Canonical(b));
  }

  lemma CanonicalFixesCanonical(d: Decimal)
    requires IsCanonicalFraction(d)
    ensures Canonical(d) == d
  {
    CanonicalUnique(Canonical(d), d);
  }
}
