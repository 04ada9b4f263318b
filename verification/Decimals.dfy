/** Building the canonical value of a decimal number: mantissa × 10^exponent, in the
    machine arithmetic of int64. */
module Decimals {
  import opened Options
  import opened DcborSpec

  function Pow10(k: nat): (p: nat)
    ensures p > 0
  {
    if k == 0 then 1 else 10 * Pow10(k - 1)
  }

  lemma {:induction false} Pow10Sum(a: nat, b: nat)
    ensures Pow10(a + b) == Pow10(a) * Pow10(b)
  {
    if a > 0 {
      Pow10Sum(a - 1, b);
      assert Pow10(a + b) == 10 * Pow10(a - 1 + b) && Pow10(a) == 10 * Pow10(a - 1);
      hide Pow10;
      Regrouped(10, Pow10(a - 1), Pow10(b));
    }
  }

  lemma Regrouped(x: int, y: int, z: int)
    ensures x * (y * z) == (x * y) * z
  {
  }

  lemma {:induction false} Pow10Grows(k: nat)
    ensures k >= 19 ==> Pow10(k) > U64 / 2
    ensures k >= 1 ==> Pow10(k) >= 10
  {
    if k == 19 {
      assert Pow10(7) == 10000000 && Pow10(13) == 10000000000000;
    } else if k > 1 {
      Pow10Grows(k - 1);
    }
  }

  /** m×10^e and n×10^f are one number. */
  predicate Same(m: int, e: int, n: int, f: int) {
    if e >= f then m * Pow10(e - f) == n else m == n * Pow10(f - e)
  }

  /** The pair a numeric value stands for. */
  function Mantissa(v: Value): int
    requires v.Uint? || v.Neg? || v.Decimal?
  {
    match v
    case Uint(n) => n
    case Neg(n) => -1 - n
    case Decimal(_, m) => m
  }

  function Exponent(v: Value): int
    requires v.Uint? || v.Neg? || v.Decimal?
  {
    if v.Decimal? then v.exponent else 0
  }

  /** A number in the one form the profile gives it. */
  ghost predicate Numeral(v: Value) { (v.Uint? || v.Neg? || v.Decimal?) && Canonical(v, 0) }

  ghost predicate Denotes(v: Value, e: int, m: int) {
    Numeral(v) && Same(Mantissa(v), Exponent(v), m, e)
  }

  /** m×10^e is a whole number that int64 cannot hold. */
  ghost predicate TooLarge(e: int, m: int) {
    exists i: int {:trigger Same(i, 0, m, e)} :: Same(i, 0, m, e) && !(-I64 <= i < I64)
  }

  // ---- machine arithmetic -------------------------------------------------------------

  /** An int64 product, wrapped. */
  function Wrap(x: int): (w: i64)
    ensures exists k: int :: w == x - k * U64
  {
    var w := (x + I64) % U64 - I64;
    assert w == x - ((x + I64) / U64) * U64;
    w
  }

  /** Go's quotient truncates toward zero. */
  function Tenth(x: int): (t: int)
    ensures -I64 <= x < I64 ==> -I64 <= t < I64
  {
    if x >= 0 then x / 10 else -((-x) / 10)
  }

  lemma TenthExact(m: int)
    requires m % 10 == 0
    ensures Tenth(m) == m / 10 && (m != 0 ==> Tenth(m) != 0)
  {
  }

  /** The wrap test is exact. */
  lemma WrapTest(m: i64)
    ensures Tenth(Wrap(10 * m)) == m <==> -I64 <= 10 * m < I64
  {
    var w := Wrap(10 * m);
    var k: int :| w == 10 * m - k * U64;
    if -I64 <= 10 * m < I64 {
      assert k == 0;
    } else {
      assert k != 0;
    }
  }

  // ---- one number, one form -----------------------------------------------------------

  /** Two canonical forms of one number are the same value. */
  lemma OneForm(v: Value, w: Value)
    requires Numeral(v) && Numeral(w) && Same(Mantissa(v), Exponent(v), Mantissa(w), Exponent(w))
    ensures v == w
  {
    var e, f := Exponent(v), Exponent(w);
    if e > f {
      TensDivide(Mantissa(v), e - f);
    } else if e < f {
      TensDivide(Mantissa(w), f - e);
    }
  }

  lemma TensDivide(m: int, k: nat)
    requires k > 0
    ensures m * Pow10(k) % 10 == 0
  {
    assert m * Pow10(k) == (m * Pow10(k - 1)) * 10;
  }

  lemma Cancel(a: int, b: int, p: int)
    requires p > 0 && a * p == b * p
    ensures a == b
  {
    assert (a - b) * p == 0;
  }

  /** Being one number is being equal over any common power of ten. */
  lemma SameScaled(m: int, e: int, n: int, f: int, g: int)
    requires g <= e && g <= f
    ensures Same(m, e, n, f) <==> m * Pow10(e - g) == n * Pow10(f - g)
  {
    if e >= f {
      Pow10Sum(e - f, f - g);
      ScaleBoth(m, Pow10(e - f), n, Pow10(f - g));
    } else {
      Pow10Sum(f - e, e - g);
      ScaleBoth(n, Pow10(f - e), m, Pow10(e - g));
    }
  }

  lemma ScaleBoth(m: int, p: nat, n: int, q: nat)
    requires q > 0
    ensures m * p == n <==> m * (p * q) == n * q
  {
    assert m * (p * q) == (m * p) * q;
    if (m * p) * q == n * q { Cancel(m * p, n, q); }
  }

  /** So a pair has at most one canonical value, and any two pairs that are one number
      have the same. */
  lemma DenotesOne(v: Value, e: int, m: int, w: Value, f: int, n: int)
    requires Denotes(v, e, m) && Denotes(w, f, n) && Same(m, e, n, f)
    ensures v == w
  {
    var a, b := Exponent(v), Exponent(w);
    var g := if a < b then a else b;
    g := if e < g then e else g;
    g := if f < g then f else g;
    SameScaled(Mantissa(v), a, m, e, g);
    SameScaled(Mantissa(w), b, n, f, g);
    SameScaled(m, e, n, f, g);
    SameScaled(Mantissa(v), a, Mantissa(w), b, g);
    hide Same;
    OneForm(v, w);
  }

  // ---- steps --------------------------------------------------------------------------

  /** Stripping a zero, or shifting one in, leaves the number alone. */
  lemma Strip(m0: int, e0: int, m: int, e: int)
    requires e0 <= e && m0 == m * Pow10(e - e0) && m % 10 == 0
    ensures m0 == (m / 10) * Pow10(e + 1 - e0)
  {
    assert (m / 10) * (10 * Pow10(e - e0)) == ((m / 10) * 10) * Pow10(e - e0);
  }

  lemma ShiftLeft(m: int, e: nat, total: int)
    requires e > 0 && m * Pow10(e) == total
    ensures (m * 10) * Pow10(e - 1) == total
  {
    assert m * (10 * Pow10(e - 1)) == (m * 10) * Pow10(e - 1);
  }

  lemma Scaled(x: int, p: int)
    requires p >= 1
    ensures x >= 0 ==> x * p >= x
    ensures x <= 0 ==> x * p <= x
    ensures x >= 1 ==> x * p >= p
    ensures x <= -1 ==> x * p <= -p
  {
    if x >= 0 {
      assert x * p == x + x * (p - 1);
    } else {
      assert x * p == x + x * (p - 1);
    }
    if x >= 1 {
      assert x * p == p + (x - 1) * p;
    }
    if x <= -1 {
      assert x * p == -p + (x + 1) * p;
    }
  }

  /** A nonzero int64 absorbs at most 18 powers of ten. */
  lemma FewSteps(m: int, k: nat)
    requires m != 0 && -I64 <= m * Pow10(k) < I64
    ensures k < 19
  {
    Pow10Grows(k);
    Scaled(m, Pow10(k));
  }

  lemma StaysLarge(m: int, e: nat)
    requires e > 0 && !(-I64 <= m * 10 < I64)
    ensures !(-I64 <= m * Pow10(e) < I64)
  {
    assert m * Pow10(e) == (m * 10) * Pow10(e - 1);
    Scaled(m * 10, Pow10(e - 1));
  }

  lemma OneMore(s: int, k: nat)
    ensures (s * Pow10(k)) * 10 == s * Pow10(k + 1)
  {
    assert s * (10 * Pow10(k)) == (s * Pow10(k)) * 10;
  }

  lemma ByNothing(m: int)
    ensures m * Pow10(0) == m
  {
  }

  lemma DecimalDenotes(e0: i64, m0: i64, e: i64, m: i64)
    requires e0 <= e < 0 && m % 10 != 0 && m0 == m * Pow10(e - e0)
    ensures Denotes(Decimal(e, m), e0, m0)
  {
  }

  lemma IntDenotes(e0: i64, m0: i64, i: i64)
    requires Same(i, 0, m0, e0)
    ensures Denotes(IntValue(i), e0, m0)
  {
  }

  /** The canonical value of mantissa × 10^exponent, in at most 19 turns of either loop
      whatever the exponent; none exactly when it is a whole number out of range. */
  method NewDecimal(exponent: i64, mantissa: i64) returns (r: Option<Value>, ghost steps: nat)
    ensures r.Some? ==> Denotes(r.value, exponent, mantissa)
    ensures r.None? <==> TooLarge(exponent, mantissa)
    ensures steps <= 19
  {
    hide Pow10, Same, Denotes, TooLarge, Wrap, Tenth;
    steps := 0;
    if mantissa == 0 {
      ZeroFits(exponent);
      return Some(Uint(0)), steps;
    }
    var e: i64, m: i64 := exponent, mantissa;
    ByNothing(m);
    while e < 0 && m % 10 == 0
      invariant exponent <= e && (e <= 0 || e == exponent) && m != 0
      invariant mantissa == m * Pow10(e - exponent) && steps == e - exponent
      decreases I64 - e
    {
      Strip(mantissa, exponent, m, e);
      TenthExact(m);
      m, e, steps := Tenth(m), e + 1, steps + 1;
    }
    FewSteps(m, e - exponent);
    if e < 0 {
      NotWhole(exponent, mantissa, e, m);
      DecimalDenotes(exponent, mantissa, e, m);
      return Some(Decimal(e, m)), steps;
    }
    Whole(exponent, mantissa, e, m);
    ghost var e1, stripped, whole := e, m, m * Pow10(e);
    ByNothing(m);
    while e > 0
      invariant 0 <= e <= e1 && m != 0 && m * Pow10(e) == whole
      invariant m == stripped * Pow10(e1 - e) && steps <= 19 && (e1 > 0 ==> steps == e1 - e)
    {
      var scaled := Wrap(10 * m);
      WrapTest(m);
      FewSteps(stripped, e1 - e);
      steps := steps + 1;
      if Tenth(scaled) != m {
        StaysLarge(m, e);
        return None, steps;
      }
      WrapExact(10 * m);
      ShiftLeft(m, e, whole);
      OneMore(stripped, e1 - e);
      m, e := scaled, e - 1;
    }
    ByNothing(m);
    IntDenotes(exponent, mantissa, m);
    r := Some(IntValue(m));
  }

  lemma WrapExact(x: int)
    requires -I64 <= x < I64
    ensures Wrap(x) == x
  {
  }

  lemma ZeroFits(e: int)
    ensures Denotes(Uint(0), e, 0) && !TooLarge(e, 0)
  {
    forall i: int | Same(i, 0, 0, e) ensures i == 0 {
      if e <= 0 {
        Scaled(i, Pow10(-e));
      }
    }
  }

  lemma Commute(p: int, q: int)
    ensures p * q == q * p
  {
  }

  /** A stripped mantissa over a power of ten is no whole number. */
  lemma NotWhole(e0: int, m0: int, e: int, m: int)
    requires e0 <= e < 0 && m % 10 != 0 && m0 == m * Pow10(e - e0)
    ensures !TooLarge(e0, m0)
  {
    forall i: int ensures !Same(i, 0, m0, e0) {
      if Same(i, 0, m0, e0) {
        Pow10Sum(e - e0, -e);
        ScaleBoth(i, Pow10(-e), m, Pow10(e - e0));
        Commute(Pow10(e - e0), Pow10(-e));
        TensDivide(i, -e);
      }
    }
  }

  /** Once the exponent is not negative, the number is one integer. */
  lemma Whole(e0: int, m0: int, e: int, m: int)
    requires e0 <= e && (e == 0 || e == e0) && e >= 0 && m0 == m * Pow10(e - e0)
    ensures Same(m * Pow10(e), 0, m0, e0)
    ensures TooLarge(e0, m0) <==> !(-I64 <= m * Pow10(e) < I64)
  {
    var x := m * Pow10(e);
    assert Same(x, 0, m0, e0);
    forall i: int | Same(i, 0, m0, e0) ensures i == x {
      if e0 <= 0 { Cancel(i, x, Pow10(-e0)); }
    }
  }
}
