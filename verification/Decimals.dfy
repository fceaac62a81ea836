/**
 Decimal arithmetic as Python's `decimal` module performs it: a value is an
 integer coefficient and a power of ten, an operation is rounded half-even to
 the precision of its context, and `quantize` refuses what does not fit.

 Rounding is judged by `IsHalfEven` (roundTiesToEven, section 4.3.1 of
 IEEE 754-2008), which says what the nearest integer is without computing it.
 */
module Decimals {
  import opened Wrappers

  datatype Decimal = Decimal(coefficient: int, exponent: int)

  function Abs(x: int): nat {
    if x < 0 then -x else x
  }

  function Pow10(n: nat): (p: nat)
    ensures p >= 1
  {
    if n == 0 then 1 else 10 * Pow10(n - 1)
  }

  lemma TenTimes(p: int, q: int)
    ensures p * (10 * q) == 10 * (p * q)
  {
  }

  lemma {:induction false} Pow10Add(a: nat, b: nat)
    ensures Pow10(a + b) == Pow10(a) * Pow10(b)
  {
    if b > 0 {
      Pow10Add(a, b - 1);
      TenTimes(Pow10(a), Pow10(b - 1));
    }
  }

  lemma {:induction false} Pow10Grows(a: nat, b: nat)
    requires a <= b
    ensures Pow10(a) <= Pow10(b)
  {
    if a < b {
      Pow10Grows(a, b - 1);
    }
  }

  // ---------------------------------------------------------------------
  // Rounding to the nearest integer
  // ---------------------------------------------------------------------

  /**
   Rounding works on the magnitude; the sign is put back afterwards.  Whole
   pairs are taken off first, which leaves the parity of the quotient alone.
   */
  function RoundMagnitude(n: nat, d: nat): nat
    requires d > 0
  {
    if n >= 2 * d then 2 + RoundMagnitude(n - 2 * d, d)
    else if 2 * n <= d then 0
    else if 2 * n < 3 * d then 1
    else 2
  }

  function RoundHalfEven(n: int, d: nat): int
    requires d > 0
  {
    var q: int := RoundMagnitude(Abs(n), d);
    if n < 0 then -q else q
  }

  /** `q` is the integer nearest to `n / d`, and even if two are equally near. */
  predicate IsHalfEven(q: int, n: int, d: nat) {
    && 2 * Abs(q * d - n) <= d
    && (2 * Abs(q * d - n) == d ==> q % 2 == 0)
  }

  lemma HalfEvenShift(q: int, n: int, d: nat)
    requires IsHalfEven(q, n - 2 * d, d)
    ensures IsHalfEven(q + 2, n, d)
  {
    assert (q + 2) * d == q * d + 2 * d;
  }

  lemma {:induction false} RoundMagnitudeIsHalfEven(n: nat, d: nat)
    requires d > 0
    ensures IsHalfEven(RoundMagnitude(n, d), n, d)
  {
    if n >= 2 * d {
      RoundMagnitudeIsHalfEven(n - 2 * d, d);
      HalfEvenShift(RoundMagnitude(n - 2 * d, d), n, d);
    }
  }

  lemma HalfEvenOdd(q: int, n: int, d: nat)
    requires IsHalfEven(q, n, d)
    ensures IsHalfEven(-q, -n, d)
  {
    assert (-q) * d == -(q * d);
  }

  lemma RoundIsHalfEven(n: int, d: nat)
    requires d > 0
    ensures IsHalfEven(RoundHalfEven(n, d), n, d)
  {
    RoundMagnitudeIsHalfEven(Abs(n), d);
    HalfEvenOdd(RoundMagnitude(Abs(n), d), Abs(n), d);
  }

  /** The fraction lies within half a unit of `q`, strictly when `q` is odd. */
  lemma HalfEvenBounds(q: int, n: int, d: nat)
    requires d > 0 && IsHalfEven(q, n, d)
    ensures (2 * q - 1) * d <= 2 * n <= (2 * q + 1) * d
    ensures q % 2 == 1 ==> (2 * q - 1) * d < 2 * n < (2 * q + 1) * d
  {
    assert (2 * q - 1) * d == 2 * (q * d) - d;
    assert (2 * q + 1) * d == 2 * (q * d) + d;
  }

  lemma {:induction false} Scale(a: int, b: int, d: nat)
    requires d > 0
    ensures a <= b <==> a * d <= b * d
    ensures a < b <==> a * d < b * d
  {
    if d > 1 {
      Scale(a, b, d - 1);
      assert a * d == a * (d - 1) + a && b * d == b * (d - 1) + b;
    }
  }

  /** Bounds on two ordered fractions are ordered, strictly if either bound is strict. */
  lemma CrossOrder(low: int, x1: int, d1: nat, x2: int, high: int, d2: nat)
    requires d1 > 0 && d2 > 0
    requires low * d1 <= x1 && x2 <= high * d2 && x1 * d2 <= x2 * d1
    ensures low <= high
    ensures low * d1 < x1 || x2 < high * d2 ==> low < high
  {
    Scale(low * d1, x1, d2);
    Scale(x2, high * d2, d1);
    assert low * d1 * d2 == low * (d1 * d2);
    assert high * d2 * d1 == high * (d1 * d2);
    Scale(low, high, d1 * d2);
  }

  /** Rounding preserves the order of fractions, whatever their denominators. */
  lemma HalfEvenMonotone(q1: int, n1: int, d1: nat, q2: int, n2: int, d2: nat)
    requires d1 > 0 && d2 > 0
    requires IsHalfEven(q1, n1, d1) && IsHalfEven(q2, n2, d2)
    requires n1 * d2 <= n2 * d1
    ensures q1 <= q2
  {
    HalfEvenBounds(q1, n1, d1);
    HalfEvenBounds(q2, n2, d2);
    assert 2 * n1 * d2 == 2 * (n1 * d2) <= 2 * (n2 * d1) == 2 * n2 * d1;
    CrossOrder(2 * q1 - 1, 2 * n1, d1, 2 * n2, 2 * q2 + 1, d2);
  }

  /** The half-even nearest integer is unique. */
  lemma HalfEvenUnique(q1: int, q2: int, n: int, d: nat)
    requires d > 0
    requires IsHalfEven(q1, n, d) && IsHalfEven(q2, n, d)
    ensures q1 == q2
  {
    HalfEvenMonotone(q1, n, d, q2, n, d);
    HalfEvenMonotone(q2, n, d, q1, n, d);
  }

  lemma RoundOdd(n: int, d: nat)
    requires d > 0
    ensures RoundHalfEven(-n, d) == -RoundHalfEven(n, d)
  {
    hide RoundHalfEven;
    RoundIsHalfEven(n, d);
    RoundIsHalfEven(-n, d);
    HalfEvenOdd(RoundHalfEven(n, d), n, d);
    HalfEvenUnique(RoundHalfEven(-n, d), -RoundHalfEven(n, d), -n, d);
  }

  // ---------------------------------------------------------------------
  // Rounding to a precision
  // ---------------------------------------------------------------------

  function Digits(n: nat): (k: nat)
    ensures k >= 1
    ensures n < Pow10(k)
    ensures n > 0 ==> Pow10(k - 1) <= n
  {
    if n < 10 then 1 else 1 + Digits(n / 10)
  }

  /** How many digits of an exact coefficient a context of precision `prec` drops. */
  function Dropped(coefficient: int, prec: nat): nat {
    if Digits(Abs(coefficient)) <= prec then 0 else Digits(Abs(coefficient)) - prec
  }

  /** The context's rounding of an exact result. */
  function Fit(exact: Decimal, prec: nat): Decimal {
    var drop := Dropped(exact.coefficient, prec);
    if drop == 0 then exact
    else
      var c := RoundHalfEven(exact.coefficient, Pow10(drop));
      if Abs(c) < Pow10(prec) then Decimal(c, exact.exponent + drop)
      else Decimal(c / 10, exact.exponent + drop + 1)
  }

  function Numerator(d: Decimal): int {
    if d.exponent >= 0 then d.coefficient * Pow10(d.exponent) else d.coefficient
  }

  function Denominator(d: Decimal): (n: nat)
    ensures n >= 1
  {
    if d.exponent >= 0 then 1 else Pow10(-d.exponent)
  }

  /** `quantize(Decimal(1), ROUND_HALF_EVEN)`: refuses a result of more than `prec` digits. */
  function Quantize(d: Decimal, prec: nat): Option<int> {
    var q := RoundHalfEven(Numerator(d), Denominator(d));
    if Abs(q) < Pow10(prec) then Some(q) else None
  }

  // ---------------------------------------------------------------------
  // What rounding to a precision keeps
  // ---------------------------------------------------------------------

  lemma RoundMagnitudeBetween(low: nat, n: nat, high: nat, d: nat)
    requires d > 0 && low * d <= n <= high * d
    ensures low <= RoundMagnitude(n, d) <= high
  {
    var q := RoundMagnitude(n, d);
    RoundMagnitudeIsHalfEven(n, d);
    Scale(low * d, n, d);
    Scale(n, high * d, d);
    HalfEvenMonotone(low, low * d, d, q, n, d);
    HalfEvenMonotone(q, n, d, high, high * d, d);
  }

  /** Rounding stays between any two integers that bound the magnitude. */
  lemma RoundBetween(low: nat, n: int, high: nat, d: nat)
    requires d > 0 && low * d <= Abs(n) <= high * d
    ensures low <= Abs(RoundHalfEven(n, d)) <= high
  {
    RoundMagnitudeBetween(low, Abs(n), high, d);
  }

  lemma AtLeastItself(a: nat, d: nat)
    requires d >= 1
    ensures a <= a * d
  {
    assert a * d == a + a * (d - 1);
  }

  lemma RoundAtLeast(low: nat, n: int, d: nat)
    requires d > 0 && low * d <= Abs(n)
    ensures low <= Abs(RoundHalfEven(n, d))
  {
    AtLeastItself(Abs(n), d);
    RoundBetween(low, n, Abs(n), d);
  }

  lemma RoundAtMost(n: int, high: nat, d: nat)
    requires d > 0 && Abs(n) <= high * d
    ensures Abs(RoundHalfEven(n, d)) <= high
  {
    RoundBetween(0, n, high, d);
  }

  lemma RoundByOne(n: int)
    ensures RoundHalfEven(n, 1) == n
  {
    RoundIsHalfEven(n, 1);
    HalfEvenUnique(RoundHalfEven(n, 1), n, n, 1);
  }

  lemma DigitsFit(n: nat, prec: nat)
    ensures Digits(n) <= prec ==> n < Pow10(prec)
    ensures prec >= 1 && n < Pow10(prec) ==> Digits(n) <= prec
  {
    if Digits(n) <= prec {
      Pow10Grows(Digits(n), prec);
    } else if n > 0 {
      Pow10Grows(prec, Digits(n) - 1);
    }
  }

  /** The first rounding of an exact coefficient that is too long, before any carry. */
  lemma DroppedRounding(c: int, prec: nat)
    requires prec >= 1 && Abs(c) >= Pow10(prec)
    ensures var drop := Dropped(c, prec);
            && drop >= 1
            && Pow10(prec - 1) * Pow10(drop) <= Abs(c) < Pow10(prec) * Pow10(drop)
            && Pow10(prec - 1) <= Abs(RoundHalfEven(c, Pow10(drop))) <= Pow10(prec)
            && IsHalfEven(RoundHalfEven(c, Pow10(drop)), c, Pow10(drop))
  {
    DigitsFit(Abs(c), prec);
    var drop := Dropped(c, prec);
    Pow10Add(prec - 1, drop);
    Pow10Add(prec, drop);
    assert prec - 1 + drop == Digits(Abs(c)) - 1;
    RoundBetween(Pow10(prec - 1), c, Pow10(prec), Pow10(drop));
    RoundIsHalfEven(c, Pow10(drop));
  }

  /** One step of the last place of `rounded`, in units of the last place of `exact`. */
  function Ulp(exact: Decimal, rounded: Decimal): nat
    requires rounded.exponent >= exact.exponent
  {
    Pow10(rounded.exponent - exact.exponent)
  }

  /** An exact result of at most `prec` digits is not touched. */
  lemma ShortIsExact(exact: Decimal, prec: nat)
    requires prec >= 1 && Abs(exact.coefficient) < Pow10(prec)
    ensures Fit(exact, prec) == exact
  {
    DigitsFit(Abs(exact.coefficient), prec);
  }

  lemma CarryTenth(c: int, prec: nat)
    requires prec >= 1 && Abs(c) == Pow10(prec)
    ensures c == 10 * (c / 10) && Abs(c / 10) == Pow10(prec - 1)
  {
  }

  /** `f` keeps exactly `prec` digits of a longer `p`, and is at most half a step away from it. */
  predicate RoundedFrom(p: Decimal, f: Decimal, prec: nat) {
    && prec >= 1
    && p.exponent < f.exponent
    && Pow10(prec - 1) <= Abs(f.coefficient) < Pow10(prec)
    && 2 * Abs(f.coefficient * Ulp(p, f) - p.coefficient) <= Ulp(p, f)
  }

  /** A coefficient rounded to `prec` digits without a carry. */
  lemma RoundedPlainly(p: Decimal, first: int, drop: nat, prec: nat)
    requires prec >= 1 && drop >= 1 && Pow10(prec - 1) <= Abs(first) < Pow10(prec)
    requires 2 * Abs(first * Pow10(drop) - p.coefficient) <= Pow10(drop)
    ensures RoundedFrom(p, Decimal(first, p.exponent + drop), prec)
  {
  }

  /** A coefficient rounded up to a one with `prec` zeros: one more digit is given up. */
  lemma RoundedWithCarry(p: Decimal, first: int, drop: nat, prec: nat)
    requires prec >= 1 && Abs(first) == Pow10(prec)
    requires 2 * Abs(first * Pow10(drop) - p.coefficient) <= Pow10(drop)
    ensures RoundedFrom(p, Decimal(first / 10, p.exponent + drop + 1), prec)
  {
    CarryTenth(first, prec);
    Carried(first, first / 10, Pow10(drop), p.coefficient);
    assert Pow10(drop + 1) == 10 * Pow10(drop) && Pow10(prec) == 10 * Pow10(prec - 1);
  }

  lemma Carried(first: int, tenth: int, p: nat, c: int)
    requires first == 10 * tenth
    requires 2 * Abs(first * p - c) <= p
    ensures 2 * Abs(tenth * (10 * p) - c) <= 10 * p
  {
    assert tenth * (10 * p) == first * p;
  }

  lemma LongIsRounded(exact: Decimal, prec: nat)
    requires prec >= 1 && Abs(exact.coefficient) >= Pow10(prec)
    ensures RoundedFrom(exact, Fit(exact, prec), prec)
  {
    hide RoundedFrom;
    var drop := Dropped(exact.coefficient, prec);
    DroppedRounding(exact.coefficient, prec);
    var first := RoundHalfEven(exact.coefficient, Pow10(drop));
    if Abs(first) == Pow10(prec) {
      RoundedWithCarry(exact, first, drop, prec);
    } else {
      RoundedPlainly(exact, first, drop, prec);
    }
  }
}
