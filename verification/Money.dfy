/**
 Money in integral minor units (libs/domain/src/ubunturemit_domain/money.py).

 `ApplyRate` multiplies in a 60-digit decimal context and then quantizes to an
 integer.  The lemmas say how its result relates to the exact product, which
 is the fraction `Numerator(p) / Denominator(p)` of `p := Product(m, rate)`.
 */
module DomainMoney {
  import opened Wrappers
  import opened Decimals

  datatype CurrencyCode = ZAR | KES | NGN | GHS | USD

  function CurrencyName(c: CurrencyCode): string {
    match c
    case ZAR => "ZAR"
    case KES => "KES"
    case NGN => "NGN"
    case GHS => "GHS"
    case USD => "USD"
  }

  function ParseCurrency(name: string): Option<CurrencyCode> {
    if name == "ZAR" then Some(ZAR)
    else if name == "KES" then Some(KES)
    else if name == "NGN" then Some(NGN)
    else if name == "GHS" then Some(GHS)
    else if name == "USD" then Some(USD)
    else None
  }

  lemma CurrencyRoundTrip(c: CurrencyCode)
    ensures ParseCurrency(CurrencyName(c)) == Some(c)
  {
  }

  datatype Money = Money(minorUnits: int, currency: CurrencyCode)

  datatype MoneyError = CurrencyMismatch | NonPositiveRate | InvalidOperation

  const ARITHMETIC_PRECISION: nat := 60

  /** Adding across currencies is refused, not converted. */
  function Add(a: Money, b: Money): Result<Money, MoneyError> {
    if b.currency != a.currency then Err(CurrencyMismatch)
    else Ok(Money(a.minorUnits + b.minorUnits, a.currency))
  }

  /** The exact product, before any rounding. */
  function Product(minorUnits: int, rate: Decimal): Decimal {
    Decimal(minorUnits * rate.coefficient, rate.exponent)
  }

  /** `apply_rate` in a context of any precision. */
  function ApplyRateAt(m: Money, rate: Decimal, prec: nat): Result<Money, MoneyError> {
    if rate.coefficient <= 0 then Err(NonPositiveRate)
    else
      match Quantize(Fit(Product(m.minorUnits, rate), prec), prec)
      case None => Err(InvalidOperation)
      case Some(rounded) => Ok(Money(rounded, m.currency))
  }

  function ApplyRate(m: Money, rate: Decimal): Result<Money, MoneyError> {
    ApplyRateAt(m, rate, ARITHMETIC_PRECISION)
  }

  // ---------------------------------------------------------------------
  // One conversion against the exact product
  // ---------------------------------------------------------------------

  /** The product needs no rounding before the quantization. */
  predicate IsExact(p: Decimal, prec: nat) {
    Abs(p.coefficient) < Pow10(prec)
  }

  /** The integer the documented rule asks for: half-even, once, from the exact product. */
  function Nearest(p: Decimal): int {
    RoundHalfEven(Numerator(p), Denominator(p))
  }

  lemma NearestIsHalfEven(p: Decimal)
    ensures IsHalfEven(Nearest(p), Numerator(p), Denominator(p))
  {
    RoundIsHalfEven(Numerator(p), Denominator(p));
  }

  /** How the two scales of a rounded product are related. */
  lemma ScalesAgree(p: Decimal, f: Decimal)
    requires p.exponent < f.exponent <= 0
    ensures Denominator(p) == Denominator(f) * Ulp(p, f)
    ensures Ulp(p, f) >= 10
    ensures f.exponent < 0 ==> Denominator(f) >= 10
  {
    Pow10Add(-f.exponent, f.exponent - p.exponent);
    Pow10Grows(1, f.exponent - p.exponent);
    if f.exponent < 0 {
      Pow10Grows(1, -f.exponent);
    }
  }

  /** Rounding a long product to an integer on the way: the second rounding has nothing left to do. */
  lemma RoundedToInteger(p: Decimal, prec: nat)
    requires prec >= 1 && !IsExact(p, prec) && Fit(p, prec).exponent == 0
    ensures Nearest(p) == Fit(p, prec).coefficient
  {
    var f := Fit(p, prec);
    LongIsRounded(p, prec);
    ScalesAgree(p, f);
    DroppedRounding(p.coefficient, prec);
    var drop := Dropped(p.coefficient, prec);
    var first := RoundHalfEven(p.coefficient, Pow10(drop));
    if Abs(first) == Pow10(prec) {
      CarryTenth(first, prec);
      CarriedIsNearest(first, f.coefficient, Pow10(drop), p.coefficient);
      NearestIsHalfEven(p);
      HalfEvenUnique(f.coefficient, Nearest(p), p.coefficient, Denominator(p));
    }
  }

  lemma CarriedIsNearest(first: int, tenth: int, q: nat, c: int)
    requires q >= 1 && first == 10 * tenth && IsHalfEven(first, c, q)
    ensures IsHalfEven(tenth, c, 10 * q)
  {
    assert tenth * (10 * q) == first * q;
  }

  /** The distance to the exact product is at most the two rounding errors together. */
  lemma TwoErrors(q: int, d: nat, f: int, ulp: nat, c: int)
    ensures Abs(q * (d * ulp) - c) <= Abs(q * d - f) * ulp + Abs(f * ulp - c)
  {
    assert q * (d * ulp) - c == (q * d - f) * ulp + (f * ulp - c);
    assert Abs((q * d - f) * ulp) == Abs(q * d - f) * ulp;
  }

  /** Both errors are bounded by their steps, and the first step is at most a tenth of the second. */
  lemma BoundedErrors(q: int, d: nat, f: int, ulp: nat, c: int)
    requires d >= 10 && ulp >= 1
    requires 2 * Abs(q * d - f) <= d && 2 * Abs(f * ulp - c) <= ulp
    ensures 2 * Abs(q * (d * ulp) - c) <= d * ulp + ulp
    ensures 10 * ulp <= d * ulp
  {
    TwoErrors(q, d, f, ulp, c);
    Scale(2 * Abs(q * d - f), d, ulp);
    assert 2 * Abs(q * d - f) * ulp == 2 * (Abs(q * d - f) * ulp);
    Scale(10, d, ulp);
  }

  /** What is known of a product rounded to a fraction of an integer on the way. */
  lemma RoundedToFraction(p: Decimal, f: Decimal, prec: nat)
    requires RoundedFrom(p, f, prec) && f.exponent < 0
    ensures Denominator(p) == Denominator(f) * Ulp(p, f)
    ensures 2 * Abs(Nearest(f) * Denominator(p) - Numerator(p)) <= Denominator(p) + Ulp(p, f)
    ensures 10 * Ulp(p, f) <= Denominator(p)
    ensures Abs(Nearest(f)) < Pow10(prec)
  {
    hide RoundHalfEven, Pow10;
    ScalesAgree(p, f);
    NearestIsHalfEven(f);
    BoundedErrors(Nearest(f), Denominator(f), f.coefficient, Ulp(p, f), p.coefficient);
    AtLeastItself(Pow10(prec) - 1, Denominator(f));
    RoundAtMost(f.coefficient, Pow10(prec) - 1, Denominator(f));
  }

  /** A product rounded to a multiple of ten or more is refused. */
  lemma RoundedTooLarge(f: Decimal, prec: nat)
    requires prec >= 1 && f.exponent > 0 && Pow10(prec - 1) <= Abs(f.coefficient)
    ensures Quantize(f, prec) == None
  {
    LargeProduct(f.coefficient, Pow10(f.exponent), Pow10(prec - 1), f.exponent);
    RoundByOne(Numerator(f));
  }

  /** A long product with no fraction is its own nearest integer, and a long one. */
  lemma NearestOfLongInteger(p: Decimal, prec: nat)
    requires p.exponent >= 0 && !IsExact(p, prec)
    ensures Abs(Nearest(p)) >= Pow10(prec)
  {
    AtLeastItself(Abs(p.coefficient), Pow10(p.exponent));
    RoundByOne(Numerator(p));
    AbsProduct(p.coefficient, Pow10(p.exponent));
  }

  lemma AbsProduct(a: int, b: nat)
    ensures Abs(a * b) == Abs(a) * b
  {
  }

  lemma LargeProduct(c: int, p: nat, low: nat, exponent: nat)
    requires exponent > 0 && p == Pow10(exponent) && Abs(c) >= low
    ensures Abs(c * p) >= 10 * low
  {
    Pow10Grows(1, exponent);
    AbsProduct(c, p);
    Scale(low, Abs(c), p);
    AtLeastTenfold(low, p);
  }

  lemma AtLeastTenfold(a: nat, p: nat)
    requires p >= 10
    ensures a * p >= 10 * a
  {
    assert a * p == 10 * a + a * (p - 10);
  }

  /** A long product that rounds past every integer of `prec` digits has a nearest integer past them, too. */
  lemma NearestOfLarge(p: Decimal, prec: nat)
    requires prec >= 1 && !IsExact(p, prec) && p.exponent < 0 < Fit(p, prec).exponent
    ensures Abs(Nearest(p)) >= Pow10(prec)
  {
    hide RoundHalfEven;
    DroppedRounding(p.coefficient, prec);
    var c, drop, d := p.coefficient, Dropped(p.coefficient, prec), -p.exponent;
    if drop > d {
      LongCoefficient(c, prec, drop, d);
      RoundAtLeast(Pow10(prec), c, Pow10(d));
    } else {
      assert drop == d;
    }
  }

  lemma LongCoefficient(c: int, prec: nat, drop: nat, d: nat)
    requires prec >= 1 && drop > d && Pow10(prec - 1) * Pow10(drop) <= Abs(c)
    ensures Pow10(prec) * Pow10(d) <= Abs(c)
  {
    Pow10Add(prec - 1, drop);
    Pow10Add(prec, d);
    Pow10Grows(prec + d, prec - 1 + drop);
  }

  /** The conversion is refused exactly when the integer it should return has more than `prec` digits. */
  lemma RefusedExactlyWhenTooLong(m: Money, rate: Decimal, prec: nat)
    requires prec >= 1 && rate.coefficient > 0
    ensures ApplyRateAt(m, rate, prec) == Err(InvalidOperation)
       <==> Abs(Nearest(Product(m.minorUnits, rate))) >= Pow10(prec)
  {
    hide RoundHalfEven, Fit;
    var p := Product(m.minorUnits, rate);
    var f := Fit(p, prec);
    if IsExact(p, prec) {
      ShortIsExact(p, prec);
    } else if f.exponent > 0 {
      LongIsRounded(p, prec);
      RoundedTooLarge(f, prec);
      if p.exponent >= 0 {
        NearestOfLongInteger(p, prec);
      } else {
        NearestOfLarge(p, prec);
      }
    } else if f.exponent == 0 {
      RoundedToInteger(p, prec);
      LongIsRounded(p, prec);
      RoundByOne(f.coefficient);
    } else {
      LongIsRounded(p, prec);
      RoundedToFraction(p, f, prec);
      NearestIsSmall(p, f, prec);
    }
  }

  lemma NearestIsSmall(p: Decimal, f: Decimal, prec: nat)
    requires RoundedFrom(p, f, prec) && f.exponent < 0
    ensures Abs(Nearest(p)) < Pow10(prec)
  {
    RoundedToFraction(p, f, prec);
    SmallCoefficient(f.coefficient, Ulp(p, f), p.coefficient, Pow10(prec - 1), Denominator(p));
    RoundAtMost(p.coefficient, Pow10(prec - 1), Denominator(p));
    assert Pow10(prec) == 10 * Pow10(prec - 1);
  }

  lemma SmallCoefficient(f: int, ulp: nat, c: int, tenth: nat, d: nat)
    requires Abs(f) < 10 * tenth && 2 * Abs(f * ulp - c) <= ulp && 10 * ulp <= d && ulp >= 1
    ensures Abs(c) <= tenth * d
  {
    AbsProduct(f, ulp);
    Scale(Abs(f), 10 * tenth - 1, ulp);
    assert (10 * tenth - 1) * ulp + ulp == tenth * (10 * ulp);
    if tenth > 0 {
      Scale(10 * ulp, d, tenth);
    }
  }

  /**
   A product of at most `prec` digits is rounded once: the result is the
   half-even nearest integer, and it is refused only for a positive exponent
   that makes it longer than the context allows.
   */
  lemma ExactProductRoundsOnce(m: Money, rate: Decimal, prec: nat)
    requires prec >= 1 && rate.coefficient > 0 && IsExact(Product(m.minorUnits, rate), prec)
    ensures var p, r := Product(m.minorUnits, rate), ApplyRateAt(m, rate, prec);
            && (r.Ok? ==> r.value == Money(Nearest(p), m.currency))
            && (r.Err? ==> rate.exponent > 0)
  {
    hide RoundHalfEven, Fit;
    var p := Product(m.minorUnits, rate);
    ShortIsExact(p, prec);
    if rate.exponent <= 0 {
      RoundByOne(p.coefficient);
      AtLeastItself(Abs(p.coefficient), Denominator(p));
      RoundAtMost(p.coefficient, Abs(p.coefficient), Denominator(p));
    }
  }

  /** Whatever the length of the product, the result is within 11/20 of a minor unit of it. */
  lemma WithinElevenTwentieths(m: Money, rate: Decimal, prec: nat)
    requires prec >= 1 && ApplyRateAt(m, rate, prec).Ok?
    ensures var p, v := Product(m.minorUnits, rate), ApplyRateAt(m, rate, prec).value.minorUnits;
            20 * Abs(v * Denominator(p) - Numerator(p)) <= 11 * Denominator(p)
  {
    hide RoundHalfEven, Fit;
    var p := Product(m.minorUnits, rate);
    var f := Fit(p, prec);
    NearestIsHalfEven(p);
    if IsExact(p, prec) {
      ShortIsExact(p, prec);
    } else if f.exponent > 0 {
      LongIsRounded(p, prec);
      RoundedTooLarge(f, prec);
    } else if f.exponent == 0 {
      RoundedToInteger(p, prec);
      RoundByOne(f.coefficient);
    } else {
      LongIsRounded(p, prec);
      RoundedToFraction(p, f, prec);
    }
  }

  // ---------------------------------------------------------------------
  // When rounding twice differs from rounding once
  // ---------------------------------------------------------------------

  /**
   The product is too long for the context, the context rounds it onto a
   midpoint between two integers, and the exact product lies on the far side
   of that midpoint from the even one.
   */
  predicate DoubleRounds(p: Decimal, prec: nat) {
    var f := Fit(p, prec);
    && !IsExact(p, prec)
    && p.exponent < f.exponent < 0
    && 2 * Abs(Nearest(f) * Denominator(f) - f.coefficient) == Denominator(f)
    && (if Nearest(f) * Denominator(f) > f.coefficient
        then p.coefficient < f.coefficient * Ulp(p, f)
        else p.coefficient > f.coefficient * Ulp(p, f))
  }

  lemma Pow10IsEven(n: nat)
    requires n >= 1
    ensures Pow10(n) % 2 == 0
  {
    assert Pow10(n) == 2 * (5 * Pow10(n - 1));
  }

  /** Off a midpoint, the first rounding cannot carry the product across one. */
  lemma OffMidpoint(q: int, d: nat, f: int, ulp: nat, c: int)
    requires ulp >= 1 && d >= 1 && d % 2 == 0
    requires 2 * Abs(q * d - f) < d && 2 * Abs(f * ulp - c) <= ulp
    ensures 2 * Abs(q * (d * ulp) - c) < d * ulp
  {
    TwoErrors(q, d, f, ulp, c);
    Scale(2 * Abs(q * d - f), d - 2, ulp);
    assert (d - 2) * ulp + ulp == d * ulp - ulp;
    assert 2 * (Abs(q * d - f) * ulp) == 2 * Abs(q * d - f) * ulp;
  }

  /** On a midpoint, the side of the exact product decides. */
  lemma OnMidpoint(q: int, d: nat, f: int, ulp: nat, c: int)
    requires ulp >= 1 && d >= 1
    requires 2 * Abs(q * d - f) == d && 2 * Abs(f * ulp - c) <= ulp
    ensures var far := if q * d > f then c < f * ulp else c > f * ulp;
            && (far ==> 2 * Abs(q * (d * ulp) - c) > d * ulp)
            && (!far ==> 2 * Abs(q * (d * ulp) - c) <= d * ulp)
  {
    DoubledGap(q, d, f, ulp, c);
    AtLeastItself(ulp, d);
    var step: int, gap := d * ulp, 2 * (q * d - f);
    assert gap == d ==> gap * ulp == step;
    assert gap == 0 - d ==> gap * ulp == 0 - step;
  }

  lemma DoubledGap(q: int, d: nat, f: int, ulp: nat, c: int)
    ensures 2 * (q * (d * ulp) - c) == (2 * (q * d - f)) * ulp + 2 * (f * ulp - c)
    ensures ulp * d == d * ulp
  {
    assert q * (d * ulp) == q * d * ulp;
    assert (2 * (q * d - f)) * ulp == 2 * (q * d * ulp) - 2 * (f * ulp);
  }

  /** Rounding to a fraction first gives the nearest integer except from the far side of a midpoint. */
  lemma SameUnlessFar(q: int, nearest: int, d: nat, f: int, ulp: nat, c: int)
    requires ulp >= 1 && d >= 1 && d % 2 == 0 && 2 * Abs(f * ulp - c) <= ulp
    requires IsHalfEven(q, f, d) && IsHalfEven(nearest, c, d * ulp)
    ensures q == nearest
       <==> !(2 * Abs(q * d - f) == d && if q * d > f then c < f * ulp else c > f * ulp)
  {
    AtLeastItself(d, ulp);
    if 2 * Abs(q * d - f) == d {
      OnMidpoint(q, d, f, ulp, c);
    } else {
      OffMidpoint(q, d, f, ulp, c);
    }
    if IsHalfEven(q, c, d * ulp) {
      HalfEvenUnique(q, nearest, c, d * ulp);
    }
  }

  lemma FractionRoundsOnceExactlyWhen(p: Decimal, prec: nat)
    requires prec >= 1 && !IsExact(p, prec) && Fit(p, prec).exponent < 0
    ensures Nearest(Fit(p, prec)) == Nearest(p) <==> !DoubleRounds(p, prec)
  {
    hide RoundHalfEven, Fit, Nearest, IsHalfEven;
    var f := Fit(p, prec);
    LongIsRounded(p, prec);
    ScalesAgree(p, f);
    NearestIsHalfEven(f);
    NearestIsHalfEven(p);
    Pow10IsEven(-f.exponent);
    SameUnlessFar(Nearest(f), Nearest(p), Denominator(f), f.coefficient, Ulp(p, f), p.coefficient);
  }

  /**
   The documented rule, half-even exactly once, holds of a conversion that is
   not refused exactly when its product does not double round.
   */
  lemma RoundsOnceExactlyWhen(m: Money, rate: Decimal, prec: nat)
    requires prec >= 1 && ApplyRateAt(m, rate, prec).Ok?
    ensures var p := Product(m.minorUnits, rate);
            ApplyRateAt(m, rate, prec).value.minorUnits == Nearest(p) <==> !DoubleRounds(p, prec)
  {
    hide RoundHalfEven, Fit;
    var p := Product(m.minorUnits, rate);
    var f := Fit(p, prec);
    if IsExact(p, prec) {
      ShortIsExact(p, prec);
    } else if f.exponent > 0 {
      LongIsRounded(p, prec);
      RoundedTooLarge(f, prec);
    } else if f.exponent == 0 {
      RoundedToInteger(p, prec);
      RoundByOne(f.coefficient);
    } else {
      FractionRoundsOnceExactlyWhen(p, prec);
    }
  }

  /** All of this at the precision `apply_rate` uses. */
  lemma ApplyRateIsNearlyNearest(m: Money, rate: Decimal)
    requires ApplyRate(m, rate).Ok?
    ensures var p, result := Product(m.minorUnits, rate), ApplyRate(m, rate).value;
            && result.currency == m.currency
            && (result.minorUnits == Nearest(p) <==> !DoubleRounds(p, ARITHMETIC_PRECISION))
            && (IsExact(p, ARITHMETIC_PRECISION) ==> result.minorUnits == Nearest(p))
            && 20 * Abs(result.minorUnits * Denominator(p) - Numerator(p)) <= 11 * Denominator(p)
  {
    hide RoundHalfEven, Fit, Pow10, Nearest, Numerator, Denominator, Quantize;
    RoundsOnceExactlyWhen(m, rate, ARITHMETIC_PRECISION);
    WithinElevenTwentieths(m, rate, ARITHMETIC_PRECISION);
  }

  lemma DigitsAre(n: nat, k: nat)
    requires k >= 1 && Pow10(k - 1) <= n < Pow10(k)
    ensures Digits(n) == k
  {
    if Digits(n) < k {
      Pow10Grows(Digits(n), k - 1);
    } else if Digits(n) > k {
      Pow10Grows(k, Digits(n) - 1);
    }
  }

  /** 1.4999..., with two digits more than the context holds. */
  function JustBelowOneAndAHalf(prec: nat): Decimal {
    Decimal(15 * Pow10(prec) - 1, -(prec as int) - 1)
  }

  lemma JustBelowRounds(prec: nat)
    requires prec >= 2
    ensures Fit(JustBelowOneAndAHalf(prec), prec) == Decimal(15 * Pow10(prec - 2), 1 - prec)
  {
    var c, x := JustBelowOneAndAHalf(prec).coefficient, Pow10(prec - 2);
    assert Pow10(prec + 1) == 10 * Pow10(prec) && Pow10(prec + 2) == 100 * Pow10(prec);
    DigitsAre(c, prec + 2);
    assert Pow10(prec) == 100 * x && Pow10(2) == 100;
    RoundIsHalfEven(c, 100);
    HalfEvenUnique(RoundHalfEven(c, 100), 15 * x, c, 100);
  }

  /**
   Rounding happens twice, not once: one minor unit at a rate just below one
   and a half becomes two, although one is the nearest integer.
   */
  lemma OneMinorUnitDoubleRounds(currency: CurrencyCode, prec: nat)
    requires prec >= 2
    ensures var rate := JustBelowOneAndAHalf(prec);
            && ApplyRateAt(Money(1, currency), rate, prec) == Ok(Money(2, currency))
            && Nearest(Product(1, rate)) == 1
  {
    hide RoundHalfEven, Fit;
    var p, x := JustBelowOneAndAHalf(prec), Pow10(prec - 2);
    assert Product(1, p) == p;
    JustBelowRounds(prec);
    var f := Fit(p, prec);
    assert Denominator(f) == Pow10(prec - 1) == 10 * x;
    NearestIsHalfEven(f);
    HalfEvenUnique(Nearest(f), 2, 15 * x, 10 * x);
    NearestIsHalfEven(p);
    assert Denominator(p) == 10 * Pow10(prec);
    HalfEvenUnique(Nearest(p), 1, Numerator(p), Denominator(p));
    Pow10Grows(1, prec);
  }

  // ---------------------------------------------------------------------
  // Order and sign
  // ---------------------------------------------------------------------

  /** The rounded coefficient back in units of the exact one. */
  function Rounded(c: int, prec: nat): int {
    RoundHalfEven(c, Pow10(Dropped(c, prec))) * Pow10(Dropped(c, prec))
  }

  lemma FitIsRounded(p: Decimal, prec: nat)
    requires prec >= 1
    ensures var f := Fit(p, prec);
            && f.exponent >= p.exponent
            && f.coefficient * Pow10(f.exponent - p.exponent) == Rounded(p.coefficient, prec)
  {
    hide RoundHalfEven, Digits;
    var c, drop := p.coefficient, Dropped(p.coefficient, prec);
    if drop == 0 {
      RoundByOne(c);
    } else {
      DigitsFit(Abs(c), prec);
      var first := RoundHalfEven(c, Pow10(drop));
      assert Abs(first) <= Pow10(prec) by {
        DroppedRounding(c, prec);
      }
      if Abs(first) == Pow10(prec) {
        CarryProduct(first, drop, prec);
      }
    }
  }

  lemma CarryProduct(first: int, drop: nat, prec: nat)
    requires prec >= 1 && Abs(first) == Pow10(prec)
    ensures first / 10 * Pow10(drop + 1) == first * Pow10(drop)
  {
    CarryTenth(first, prec);
    TenTimes(first / 10, Pow10(drop));
  }

  lemma RoundedOdd(c: int, prec: nat)
    ensures Rounded(-c, prec) == -Rounded(c, prec)
  {
    hide RoundHalfEven;
    var d := Pow10(Dropped(c, prec));
    RoundOdd(c, d);
    NegateProduct(RoundHalfEven(c, d), d);
  }

  lemma NegateProduct(a: int, b: int)
    ensures (-a) * b == -(a * b)
  {
  }

  /** The digits dropped, and with them the rounded coefficient, grow with the magnitude. */
  lemma RoundedMonotoneUp(a: nat, b: nat, prec: nat)
    requires prec >= 1 && a <= b
    ensures 0 <= Rounded(a, prec) <= Rounded(b, prec)
  {
    hide RoundHalfEven;
    var j, k := Dropped(a, prec), Dropped(b, prec);
    RoundedFromZero(a, Pow10(j));
    if j == k {
      RoundIsHalfEven(a, Pow10(k));
      RoundIsHalfEven(b, Pow10(k));
      Scale(a, b, Pow10(k));
      HalfEvenMonotone(RoundHalfEven(a, Pow10(k)), a, Pow10(k), RoundHalfEven(b, Pow10(k)), b, Pow10(k));
      Scale(RoundHalfEven(a, Pow10(k)), RoundHalfEven(b, Pow10(k)), Pow10(k));
    } else {
      DigitsGrow(a, b);
      RoundedAtMost(a, prec);
      RoundedAtLeast(b, prec);
      Pow10Grows(prec + j, prec - 1 + k);
    }
  }

  lemma RoundedFromZero(a: nat, d: nat)
    requires d > 0
    ensures RoundHalfEven(a, d) >= 0 && RoundHalfEven(a, d) * d >= 0
  {
    Scale(0, RoundHalfEven(a, d), d);
  }

  lemma DigitsGrow(a: nat, b: nat)
    requires a <= b
    ensures Digits(a) <= Digits(b)
  {
    if Digits(b) < Digits(a) && a > 0 {
      Pow10Grows(Digits(b), Digits(a) - 1);
    }
  }

  lemma RoundedAtMost(a: nat, prec: nat)
    requires prec >= 1
    ensures Rounded(a, prec) <= Pow10(prec + Dropped(a, prec))
  {
    hide RoundHalfEven;
    var j := Dropped(a, prec);
    Pow10Add(prec, j);
    if j == 0 {
      DigitsFit(a, prec);
      RoundByOne(a);
    } else {
      DigitsFit(a, prec);
      DroppedRounding(a, prec);
      Scale(RoundHalfEven(a, Pow10(j)), Pow10(prec), Pow10(j));
    }
  }

  lemma RoundedAtLeast(b: nat, prec: nat)
    requires prec >= 1 && Dropped(b, prec) > 0
    ensures Pow10(prec - 1 + Dropped(b, prec)) <= Rounded(b, prec)
  {
    hide RoundHalfEven;
    var k := Dropped(b, prec);
    DigitsFit(b, prec);
    DroppedRounding(b, prec);
    RoundedFromZero(b, Pow10(k));
    Pow10Add(prec - 1, k);
    Scale(Pow10(prec - 1), RoundHalfEven(b, Pow10(k)), Pow10(k));
  }

  lemma RoundedMonotone(a: int, b: int, prec: nat)
    requires prec >= 1 && a <= b
    ensures Rounded(a, prec) <= Rounded(b, prec)
  {
    if a >= 0 {
      RoundedMonotoneUp(a, b, prec);
    } else if b < 0 {
      RoundedMonotoneUp(-b, -a, prec);
      RoundedOdd(a, prec);
      RoundedOdd(b, prec);
    } else {
      RoundedMonotoneUp(0, -a, prec);
      RoundedMonotoneUp(0, b, prec);
      RoundedOdd(a, prec);
    }
  }

  /** A value in units of a smaller power of ten, as a fraction. */
  lemma FractionInUnits(f: Decimal, exponent: int)
    requires exponent <= f.exponent
    ensures var units := f.coefficient * Pow10(f.exponent - exponent);
            if exponent >= 0 then Numerator(f) == units * Pow10(exponent) && Denominator(f) == 1
            else Numerator(f) * Pow10(-exponent) == units * Denominator(f)
  {
    if exponent >= 0 {
      Pow10Add(f.exponent - exponent, exponent);
      Associate(f.coefficient, Pow10(f.exponent - exponent), Pow10(exponent));
    } else if f.exponent >= 0 {
      Pow10Add(f.exponent, -exponent);
      Associate(f.coefficient, Pow10(f.exponent), Pow10(-exponent));
    } else {
      Pow10Add(f.exponent - exponent, -f.exponent);
      Associate(f.coefficient, Pow10(f.exponent - exponent), Pow10(-f.exponent));
    }
  }

  lemma Associate(a: int, b: int, c: int)
    ensures a * b * c == a * (b * c)
  {
  }

  /** Decimals are ordered as fractions exactly when they are in units of a common power of ten. */
  lemma UnitsOrderFractions(f: Decimal, g: Decimal, exponent: int)
    requires exponent <= f.exponent && exponent <= g.exponent
    ensures f.coefficient * Pow10(f.exponent - exponent) <= g.coefficient * Pow10(g.exponent - exponent)
       <==> Numerator(f) * Denominator(g) <= Numerator(g) * Denominator(f)
  {
    FractionInUnits(f, exponent);
    FractionInUnits(g, exponent);
    var u, v := f.coefficient * Pow10(f.exponent - exponent), g.coefficient * Pow10(g.exponent - exponent);
    if exponent >= 0 {
      Scale(u, v, Pow10(exponent));
    } else {
      CrossUnits(Numerator(f), Denominator(f), u, Numerator(g), Denominator(g), v, Pow10(-exponent));
    }
  }

  lemma CrossUnits(n1: int, d1: nat, u: int, n2: int, d2: nat, v: int, e: nat)
    requires d1 > 0 && d2 > 0 && e > 0
    requires n1 * e == u * d1 && n2 * e == v * d2
    ensures u <= v <==> n1 * d2 <= n2 * d1
  {
    Scale(u, v, d1 * d2);
    assert n1 * d2 * e == u * (d1 * d2) by {
      assert n1 * d2 * e == n1 * e * d2;
      Associate(u, d1, d2);
    }
    assert n2 * d1 * e == v * (d1 * d2) by {
      assert n2 * d1 * e == n2 * e * d1;
      assert v * d2 * d1 == v * (d1 * d2);
    }
    Scale(n1 * d2, n2 * d1, e);
  }

  lemma HalfEvenScales(q: int, n: int, d: nat, s: nat)
    requires s >= 1 && IsHalfEven(q, n, d)
    ensures IsHalfEven(q, n * s, d * s)
  {
    assert q * (d * s) - n * s == (q * d - n) * s;
    AbsProduct(q * d - n, s);
    assert 2 * (Abs(q * d - n) * s) == 2 * Abs(q * d - n) * s;
    Scale(2 * Abs(q * d - n), d, s);
    Scale(d, 2 * Abs(q * d - n), s);
  }

  lemma ScaleBounds(low: nat, n: nat, high: nat, p: nat)
    requires p >= 1 && low <= n < high
    ensures low * p <= n * p < high * p
  {
    Scale(low, n, p);
    Scale(n, high, p);
  }

  lemma DigitsOfMultiple(n: nat, k: nat)
    requires n > 0
    ensures Digits(n * Pow10(k)) == Digits(n) + k
  {
    hide Digits, Pow10;
    var d, p := Digits(n), Pow10(k);
    Pow10Add(d, k);
    Pow10Add(d - 1, k);
    ScaleBounds(Pow10(d - 1), n, Pow10(d), p);
    assert d + k - 1 == d - 1 + k;
    DigitsAre(n * p, d + k);
  }

  /** Zeros at the end of a coefficient are rounded away with the digits before them, or not at all. */
  lemma RoundedScales(c: int, k: nat, prec: nat)
    requires prec >= 1
    ensures Rounded(c * Pow10(k), prec) == Rounded(c, prec) * Pow10(k)
  {
    hide RoundHalfEven, Digits;
    var s, j := Pow10(k), Dropped(c, prec);
    if c == 0 {
      RoundByOne(0);
      DigitsFit(0, prec);
      Pow10Grows(0, prec);
    } else {
      AbsProduct(c, s);
      DigitsOfMultiple(Abs(c), k);
      if j > 0 {
        RoundedScalesDropped(c, k, j, prec);
      } else {
        RoundByOne(c);
        RoundedScalesExact(c, k, Dropped(c * s, prec));
      }
    }
  }

  lemma RoundedScalesDropped(c: int, k: nat, j: nat, prec: nat)
    requires j == Dropped(c, prec) && Dropped(c * Pow10(k), prec) == j + k
    ensures Rounded(c * Pow10(k), prec) == Rounded(c, prec) * Pow10(k)
  {
    hide RoundHalfEven, Digits, Dropped;
    var q := RoundHalfEven(c, Pow10(j));
    Pow10Add(j, k);
    RoundIsHalfEven(c, Pow10(j));
    HalfEvenScales(q, c, Pow10(j), Pow10(k));
    RoundIsHalfEven(c * Pow10(k), Pow10(j + k));
    HalfEvenUnique(q, RoundHalfEven(c * Pow10(k), Pow10(j + k)), c * Pow10(k), Pow10(j + k));
    Associate(q, Pow10(j), Pow10(k));
  }

  lemma RoundedScalesExact(c: int, k: nat, j: nat)
    requires j <= k
    ensures RoundHalfEven(c * Pow10(k), Pow10(j)) * Pow10(j) == c * Pow10(k)
  {
    hide RoundHalfEven;
    var q := c * Pow10(k - j);
    Pow10Add(k - j, j);
    Associate(c, Pow10(k - j), Pow10(j));
    RoundIsHalfEven(c * Pow10(k), Pow10(j));
    HalfEvenUnique(q, RoundHalfEven(c * Pow10(k), Pow10(j)), c * Pow10(k), Pow10(j));
  }

  /** The rounded value of a product in units of a smaller power of ten. */
  lemma FitInUnits(p: Decimal, exponent: int, prec: nat)
    requires prec >= 1 && exponent <= p.exponent
    ensures var f := Fit(p, prec);
            && exponent <= f.exponent
            && f.coefficient * Pow10(f.exponent - exponent)
               == Rounded(p.coefficient * Pow10(p.exponent - exponent), prec)
  {
    hide RoundHalfEven, Rounded, Fit;
    var f := Fit(p, prec);
    FitIsRounded(p, prec);
    RoundedScales(p.coefficient, p.exponent - exponent, prec);
    Pow10Add(f.exponent - p.exponent, p.exponent - exponent);
    Associate(f.coefficient, Pow10(f.exponent - p.exponent), Pow10(p.exponent - exponent));
  }

  /** Rounding to the context's precision never reverses the order of two products, whatever their exponents. */
  lemma FitKeepsOrder(p: Decimal, q: Decimal, prec: nat)
    requires prec >= 1 && Numerator(p) * Denominator(q) <= Numerator(q) * Denominator(p)
    ensures var f, g := Fit(p, prec), Fit(q, prec);
            Numerator(f) * Denominator(g) <= Numerator(g) * Denominator(f)
  {
    hide RoundHalfEven, Rounded, Fit, Numerator, Denominator;
    var e := if p.exponent <= q.exponent then p.exponent else q.exponent;
    UnitsOrderFractions(p, q, e);
    RoundedMonotone(p.coefficient * Pow10(p.exponent - e), q.coefficient * Pow10(q.exponent - e), prec);
    FitInUnits(p, e, prec);
    FitInUnits(q, e, prec);
    UnitsOrderFractions(Fit(p, prec), Fit(q, prec), e);
  }

  /** A larger exact product never converts to less, whatever amounts and rates it comes from and however long it is. */
  lemma MonotoneInProduct(a: Money, rate: Decimal, b: Money, other: Decimal, prec: nat)
    requires prec >= 1
    requires var p, q := Product(a.minorUnits, rate), Product(b.minorUnits, other);
             Numerator(p) * Denominator(q) <= Numerator(q) * Denominator(p)
    ensures ApplyRateAt(a, rate, prec).Ok? && ApplyRateAt(b, other, prec).Ok? ==>
              ApplyRateAt(a, rate, prec).value.minorUnits <= ApplyRateAt(b, other, prec).value.minorUnits
  {
    hide RoundHalfEven, Fit, Numerator, Denominator;
    var f, g := Fit(Product(a.minorUnits, rate), prec), Fit(Product(b.minorUnits, other), prec);
    FitKeepsOrder(Product(a.minorUnits, rate), Product(b.minorUnits, other), prec);
    NearestIsHalfEven(f);
    NearestIsHalfEven(g);
    HalfEvenMonotone(Nearest(f), Numerator(f), Denominator(f), Nearest(g), Numerator(g), Denominator(g));
  }

  /** A larger amount never converts to less. */
  lemma MonotoneInAmount(a: Money, b: Money, rate: Decimal, prec: nat)
    requires prec >= 1 && a.minorUnits <= b.minorUnits
    ensures ApplyRateAt(a, rate, prec).Ok? && ApplyRateAt(b, rate, prec).Ok? ==>
              ApplyRateAt(a, rate, prec).value.minorUnits <= ApplyRateAt(b, rate, prec).value.minorUnits
  {
    hide ApplyRateAt, RoundHalfEven;
    if rate.coefficient > 0 {
      Scale(a.minorUnits, b.minorUnits, rate.coefficient);
      assert Pow10(0) == 1;
      UnitsOrderFractions(Product(a.minorUnits, rate), Product(b.minorUnits, rate), rate.exponent);
      MonotoneInProduct(a, rate, b, rate, prec);
    } else {
      NonPositiveRateRaises(a, rate, prec);
    }
  }

  lemma NonPositiveRateRaises(m: Money, rate: Decimal, prec: nat)
    requires rate.coefficient <= 0
    ensures ApplyRateAt(m, rate, prec) == Err(NonPositiveRate)
  {
  }

  /** A higher rate never converts an amount that is not negative to less. */
  lemma MonotoneInRate(m: Money, low: Decimal, high: Decimal, prec: nat)
    requires prec >= 1 && m.minorUnits >= 0
    requires Numerator(low) * Denominator(high) <= Numerator(high) * Denominator(low)
    ensures ApplyRateAt(m, low, prec).Ok? && ApplyRateAt(m, high, prec).Ok? ==>
              ApplyRateAt(m, low, prec).value.minorUnits <= ApplyRateAt(m, high, prec).value.minorUnits
  {
    hide ApplyRateAt, RoundHalfEven, Numerator, Denominator;
    ProductNumerator(m.minorUnits, low);
    ProductNumerator(m.minorUnits, high);
    ScaleCross(m.minorUnits, Numerator(low), Denominator(high), Numerator(high), Denominator(low));
    MonotoneInProduct(m, low, m, high, prec);
  }

  lemma ProductNumerator(units: int, rate: Decimal)
    ensures Numerator(Product(units, rate)) == units * Numerator(rate)
    ensures Denominator(Product(units, rate)) == Denominator(rate)
  {
    if rate.exponent >= 0 {
      Associate(units, rate.coefficient, Pow10(rate.exponent));
    }
  }

  lemma ScaleCross(m: nat, n1: int, d2: nat, n2: int, d1: nat)
    requires n1 * d2 <= n2 * d1
    ensures m * n1 * d2 <= m * n2 * d1
  {
    Associate(m, n1, d2);
    Associate(m, n2, d1);
    if m > 0 {
      Scale(n1 * d2, n2 * d1, m);
    }
  }

  /** The opposite amount converts to the opposite result, or is refused with it. */
  lemma OddInAmount(m: Money, rate: Decimal, prec: nat)
    requires prec >= 1
    ensures var r, s := ApplyRateAt(m, rate, prec), ApplyRateAt(Money(-m.minorUnits, m.currency), rate, prec);
            && (r.Ok? ==> s == Ok(Money(-r.value.minorUnits, m.currency)))
            && (r.Err? ==> s == r)
  {
    hide RoundHalfEven, Fit, Numerator, Denominator;
    var p, q := Product(m.minorUnits, rate), Product(-m.minorUnits, rate);
    NegateProduct(m.minorUnits, rate.coefficient);
    FitOdd(p, prec);
    NearestOdd(Fit(p, prec));
  }

  lemma FitOdd(p: Decimal, prec: nat)
    requires prec >= 1
    ensures Fit(Decimal(-p.coefficient, p.exponent), prec)
         == Decimal(-Fit(p, prec).coefficient, Fit(p, prec).exponent)
  {
    hide RoundHalfEven, Digits;
    var c, drop := p.coefficient, Dropped(p.coefficient, prec);
    if drop > 0 {
      DigitsFit(Abs(c), prec);
      DroppedRounding(c, prec);
      var first := RoundHalfEven(c, Pow10(drop));
      RoundOdd(c, Pow10(drop));
      if Abs(first) == Pow10(prec) {
        CarryTenth(first, prec);
        CarryTenth(-first, prec);
      }
    }
  }

  lemma NearestOdd(f: Decimal)
    ensures Nearest(Decimal(-f.coefficient, f.exponent)) == -Nearest(f)
  {
    if f.exponent >= 0 {
      NegateProduct(f.coefficient, Pow10(f.exponent));
    }
  }

  // ---------------------------------------------------------------------
  // Splitting an amount
  // ---------------------------------------------------------------------

  /** The first `n` parts, summed with `add`. */
  function Total(parts: seq<Money>, n: nat): Result<Money, MoneyError>
    requires 1 <= n <= |parts|
  {
    if n == 1 then Ok(parts[0])
    else
      match Total(parts, n - 1)
      case Err(e) => Err(e)
      case Ok(sum) => Add(sum, parts[n - 1])
  }

  function Units(parts: seq<Money>, n: nat): int
    requires n <= |parts|
  {
    if n == 0 then 0 else Units(parts, n - 1) + parts[n - 1].minorUnits
  }

  /** Amounts add up exactly when they are all in one currency, and then to the sum of their units. */
  lemma {:induction false} AddsUpExactlyWhen(parts: seq<Money>, n: nat)
    requires 1 <= n <= |parts|
    ensures Total(parts, n)
         == if forall i :: 0 <= i < n ==> parts[i].currency == parts[0].currency
            then Ok(Money(Units(parts, n), parts[0].currency)) else Err(CurrencyMismatch)
  {
    if n == 1 {
      assert Units(parts, 1) == Units(parts, 0) + parts[0].minorUnits;
    } else {
      AddsUpExactlyWhen(parts, n - 1);
    }
  }

  /** The first `n` parts, each converted on its own and then summed with `add`. */
  function ConvertedTotal(parts: seq<Money>, rate: Decimal, prec: nat, n: nat): Result<Money, MoneyError>
    requires 1 <= n <= |parts|
  {
    match ApplyRateAt(parts[n - 1], rate, prec)
    case Err(e) => Err(e)
    case Ok(part) =>
      if n == 1 then Ok(part)
      else
        match ConvertedTotal(parts, rate, prec, n - 1)
        case Err(e) => Err(e)
        case Ok(sum) => Add(sum, part)
  }

  /** `v` is at most `parts / whole` of a unit away from `n / d`. */
  predicate IsClose(v: int, n: int, d: nat, parts: nat, whole: nat) {
    whole * Abs(v * d - n) <= parts * d
  }

  lemma CloseSum(v1: int, n1: int, parts1: nat, v2: int, n2: int, parts2: nat, d: nat, whole: nat)
    requires IsClose(v1, n1, d, parts1, whole) && IsClose(v2, n2, d, parts2, whole)
    ensures IsClose(v1 + v2, n1 + n2, d, parts1 + parts2, whole)
  {
    var e1, e2 := v1 * d - n1, v2 * d - n2;
    assert (v1 + v2) * d - (n1 + n2) == e1 + e2;
    ScaleNat(Abs(e1 + e2), Abs(e1) + Abs(e2), whole);
    assert whole * (Abs(e1) + Abs(e2)) == whole * Abs(e1) + whole * Abs(e2);
    assert (parts1 + parts2) * d == parts1 * d + parts2 * d;
  }

  lemma ScaleNat(a: nat, b: nat, whole: nat)
    requires a <= b
    ensures whole * a <= whole * b
  {
  }

  lemma CloseToEachOther(v1: int, parts1: nat, v2: int, parts2: nat, n: int, d: nat, whole: nat)
    requires d >= 1 && IsClose(v1, n, d, parts1, whole) && IsClose(v2, n, d, parts2, whole)
    ensures whole * Abs(v1 - v2) <= parts1 + parts2
  {
    assert Abs((-v2) * d - (-n)) == Abs(v2 * d - n);
    CloseSum(v1, n, parts1, -v2, -n, parts2, d, whole);
    AbsProduct(v1 - v2, d);
    Associate(whole, Abs(v1 - v2), d);
    Scale(whole * Abs(v1 - v2), parts1 + parts2, d);
  }

  /** A conversion is within `parts / whole` of a minor unit of its exact product. */
  predicate ConvertsWithin(m: Money, rate: Decimal, prec: nat, parts: nat, whole: nat) {
    var r, p := ApplyRateAt(m, rate, prec), Product(m.minorUnits, rate);
    r.Ok? ==> IsClose(r.value.minorUnits, Numerator(p), Denominator(p), parts, whole)
  }

  lemma {:induction false} PartsStayClose(
      parts: seq<Money>, rate: Decimal, prec: nat, n: nat, each: nat, whole: nat)
    requires 1 <= n <= |parts| && Total(parts, n).Ok? && ConvertedTotal(parts, rate, prec, n).Ok?
    requires forall i :: 0 <= i < n ==> ConvertsWithin(parts[i], rate, prec, each, whole)
    ensures var p := Product(Total(parts, n).value.minorUnits, rate);
            IsClose(ConvertedTotal(parts, rate, prec, n).value.minorUnits, Numerator(p), Denominator(p),
                    n * each, whole)
  {
    hide ApplyRateAt, IsClose, Numerator, Denominator;
    var last := parts[n - 1];
    assert ConvertsWithin(last, rate, prec, each, whole);
    if n > 1 {
      PartsStayClose(parts, rate, prec, n - 1, each, whole);
      var before := Total(parts, n - 1).value.minorUnits;
      ProductOfSum(before, last.minorUnits, rate);
      CloseSum(ConvertedTotal(parts, rate, prec, n - 1).value.minorUnits, Numerator(Product(before, rate)),
               (n - 1) * each, ApplyRateAt(last, rate, prec).value.minorUnits,
               Numerator(Product(last.minorUnits, rate)), each, Denominator(rate), whole);
      assert (n - 1) * each + each == n * each;
    }
  }

  lemma ProductOfSum(a: int, b: int, rate: Decimal)
    ensures Numerator(Product(a + b, rate)) == Numerator(Product(a, rate)) + Numerator(Product(b, rate))
    ensures Denominator(Product(a, rate)) == Denominator(rate)
    ensures Denominator(Product(b, rate)) == Denominator(rate)
    ensures Denominator(Product(a + b, rate)) == Denominator(rate)
  {
    ProductNumerator(a, rate);
    ProductNumerator(b, rate);
    ProductNumerator(a + b, rate);
  }

  lemma SplitDrift(parts: seq<Money>, rate: Decimal, prec: nat, each: nat, whole: nat)
    requires |parts| >= 1 && Total(parts, |parts|).Ok? && ConvertedTotal(parts, rate, prec, |parts|).Ok?
    requires ApplyRateAt(Total(parts, |parts|).value, rate, prec).Ok?
    requires forall i :: 0 <= i < |parts| ==> ConvertsWithin(parts[i], rate, prec, each, whole)
    requires ConvertsWithin(Total(parts, |parts|).value, rate, prec, each, whole)
    ensures whole * Abs(ConvertedTotal(parts, rate, prec, |parts|).value.minorUnits
                        - ApplyRateAt(Total(parts, |parts|).value, rate, prec).value.minorUnits)
         <= each * (|parts| + 1)
  {
    hide ApplyRateAt, IsClose, Numerator, Denominator, Total, ConvertedTotal;
    PartsStayClose(parts, rate, prec, |parts|, each, whole);
    var total := Total(parts, |parts|).value;
    var p := Product(total.minorUnits, rate);
    CloseToEachOther(ConvertedTotal(parts, rate, prec, |parts|).value.minorUnits, |parts| * each,
                     ApplyRateAt(total, rate, prec).value.minorUnits, each, Numerator(p), Denominator(p), whole);
    assert |parts| * each + each == each * (|parts| + 1);
  }

  /**
   Converting the parts of an amount and summing drifts from converting the
   whole by at most half a minor unit a part, and half for the whole.
   */
  lemma SplittingDriftOfExactProducts(parts: seq<Money>, rate: Decimal, prec: nat)
    requires prec >= 1 && |parts| >= 1
    requires Total(parts, |parts|).Ok? && ConvertedTotal(parts, rate, prec, |parts|).Ok?
    requires ApplyRateAt(Total(parts, |parts|).value, rate, prec).Ok?
    requires forall i :: 0 <= i < |parts| ==> IsExact(Product(parts[i].minorUnits, rate), prec)
    requires IsExact(Product(Total(parts, |parts|).value.minorUnits, rate), prec)
    ensures Abs(ConvertedTotal(parts, rate, prec, |parts|).value.minorUnits
                - ApplyRateAt(Total(parts, |parts|).value, rate, prec).value.minorUnits)
         <= (|parts| + 1) / 2
  {
    hide Total, ConvertedTotal;
    forall i | 0 <= i < |parts| ensures ConvertsWithin(parts[i], rate, prec, 1, 2) {
      ExactIsWithinHalf(parts[i], rate, prec);
    }
    ExactIsWithinHalf(Total(parts, |parts|).value, rate, prec);
    SplitDrift(parts, rate, prec, 1, 2);
  }

  lemma ExactIsWithinHalf(m: Money, rate: Decimal, prec: nat)
    requires prec >= 1 && IsExact(Product(m.minorUnits, rate), prec)
    ensures ConvertsWithin(m, rate, prec, 1, 2)
  {
    if ApplyRateAt(m, rate, prec).Ok? {
      ExactProductRoundsOnce(m, rate, prec);
      NearestIsHalfEven(Product(m.minorUnits, rate));
    }
  }

  /** For products of any length the drift is at most 11/20 of a minor unit a part, and as much for the whole. */
  lemma SplittingDrift(parts: seq<Money>, rate: Decimal, prec: nat)
    requires prec >= 1 && |parts| >= 1
    requires Total(parts, |parts|).Ok? && ConvertedTotal(parts, rate, prec, |parts|).Ok?
    requires ApplyRateAt(Total(parts, |parts|).value, rate, prec).Ok?
    ensures 20 * Abs(ConvertedTotal(parts, rate, prec, |parts|).value.minorUnits
                     - ApplyRateAt(Total(parts, |parts|).value, rate, prec).value.minorUnits)
         <= 11 * (|parts| + 1)
  {
    hide Total, ConvertedTotal;
    forall i | 0 <= i < |parts| ensures ConvertsWithin(parts[i], rate, prec, 11, 20) {
      AnyIsWithinElevenTwentieths(parts[i], rate, prec);
    }
    AnyIsWithinElevenTwentieths(Total(parts, |parts|).value, rate, prec);
    SplitDrift(parts, rate, prec, 11, 20);
  }

  lemma AnyIsWithinElevenTwentieths(m: Money, rate: Decimal, prec: nat)
    requires prec >= 1
    ensures ConvertsWithin(m, rate, prec, 11, 20)
  {
    if ApplyRateAt(m, rate, prec).Ok? {
      WithinElevenTwentieths(m, rate, prec);
    }
  }
}
