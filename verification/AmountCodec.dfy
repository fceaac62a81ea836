/**
 The amount codec of the messages
 (services/messaging/src/ubunturemit_messaging/pain001.py:38-53): integral minor
 units to a decimal string with two places and back, without floating point.

 `ParseInt` is Python's `int` on a string of ASCII characters.
 */
module AmountCodec {
  import opened Wrappers
  import opened Text
  import opened Decimals

  predicate IsDigit(c: char) {
    '0' <= c <= '9'
  }

  predicate AllDigits(s: string) {
    forall i :: 0 <= i < |s| ==> IsDigit(s[i])
  }

  function DigitValue(c: char): (d: nat)
    ensures IsDigit(c) ==> d <= 9
  {
    if IsDigit(c) then c as int - '0' as int else 0
  }

  /** The value of digits; underscores between them are skipped. */
  function DigitsValue(s: string): nat {
    if s == "" then 0
    else
      var before := DigitsValue(s[..|s| - 1]);
      if s[|s| - 1] == '_' then before else 10 * before + DigitValue(s[|s| - 1])
  }

  /** Digits, with single underscores between them. */
  predicate IsDigitGroup(s: string) {
    && s != "" && IsDigit(s[0]) && IsDigit(s[|s| - 1])
    && (forall i :: 0 <= i < |s| ==> IsDigit(s[i]) || s[i] == '_')
    && (forall i :: 0 <= i < |s| - 1 ==> IsDigit(s[i]) || IsDigit(s[i + 1]))
  }

  /** `int(s)` */
  function ParseInt(s: string): Option<int> {
    var t := Strip(s);
    var signed := t != "" && (t[0] == '-' || t[0] == '+');
    var digits := if signed then t[1..] else t;
    if !IsDigitGroup(digits) then None
    else if signed && t[0] == '-' then Some(-(DigitsValue(digits) as int))
    else Some(DigitsValue(digits))
  }

  /** The part of a string before its first dot. */
  function BeforeDot(s: string): (part: string)
    ensures |part| <= |s|
  {
    if s == "" || s[0] == '.' then "" else [s[0]] + BeforeDot(s[1..])
  }

  /** `s.split(".")` */
  function Split(s: string): (parts: seq<string>)
    ensures parts != []
  {
    var first := BeforeDot(s);
    if |first| == |s| then [first] else [first] + Split(s[|first| + 1..])
  }

  /** `s.ljust(2, "0")[:2]` */
  function TwoPlaces(s: string): (t: string)
    ensures |t| == 2
  {
    if |s| == 0 then "00" else if |s| == 1 then s + "0" else s[..2]
  }

  /** `decimal_str_to_minor_units`; what follows a second dot is ignored. */
  function ParseAmount(s: string): Option<int> {
    var parts := Split(Strip(s));
    var dollars := ParseInt(parts[0]);
    var cents := if |parts| == 1 then Some(0) else ParseInt(TwoPlaces(parts[1]));
    if dollars.None? || cents.None? then None else Some(dollars.value * 100 + cents.value)
  }

  function Digit(d: nat): (c: char)
    requires d <= 9
    ensures IsDigit(c) && DigitValue(c) == d
  {
    (d + '0' as int) as char
  }

  function PrintNat(n: nat): (s: string)
    ensures s != ""
  {
    if n < 10 then [Digit(n)] else PrintNat(n / 10) + [Digit(n % 10)]
  }

  function PrintInt(n: int): string {
    if n < 0 then "-" + PrintNat(-n) else PrintNat(n)
  }

  /** `minor_units_to_decimal_str`: the units are rounded down, so the cents are never negative. */
  function PrintAmount(minorUnits: int): string {
    PrintInt(minorUnits / 100) + "." + [Digit(minorUnits % 100 / 10), Digit(minorUnits % 10)]
  }

  // ---------------------------------------------------------------------
  // Digits
  // ---------------------------------------------------------------------

  lemma {:induction false} PrintedDigits(n: nat)
    ensures AllDigits(PrintNat(n)) && DigitsValue(PrintNat(n)) == n
  {
    if n >= 10 {
      PrintedDigits(n / 10);
      var before := PrintNat(n / 10);
      assert (before + [Digit(n % 10)])[..|before|] == before;
    } else {
      assert [Digit(n)][..0] == "";
    }
  }

  lemma DigitsAreAGroup(s: string)
    requires s != "" && AllDigits(s)
    ensures IsDigitGroup(s)
  {
  }

  lemma DigitsAreTrimmed(s: string)
    requires AllDigits(s)
    ensures Strip(s) == s
  {
    TrimmedIsStripped(s);
  }

  lemma ParsedDigits(s: string)
    requires s != "" && AllDigits(s)
    ensures ParseInt(s) == Some(DigitsValue(s))
  {
    DigitsAreTrimmed(s);
    DigitsAreAGroup(s);
  }

  lemma ParsedNegative(s: string)
    requires s != "" && AllDigits(s)
    ensures ParseInt("-" + s) == Some(-(DigitsValue(s) as int))
  {
    TrimmedIsStripped("-" + s);
    DigitsAreAGroup(s);
    assert ("-" + s)[1..] == s;
  }

  lemma ParsedPrint(n: int)
    ensures ParseInt(PrintInt(n)) == Some(n)
  {
    hide ParseInt, DigitsValue;
    if n < 0 {
      PrintedDigits(-n);
      ParsedNegative(PrintNat(-n));
    } else {
      PrintedDigits(n);
      ParsedDigits(PrintNat(n));
    }
  }

  // ---------------------------------------------------------------------
  // Dots
  // ---------------------------------------------------------------------

  lemma {:induction false} DotAfter(a: string, b: string)
    requires '.' !in a
    ensures BeforeDot(a + "." + b) == a
  {
    if a == "" {
      assert a + "." + b == "." + b;
    } else {
      DotAfter(a[1..], b);
      assert (a + "." + b)[0] == a[0];
      assert (a + "." + b)[1..] == a[1..] + "." + b;
    }
  }

  lemma {:induction false} NoDot(a: string)
    requires '.' !in a
    ensures BeforeDot(a) == a && Split(a) == [a]
  {
    if a != "" {
      NoDot(a[1..]);
    }
  }

  lemma SplitAtDot(a: string, b: string)
    requires '.' !in a && '.' !in b
    ensures Split(a + "." + b) == [a, b]
  {
    DotAfter(a, b);
    NoDot(b);
    assert (a + "." + b)[|a| + 1..] == b;
  }

  /** An integer part and a fraction of digits, joined by a dot, are parsed apart. */
  lemma ParsedParts(a: string, b: string)
    requires '.' !in a && a != "" && Trimmed(a) && AllDigits(b)
    ensures ParseAmount(a + "." + b)
         == if ParseInt(a).None? then None else Some(ParseInt(a).value * 100 + DigitsValue(TwoPlaces(b)))
  {
    hide ParseInt;
    TrimmedIsStripped(a + "." + b);
    SplitAtDot(a, b);
    ParsedDigits(TwoPlaces(b));
  }

  /** Without a dot there are no cents. */
  lemma ParsedWhole(a: string)
    requires '.' !in a && a != "" && Trimmed(a)
    ensures ParseAmount(a) == if ParseInt(a).None? then None else Some(ParseInt(a).value * 100)
  {
    hide ParseInt;
    TrimmedIsStripped(a);
    NoDot(a);
  }

  // ---------------------------------------------------------------------
  // The round trip
  // ---------------------------------------------------------------------

  lemma PrintIntIsPlain(n: int)
    ensures var s := PrintInt(n); s != "" && '.' !in s && Trimmed(s)
  {
    PrintedDigits(if n < 0 then -n else n);
  }

  lemma OneDigit(c: char)
    requires IsDigit(c)
    ensures DigitsValue([c]) == DigitValue(c)
  {
    assert [c][..0] == "";
  }

  lemma TwoDigitsValue(c: char, d: char)
    requires IsDigit(c) && IsDigit(d)
    ensures DigitsValue([c, d]) == 10 * DigitValue(c) + DigitValue(d)
  {
    OneDigit(c);
    assert [c, d][..1] == [c];
  }

  lemma TwoDigits(c: nat)
    requires c < 100
    ensures var s := [Digit(c / 10), Digit(c % 10)];
            AllDigits(s) && TwoPlaces(s) == s && DigitsValue(s) == c
  {
    TwoDigitsValue(Digit(c / 10), Digit(c % 10));
  }

  /** Every integer, negative ones included, survives printing and parsing. */
  lemma AmountRoundTrip(n: int)
    ensures ParseAmount(PrintAmount(n)) == Some(n)
  {
    hide ParseInt, ParseAmount, PrintInt;
    PrintIntIsPlain(n / 100);
    TwoDigits(n % 100);
    assert n % 100 % 10 == n % 10;
    ParsedPrint(n / 100);
    ParsedParts(PrintInt(n / 100), [Digit(n % 100 / 10), Digit(n % 10)]);
  }

  // ---------------------------------------------------------------------
  // What the strings denote
  // ---------------------------------------------------------------------

  /** A decimal literal: an optional minus sign, an integer part, and a fraction if there is a point. */
  datatype Literal = Literal(negative: bool, units: string, point: bool, fraction: string)

  predicate IsLiteral(l: Literal) {
    l.units != "" && AllDigits(l.units) && AllDigits(l.fraction) && (!l.point ==> l.fraction == "")
  }

  function Spelled(l: Literal): string {
    (if l.negative then "-" else "") + l.units + (if l.point then "." + l.fraction else "")
  }

  /** The value of a literal, in units of its last place. */
  function Coefficient(l: Literal): int {
    var magnitude := DigitsValue(l.units) * Pow10(|l.fraction|) + DigitsValue(l.fraction);
    if l.negative then -magnitude else magnitude
  }

  /** The literal that is printed for an amount. */
  function Printed(n: int): Literal {
    Literal(n < 0, PrintNat(if n < 0 then -(n / 100) else n / 100), true, [Digit(n % 100 / 10), Digit(n % 10)])
  }

  /** The printed string denotes the amount exactly for amounts that are not negative or have no cents. */
  lemma PrintedDenotesExactlyWhen(n: int)
    ensures IsLiteral(Printed(n)) && Spelled(Printed(n)) == PrintAmount(n)
    ensures Coefficient(Printed(n)) == n <==> n >= 0 || n % 100 == 0
  {
    var units := if n < 0 then -(n / 100) else n / 100;
    PrintedDigits(units);
    TwoDigits(n % 100);
    assert n % 100 % 10 == n % 10;
    assert Pow10(2) == 100;
    assert n == 100 * (n / 100) + n % 100;
  }

  lemma {:induction false} DigitsSplit(a: string, b: string)
    requires AllDigits(a) && AllDigits(b)
    ensures DigitsValue(a + b) == DigitsValue(a) * Pow10(|b|) + DigitsValue(b)
    ensures DigitsValue(b) < Pow10(|b|)
  {
    if b == "" {
      assert a + b == a;
    } else {
      var c := b[..|b| - 1];
      DigitsSplit(a, c);
      assert (a + b)[..|a + b| - 1] == a + c;
      assert (a + b)[|a + b| - 1] == b[|b| - 1];
      TenTimes(DigitsValue(a), Pow10(|c|));
    }
  }

  lemma ShortPlaces(f: string)
    requires AllDigits(f) && |f| < 2
    ensures DigitsValue(TwoPlaces(f)) * Pow10(|f|) == 100 * DigitsValue(f)
  {
    if |f| == 0 {
      TwoDigitsValue('0', '0');
    } else {
      OneDigit(f[0]);
      TwoDigitsValue(f[0], '0');
      assert f == [f[0]] && TwoPlaces(f) == [f[0], '0'] && Pow10(1) == 10;
    }
  }

  lemma LongPlaces(f: string)
    requires AllDigits(f) && |f| >= 2
    ensures var t, p := DigitsValue(f[..2]), Pow10(|f| - 2);
            && Pow10(|f|) == 100 * p
            && DigitsValue(f) == t * p + DigitsValue(f[2..])
            && DigitsValue(f[2..]) < p
  {
    hide DigitsValue;
    DigitsSplit(f[..2], f[2..]);
    assert f[..2] + f[2..] == f;
    Pow10Add(2, |f| - 2);
    assert Pow10(2) == 100;
  }

  lemma OneMore(t: nat, p: nat)
    requires p >= 1
    ensures t * p < (t + 1) * p
  {
  }

  lemma HundredTimes(t: nat, p: nat, rest: nat, all: nat, scale: nat)
    requires rest < p && all == t * p + rest && scale == 100 * p
    ensures t * scale <= 100 * all < (t + 1) * scale
  {
    assert t * (100 * p) == 100 * (t * p);
    assert (t + 1) * (100 * p) == 100 * (t * p) + 100 * p;
  }

  /** The first two places are the fraction in hundredths, rounded down. */
  lemma TwoPlacesRoundDown(f: string)
    requires AllDigits(f)
    ensures var t := DigitsValue(TwoPlaces(f));
            t * Pow10(|f|) <= 100 * DigitsValue(f) < (t + 1) * Pow10(|f|)
  {
    hide DigitsValue, Pow10;
    if |f| < 2 {
      ShortPlaces(f);
      OneMore(DigitsValue(TwoPlaces(f)), Pow10(|f|));
    } else {
      LongPlaces(f);
      HundredTimes(DigitsValue(f[..2]), Pow10(|f| - 2), DigitsValue(f[2..]), DigitsValue(f), Pow10(|f|));
    }
  }

  /** `q` is `n / d` rounded down. */
  predicate IsFloor(q: int, n: int, d: nat) {
    q * d <= n < (q + 1) * d
  }

  lemma ParsedLiteral(l: Literal)
    requires IsLiteral(l)
    ensures ParseAmount(Spelled(l))
         == Some((if l.negative then -100 * DigitsValue(l.units) else 100 * DigitsValue(l.units))
                 + DigitsValue(TwoPlaces(l.fraction)))
  {
    hide ParseInt, ParseAmount, DigitsValue;
    var whole := (if l.negative then "-" else "") + l.units;
    if l.negative {
      ParsedNegative(l.units);
    } else {
      ParsedDigits(l.units);
      assert whole == l.units;
    }
    if l.point {
      assert Spelled(l) == whole + "." + l.fraction;
      ParsedParts(whole, l.fraction);
    } else {
      assert Spelled(l) == whole;
      ParsedWhole(whole);
      TwoDigitsValue('0', '0');
    }
  }

  lemma ScaledFloor(units: nat, cents: nat, p: nat, f: nat)
    requires cents * p <= 100 * f < (cents + 1) * p
    ensures IsFloor(100 * units + cents, 100 * (units * p + f), p)
  {
    assert (100 * units + cents) * p == 100 * (units * p) + cents * p;
    assert (100 * units + cents + 1) * p == 100 * (units * p) + (cents + 1) * p;
  }

  /** An unsigned decimal, with a point or without and with any number of places, parses to its value in minor
    * units, rounded down. */
  lemma UnsignedParsesToFloor(l: Literal)
    requires IsLiteral(l) && !l.negative
    ensures ParseAmount(Spelled(l)).Some?
    ensures IsFloor(ParseAmount(Spelled(l)).value, 100 * Coefficient(l), Pow10(|l.fraction|))
  {
    hide ParseAmount, DigitsValue;
    ParsedLiteral(l);
    TwoPlacesRoundDown(l.fraction);
    ScaledFloor(DigitsValue(l.units), DigitsValue(TwoPlaces(l.fraction)), Pow10(|l.fraction|),
                DigitsValue(l.fraction));
  }

  /** A negative decimal does so only without a fraction: its cents are added instead of subtracted. */
  lemma NegativeParsesToFloorExactlyWhen(l: Literal)
    requires IsLiteral(l) && l.negative
    ensures ParseAmount(Spelled(l)).Some?
    ensures IsFloor(ParseAmount(Spelled(l)).value, 100 * Coefficient(l), Pow10(|l.fraction|))
       <==> DigitsValue(l.fraction) == 0
  {
    hide ParseAmount, DigitsValue;
    ParsedLiteral(l);
    TwoPlacesRoundDown(l.fraction);
    NegativeFloor(DigitsValue(l.units), DigitsValue(TwoPlaces(l.fraction)), Pow10(|l.fraction|),
                  DigitsValue(l.fraction));
  }

  lemma NegativeFloor(units: nat, cents: nat, p: nat, f: nat)
    requires p >= 1 && cents * p <= 100 * f < (cents + 1) * p
    ensures IsFloor(-100 * units + cents, 100 * (-(units * p + f)), p) <==> f == 0
  {
    assert (-100 * units + cents) * p == -100 * (units * p) + cents * p;
    assert (-100 * units + cents + 1) * p == -100 * (units * p) + (cents + 1) * p;
    if f == 0 {
      AtLeastItself(cents, p);
    }
  }
}
