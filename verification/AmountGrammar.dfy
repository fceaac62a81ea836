/**
 Which strings are amounts
 (services/messaging/src/ubunturemit_messaging/pain001.py:44-53), as a grammar
 that does not parse: spaces around, a sign, groups of digits with single
 underscores between them, and what stands behind the first dot.
 */
module AmountGrammar {
  import opened Wrappers
  import opened Text
  import opened AmountCodec

  function Join(groups: seq<string>): string
    requires groups != []
  {
    if |groups| == 1 then groups[0] else groups[0] + "_" + Join(groups[1..])
  }

  function Flat(groups: seq<string>): string {
    if groups == [] then "" else groups[0] + Flat(groups[1..])
  }

  predicate AreGroups(groups: seq<string>) {
    groups != [] && forall i :: 0 <= i < |groups| ==> groups[i] != "" && AllDigits(groups[i])
  }

  function Signed(sign: string, magnitude: nat): int {
    if sign == "-" then -(magnitude as int) else magnitude
  }

  predicate Writes(t: string, v: int, sign: string, groups: seq<string>) {
    && sign in {"", "+", "-"} && AreGroups(groups)
    && t == sign + Join(groups) && v == Signed(sign, DigitsValue(Flat(groups)))
  }

  /** A string that `int` takes for this number. */
  ghost predicate Denotes(s: string, v: int) {
    exists t, sign, groups :: IsStripped(s, t) && Writes(t, v, sign, groups)
  }

  // ---------------------------------------------------------------------
  // Groups of digits
  // ---------------------------------------------------------------------

  lemma {:induction false} ValueOfPlus(a: string, c: char)
    ensures DigitsValue(a + [c]) == if c == '_' then DigitsValue(a) else 10 * DigitsValue(a) + DigitValue(c)
  {
    assert (a + [c])[..|a|] == a;
  }

  lemma {:induction false} ValueIgnoresUnderscore(a: string, b: string)
    ensures DigitsValue(a + "_" + b) == DigitsValue(a + b)
  {
    hide DigitsValue;
    if b == "" {
      ValueOfPlus(a, '_');
      assert a + "_" + b == a + ['_'] && a + b == a;
    } else {
      var before, last := b[..|b| - 1], b[|b| - 1];
      ValueIgnoresUnderscore(a, before);
      ValueOfPlus(a + "_" + before, last);
      ValueOfPlus(a + before, last);
      assert a + "_" + b == a + "_" + before + [last] && a + b == a + before + [last];
    }
  }

  lemma {:induction false} JoinedAre(groups: seq<string>, prefix: string)
    requires AreGroups(groups)
    ensures IsDigitGroup(Join(groups))
    ensures DigitsValue(prefix + Join(groups)) == DigitsValue(prefix + Flat(groups))
    decreases |groups|
  {
    hide DigitsValue;
    var first, rest := groups[0], groups[1..];
    if |groups| == 1 {
      assert Flat(rest) == "" && Flat(groups) == first;
    } else {
      JoinedAre(rest, prefix + first);
      GroupBehind(first, Join(rest));
      ValueIgnoresUnderscore(prefix + first, Join(rest));
      assert prefix + Join(groups) == prefix + first + "_" + Join(rest);
      assert prefix + Flat(groups) == prefix + first + Flat(rest);
    }
  }

  lemma GroupBehind(first: string, rest: string)
    requires first != "" && AllDigits(first) && IsDigitGroup(rest)
    ensures IsDigitGroup(first + "_" + rest)
  {
    var s := first + "_" + rest;
    forall i | 0 <= i < |s| ensures IsDigit(s[i]) || s[i] == '_' {
      if i > |first| {
        assert s[i] == rest[i - |first| - 1];
      }
    }
    forall i | 0 <= i < |s| - 1 ensures IsDigit(s[i]) || IsDigit(s[i + 1]) {
      if i > |first| {
        assert s[i] == rest[i - |first| - 1] && s[i + 1] == rest[i + 1 - |first| - 1];
      }
    }
  }

  /** The groups of a string of digits and underscores. */
  lemma {:induction false} GroupsOf(s: string) returns (groups: seq<string>)
    requires IsDigitGroup(s)
    ensures AreGroups(groups) && Join(groups) == s
    decreases |s|
  {
    if AllDigits(s) {
      return [s];
    }
    var i := FirstUnderscore(s, 0);
    var rest := GroupsOf(s[i + 1..]);
    groups := [s[..i]] + rest;
    assert groups[1..] == rest;
    assert s == s[..i] + "_" + s[i + 1..];
  }

  lemma {:induction false} FirstUnderscore(s: string, from: nat) returns (i: nat)
    requires IsDigitGroup(s) && from < |s| && AllDigits(s[..from]) && !AllDigits(s)
    ensures 0 < i < |s| - 1 && s[i] == '_' && AllDigits(s[..i]) && IsDigitGroup(s[i + 1..])
    decreases |s| - from
  {
    if s[from] == '_' {
      i := from;
    } else {
      assert s[..from + 1] == s[..from] + [s[from]];
      assert s[..|s|] == s;
      i := FirstUnderscore(s, from + 1);
    }
  }

  lemma UnsignedParse(t: string)
    requires Trimmed(t) && IsDigitGroup(t)
    ensures ParseInt(t) == Some(DigitsValue(t))
  {
    TrimmedIsStripped(t);
  }

  /** `int` takes exactly the strings of the grammar, for the numbers they write. */
  lemma ParsesExactlyTheNumerals(s: string, v: int)
    ensures ParseInt(s) == Some(v) <==> Denotes(s, v)
  {
    hide DigitsValue, IsDigitGroup, Strip, Join, Flat;
    var t := Strip(s);
    StripIs(s, t);
    if ParseInt(s) == Some(v) {
      var signed := t != "" && (t[0] == '-' || t[0] == '+');
      var sign, digits := if signed then t[..1] else "", if signed then t[1..] else t;
      var groups := GroupsOf(digits);
      JoinedAre(groups, "");
      assert "" + Join(groups) == Join(groups) && "" + Flat(groups) == Flat(groups);
      assert t == sign + digits;
      assert sign == "" || sign == "+" || sign == "-";
      assert v == Signed(sign, DigitsValue(digits)) by {
        assert sign == "-" <==> signed && t[0] == '-';
      }
      assert Writes(t, v, sign, groups);
    }
    if u, sign, groups :| IsStripped(s, u) && Writes(u, v, sign, groups) {
      StripIs(s, u);
      JoinedAre(groups, "");
      assert "" + Join(groups) == Join(groups) && "" + Flat(groups) == Flat(groups);
      SignedJoin(sign, Join(groups), t);
    }
  }

  lemma SignedJoin(sign: string, digits: string, t: string)
    requires sign in {"", "+", "-"} && IsDigitGroup(digits) && t == sign + digits
    ensures t != "" && ((t[0] == '-' || t[0] == '+') <==> sign != "") && (t[0] == '-' <==> sign == "-")
    ensures (if sign != "" then t[1..] else t) == digits
  {
  }

  // ---------------------------------------------------------------------
  // Amounts
  // ---------------------------------------------------------------------

  /** The two places that are looked at: the first two of the fraction, filled with zeros. */
  predicate AreTwoPlaces(fraction: string, places: string) {
    |places| == 2 && forall k :: 0 <= k < 2 ==> places[k] == if k < |fraction| then fraction[k] else '0'
  }

  /** `t` is `units`, a dot, `fraction`, and possibly another dot and whatever follows it. */
  predicate HasParts(t: string, units: string, fraction: string, tail: string) {
    '.' !in units && '.' !in fraction && (tail == "" || tail[0] == '.') && t == units + "." + fraction + tail
  }

  /** An amount without a dot is whole; otherwise its cents are the two places, which may have a sign of their own. */
  ghost predicate IsAmount(s: string, n: int) {
    exists t :: IsStripped(s, t) &&
      if '.' !in t then exists whole :: Denotes(t, whole) && n == 100 * whole
      else exists units, fraction, tail, places, whole, cents ::
        HasParts(t, units, fraction, tail) && AreTwoPlaces(fraction, places)
        && Denotes(units, whole) && Denotes(places, cents) && n == 100 * whole + cents
  }

  lemma {:induction false} BeforeDotIs(s: string)
    ensures var part := BeforeDot(s);
            '.' !in part && part <= s && (|part| < |s| ==> s[|part|] == '.') && ('.' !in s ==> part == s)
  {
    if s != "" && s[0] != '.' {
      BeforeDotIs(s[1..]);
      assert s == [s[0]] + s[1..];
    }
  }

  /** A string with a dot has these parts and no others. */
  lemma PartsOf(t: string, units: string, fraction: string, tail: string)
    requires HasParts(t, units, fraction, tail)
    ensures |Split(t)| > 1 && Split(t)[0] == units && Split(t)[1] == fraction
  {
    DotAfter(units, fraction + tail);
    assert t == units + "." + (fraction + tail);
    var rest := fraction + tail;
    assert t[|units| + 1..] == rest;
    assert Split(rest)[0] == fraction by {
      if tail == "" {
        assert rest == fraction;
        NoDot(fraction);
      } else {
        DotAfter(fraction, tail[1..]);
        assert rest == fraction + "." + tail[1..];
      }
    }
  }

  lemma HasSomeParts(t: string) returns (units: string, fraction: string, tail: string)
    requires '.' in t
    ensures HasParts(t, units, fraction, tail)
  {
    BeforeDotIs(t);
    units := BeforeDot(t);
    var rest := t[|units| + 1..];
    BeforeDotIs(rest);
    fraction := BeforeDot(rest);
    tail := rest[|fraction|..];
    assert t == units + "." + rest;
  }

  lemma ParsedByParts(t: string, units: string, fraction: string, tail: string, places: string)
    requires Trimmed(t) && HasParts(t, units, fraction, tail) && AreTwoPlaces(fraction, places)
    ensures ParseAmount(t)
         == if ParseInt(units).None? || ParseInt(places).None? then None
            else Some(ParseInt(units).value * 100 + ParseInt(places).value)
  {
    hide ParseInt, Split;
    TrimmedIsStripped(t);
    PartsOf(t, units, fraction, tail);
    assert places == TwoPlaces(fraction);
  }

  lemma StripTwice(s: string)
    ensures Trimmed(Strip(s)) && ParseAmount(Strip(s)) == ParseAmount(s)
  {
    hide ParseInt, Split;
    StripIs(s, Strip(s));
    TrimmedIsStripped(Strip(s));
  }

  /** The parser takes exactly these strings, for these amounts, and refuses every other string. */
  lemma ParsesExactlyTheAmounts(s: string, n: int)
    ensures ParseAmount(s) == Some(n) <==> IsAmount(s, n)
  {
    hide ParseInt, ParseAmount, Strip, Denotes, Trimmed;
    var t := Strip(s);
    StripIs(s, t);
    StripTwice(s);
    if '.' !in t {
      WholeAmount(t, n);
    } else {
      var units, fraction, tail := HasSomeParts(t);
      AmountByParts(t, n, units, fraction, tail);
    }
    forall u | IsStripped(s, u) ensures u == t {
      StripIs(s, u);
    }
  }

  lemma WholeAmount(t: string, n: int)
    requires Trimmed(t) && '.' !in t
    ensures ParseAmount(t) == Some(n) <==> exists whole :: Denotes(t, whole) && n == 100 * whole
  {
    hide ParseInt, Strip, Denotes;
    TrimmedIsStripped(t);
    NoDot(t);
    forall whole ensures ParseInt(t) == Some(whole) <==> Denotes(t, whole) {
      ParsesExactlyTheNumerals(t, whole);
    }
  }

  lemma AmountByParts(t: string, n: int, units: string, fraction: string, tail: string)
    requires Trimmed(t) && HasParts(t, units, fraction, tail)
    ensures ParseAmount(t) == Some(n)
       <==> exists units, fraction, tail, places, whole, cents ::
              HasParts(t, units, fraction, tail) && AreTwoPlaces(fraction, places)
              && Denotes(units, whole) && Denotes(places, cents) && n == 100 * whole + cents
  {
    hide ParseInt, ParseAmount, Strip, Denotes, HasParts;
    var places := TwoPlaces(fraction);
    ParsedByParts(t, units, fraction, tail, places);
    forall s: string, v: int ensures ParseInt(s) == Some(v) <==> Denotes(s, v) {
      ParsesExactlyTheNumerals(s, v);
    }
    if units', fraction', tail', places', whole, cents :|
         HasParts(t, units', fraction', tail') && AreTwoPlaces(fraction', places')
         && Denotes(units', whole) && Denotes(places', cents) && n == 100 * whole + cents {
      ParsedByParts(t, units', fraction', tail', places');
    }
  }
}
