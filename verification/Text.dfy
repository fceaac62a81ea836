/** The few string operations of Python's `str` that the modelled code relies on. */
module Text {

  /** The characters `str.isspace` accepts. */
  predicate IsSpace(c: char) {
    var u := c as int;
    9 <= u <= 13 || 28 <= u <= 32 || u == 0x85 || u == 0xA0 || u == 0x1680 || 0x2000 <= u <= 0x200A
    || u == 0x2028 || u == 0x2029 || u == 0x202F || u == 0x205F || u == 0x3000
  }

  function StripLeft(s: string): string {
    if s != [] && IsSpace(s[0]) then StripLeft(s[1..]) else s
  }

  function StripRight(s: string): string {
    if s != [] && IsSpace(s[|s| - 1]) then StripRight(s[..|s| - 1]) else s
  }

  /** `str.strip()` */
  function Strip(s: string): string {
    StripRight(StripLeft(s))
  }

  /** A string `strip` leaves alone. */
  predicate Trimmed(s: string) {
    s != [] ==> !IsSpace(s[0]) && !IsSpace(s[|s| - 1])
  }

  lemma TrimmedIsStripped(s: string)
    requires Trimmed(s)
    ensures Strip(s) == s
  {
  }

  lemma {:induction false} StripLeftKeepsEnd(s: string)
    requires s != "" && !IsSpace(s[|s| - 1])
    ensures StripLeft(s) != "" && StripLeft(s)[|StripLeft(s)| - 1] == s[|s| - 1]
  {
    if IsSpace(s[0]) {
      StripLeftKeepsEnd(s[1..]);
    }
  }

  /** A string that does not end in a space is not blank. */
  lemma NotBlank(s: string)
    requires s != "" && !IsSpace(s[|s| - 1])
    ensures Strip(s) != ""
  {
    StripLeftKeepsEnd(s);
  }

  /** `str.lower()` on ASCII letters, the only ones a hexadecimal digest holds. */
  function LowerChar(c: char): char {
    if 'A' <= c <= 'Z' then (c as int + 32) as char else c
  }

  function Lower(s: string): string {
    seq(|s|, i requires 0 <= i < |s| => LowerChar(s[i]))
  }

  predicate AllSpaces(s: string) {
    forall i :: 0 <= i < |s| ==> IsSpace(s[i])
  }

  /** `t` is what is left of `s` without the spaces around it. */
  ghost predicate IsStripped(s: string, t: string) {
    Trimmed(t) && exists left, right :: AllSpaces(left) && AllSpaces(right) && s == left + t + right
  }

  lemma {:induction false} StripLeftIs(s: string) returns (left: string)
    ensures AllSpaces(left) && s == left + StripLeft(s)
    ensures StripLeft(s) != "" ==> !IsSpace(StripLeft(s)[0])
  {
    left := "";
    if s != "" && IsSpace(s[0]) {
      var rest := StripLeftIs(s[1..]);
      left := [s[0]] + rest;
    }
  }

  lemma {:induction false} StripRightIs(s: string) returns (right: string)
    ensures AllSpaces(right) && s == StripRight(s) + right
    ensures StripRight(s) != "" ==> !IsSpace(StripRight(s)[|StripRight(s)| - 1])
  {
    right := "";
    if s != "" && IsSpace(s[|s| - 1]) {
      var rest := StripRightIs(s[..|s| - 1]);
      right := rest + [s[|s| - 1]];
    }
  }

  /** `strip` takes off the spaces at both ends, all of them and nothing else. */
  lemma StripIs(s: string, t: string)
    ensures IsStripped(s, t) <==> t == Strip(s)
  {
    var left := StripLeftIs(s);
    var right := StripRightIs(StripLeft(s));
    var u := Strip(s);
    assert s == left + u + right;
    assert u != "" ==> u[0] == StripLeft(s)[0];
    if left', right' :| Trimmed(t) && AllSpaces(left') && AllSpaces(right') && s == left' + t + right' {
      StrippedOnce(s, left, u, right, left', t, right');
    }
  }

  lemma StrippedOnce(s: string, a: string, t: string, b: string, c: string, u: string, d: string)
    requires AllSpaces(a) && AllSpaces(b) && AllSpaces(c) && AllSpaces(d) && Trimmed(t) && Trimmed(u)
    requires s == a + t + b == c + u + d
    ensures t == u
  {
    SpacesAround(s, a, t, b);
    SpacesAround(s, c, u, d);
    assert t == s[|a|..|a| + |t|] && u == s[|c|..|c| + |u|];
  }

  lemma SpacesAround(s: string, a: string, t: string, b: string)
    requires AllSpaces(a) && AllSpaces(b) && Trimmed(t) && s == a + t + b
    ensures forall k :: 0 <= k < |a| || |a| + |t| <= k < |s| ==> IsSpace(s[k])
    ensures t != "" ==> !IsSpace(s[|a|]) && !IsSpace(s[|a| + |t| - 1])
  {
    hide IsSpace;
  }

  /** The same letter, or the two cases of one. */
  predicate SameLetter(a: char, b: char) {
    a == b || ('A' <= a <= 'Z' && b as int == a as int + 32) || ('A' <= b <= 'Z' && a as int == b as int + 32)
  }

  predicate SameUpToCase(a: string, b: string) {
    |a| == |b| && forall i :: 0 <= i < |a| ==> SameLetter(a[i], b[i])
  }

  lemma LowerIgnoresCase(a: string, b: string)
    ensures Lower(a) == Lower(b) <==> SameUpToCase(a, b)
  {
    if Lower(a) == Lower(b) {
      forall i | 0 <= i < |a| ensures SameLetter(a[i], b[i]) {
        assert Lower(a)[i] == Lower(b)[i];
      }
    }
  }
}
