/**
 What the markup checker accepts, stated without the checker.

 The checker matches late: an element whose end tag may be omitted stays on
 its stack until something below it closes.  `Replay` is an independent account
 of well-formed markup (section 13.1.2.4 of the WHATWG HTML Standard): a
 strict, exactly balanced tag language in which every omitted end tag has been
 written out.  `SilentUnderExactlyWhen` connects the two for every stream of
 events and every strategy, `SilentExactlyWhenCompletable` for the checker's.
 */
module MarkupGrammar {
  import opened Wrappers
  import opened Markup
  import opened MarkupStrategies

  /** A written event, or an end tag the author left out. */
  datatype Token = Given(event: Event) | Omitted(tag: string)

  function Erase(tokens: seq<Token>): seq<Event> {
    if tokens == [] then []
    else (if tokens[0].Given? then [tokens[0].event] else []) + Erase(tokens[1..])
  }

  predicate InForeign(open: seq<string>) {
    exists i :: 0 <= i < |open| && open[i] in FOREIGN
  }

  predicate OnTop(open: seq<string>, tag: string) {
    open != [] && open[|open| - 1] == tag
  }

  /** The strategy would pop the innermost open element at a `tag` start. */
  predicate ClosesTop(closes: Strategy, open: seq<string>, tag: string) {
    open != [] && closes(open[|open| - 1], tag)
  }

  /**
   Strict replay: every end tag names the innermost open element, nothing is
   skipped, and no start tag follows an innermost open element it would pop.
   Only an optional end tag may be omitted, and only outside foreign content.
   */
  function Accept(closes: Strategy, open: seq<string>, token: Token): Option<seq<string>> {
    match token
    case Omitted(tag) =>
      if !InForeign(open) && tag in OPTIONAL_END && OnTop(open, tag) then Some(open[..|open| - 1]) else None
    case Given(StartTag(tag, _)) =>
      if InForeign(open) then Some(open + [tag])
      else if ClosesTop(closes, open, tag) then None
      else if tag in VOID then Some(open)
      else Some(open + [tag])
    case Given(StartEndTag(tag, _)) =>
      if InForeign(open) then Some(open)
      else if ClosesTop(closes, open, tag) then None
      else if tag in VOID then Some(open)
      else None
    case Given(EndTag(tag, _)) =>
      if !InForeign(open) && tag in VOID then None
      else if OnTop(open, tag) then Some(open[..|open| - 1])
      else None
  }

  function Replay(closes: Strategy, open: seq<string>, tokens: seq<Token>): Option<seq<string>>
    decreases |tokens|
  {
    if tokens == [] then Some(open)
    else
      match Accept(closes, open, tokens[0])
      case None => None
      case Some(next) => Replay(closes, next, tokens[1..])
  }

  /** `tokens` writes out the omitted end tags of `events`, and the result is exactly balanced. */
  predicate Completes(closes: Strategy, events: seq<Event>, tokens: seq<Token>) {
    Erase(tokens) == events && Replay(closes, [], tokens) == Some([])
  }

  // ---------------------------------------------------------------------
  // Streams of tokens
  // ---------------------------------------------------------------------

  lemma {:induction false} EraseConcat(a: seq<Token>, b: seq<Token>)
    ensures Erase(a + b) == Erase(a) + Erase(b)
  {
    if a == [] {
      assert a + b == b;
    } else {
      EraseConcat(a[1..], b);
      assert (a + b)[1..] == a[1..] + b;
      var first := if a[0].Given? then [a[0].event] else [];
      assert first + (Erase(a[1..]) + Erase(b)) == (first + Erase(a[1..])) + Erase(b);
    }
  }

  lemma {:induction false} ReplayConcat(closes: Strategy, open: seq<string>, a: seq<Token>, b: seq<Token>)
    requires Replay(closes, open, a).Some?
    ensures Replay(closes, open, a + b) == Replay(closes, Replay(closes, open, a).value, b)
    decreases |a|
  {
    if a == [] {
      assert a + b == b;
    } else {
      ReplayConcat(closes, Accept(closes, open, a[0]).value, a[1..], b);
      assert (a + b)[1..] == a[1..] + b;
      assert (a + b)[0] == a[0];
    }
  }

  lemma ReplayCons(closes: Strategy, open: seq<string>, token: Token, rest: seq<Token>)
    ensures Replay(closes, open, [token] + rest)
         == match Accept(closes, open, token) case None => None case Some(next) => Replay(closes, next, rest)
  {
    assert ([token] + rest)[1..] == rest;
  }

  /** The omitted end tags that take `open` down to its first `kept` entries, innermost first. */
  function Omissions(open: seq<string>, kept: nat): (tokens: seq<Token>)
    requires kept <= |open|
    ensures Erase(tokens) == []
    decreases |open|
  {
    if |open| == kept then []
    else [Omitted(open[|open| - 1])] + Omissions(open[..|open| - 1], kept)
  }

  lemma {:induction false} OmissionsReplay(closes: Strategy, open: seq<string>, kept: nat)
    requires kept <= |open|
    requires kept < |open| ==> !InForeign(open)
    requires forall i :: kept <= i < |open| ==> open[i] in OPTIONAL_END
    ensures Replay(closes, open, Omissions(open, kept)) == Some(open[..kept])
    decreases |open|
  {
    if |open| == kept {
      assert open[..kept] == open;
    } else {
      var front := open[..|open| - 1];
      assert forall i :: 0 <= i < |front| ==> front[i] == open[i];
      OmissionsReplay(closes, front, kept);
      assert front[..kept] == open[..kept];
      ReplayCons(closes, open, Omitted(open[|open| - 1]), Omissions(front, kept));
    }
  }

  // ---------------------------------------------------------------------
  // Soundness: a silent run is a completion
  // ---------------------------------------------------------------------

  lemma {:induction false} NothingUnclosed(stack: seq<Element>, low: nat, high: nat, inForeign: bool, closer: Closer)
    requires low <= high <= |stack|
    ensures Unclosed(stack, low, high, inForeign, closer) == []
       <==> forall i :: low <= i < high ==> !MustClose(stack[i], inForeign)
    decreases high
  {
    if low < high {
      NothingUnclosed(stack, low, high - 1, inForeign, closer);
    }
  }

  lemma ForeignTags(stack: seq<Element>)
    ensures InForeign(Tags(stack)) <==> ForeignBelow(stack, |stack|)
    ensures ForeignCount(stack, |stack|) > 0 <==> ForeignBelow(stack, |stack|)
  {
    CountMeansForeign(stack, |stack|);
    if ForeignBelow(stack, |stack|) {
      var i :| 0 <= i < |stack| && stack[i].tag in FOREIGN;
      assert Tags(stack)[i] in FOREIGN;
    }
  }

  lemma TagsOfPrefix(stack: seq<Element>, n: nat)
    requires n <= |stack|
    ensures Tags(stack[..n]) == Tags(stack)[..n]
  {
  }

  /** Writing out the end tags above `kept`, then one event that strict replay accepts there. */
  lemma CutThen(closes: Strategy, stack: seq<Element>, kept: nat, e: Event) returns (before: seq<Token>)
    requires kept <= |stack|
    requires kept < |stack| ==> !ForeignBelow(stack, |stack|)
    requires forall i :: kept <= i < |stack| ==> stack[i].tag in OPTIONAL_END
    ensures Erase(before) == []
    ensures Replay(closes, Tags(stack), before + [Given(e)]) == Accept(closes, Tags(stack[..kept]), Given(e))
  {
    var open := Tags(stack);
    ForeignTags(stack);
    TagsOfPrefix(stack, kept);
    before := Omissions(open, kept);
    OmissionsReplay(closes, open, kept);
    ReplayConcat(closes, open, before, [Given(e)]);
    ReplayCons(closes, open[..kept], Given(e), []);
    assert [Given(e)] + [] == [Given(e)];
  }

  lemma ForeignKept(stack: seq<Element>, kept: nat)
    requires kept <= |stack|
    requires forall i :: kept <= i < |stack| ==> stack[i].tag !in FOREIGN
    ensures InForeign(Tags(stack[..kept])) <==> ForeignBelow(stack, |stack|)
  {
    ForeignTags(stack[..kept]);
    if ForeignBelow(stack, |stack|) {
      var i :| 0 <= i < |stack| && stack[i].tag in FOREIGN;
      assert stack[..kept][i].tag in FOREIGN;
    }
    if ForeignBelow(stack[..kept], kept) {
      var i :| 0 <= i < kept && stack[..kept][i].tag in FOREIGN;
      assert stack[i].tag in FOREIGN;
    }
  }

  /** Once the popped elements are closed, strict replay takes the start tag as the checker does. */
  lemma StartIsAccepted(closes: Strategy, s: State, e: Event)
    requires IsStrategy(closes) && StackInvariant(s) && !e.EndTag?
    requires StepBy(closes, s, e).findings == s.findings
    ensures Accept(closes, Tags(LeftBy(closes, s, e.tag)), Given(e)) == Some(Tags(StepBy(closes, s, e).stack))
  {
    PoppedAreOptional(closes, s.stack, e.tag);
    ForeignTags(s.stack);
    var left := LeftBy(closes, s, e.tag);
    if s.foreignDepth == 0 {
      ForeignKept(s.stack, |left|);
    }
    assert Tags(left + [Element(e.tag, e.at)]) == Tags(left) + [e.tag];
  }

  /** A start tag is a strict step once the end tags it implies are written out. */
  lemma SilentStartReplays(closes: Strategy, s: State, e: Event) returns (before: seq<Token>)
    requires IsStrategy(closes)
    requires !e.EndTag?
    requires StackInvariant(s)
    requires StepBy(closes, s, e).findings == s.findings
    ensures Erase(before) == []
    ensures Replay(closes, Tags(s.stack), before + [Given(e)]) == Some(Tags(StepBy(closes, s, e).stack))
  {
    hide Accept, Replay, StepBy;
    ForeignTags(s.stack);
    PoppedAreOptional(closes, s.stack, e.tag);
    var left := LeftBy(closes, s, e.tag);
    before := CutThen(closes, s.stack, |left|, e);
    assert s.stack[..|left|] == left;
    StartIsAccepted(closes, s, e);
  }

  /** An end tag is a strict step once the end tags it skips are written out. */
  lemma SilentEndReplays(closes: Strategy, s: State, tag: string, at: Position) returns (before: seq<Token>)
    requires StackInvariant(s)
    requires OnEndTag(s, tag, at).findings == s.findings
    ensures Erase(before) == []
    ensures Replay(closes, Tags(s.stack), before + [Given(EndTag(tag, at))]) == Some(Tags(OnEndTag(s, tag, at).stack))
  {
    ForeignTags(s.stack);
    var depth := Matched(s, tag).value;
    NothingUnclosed(s.stack, depth + 1, |s.stack|, s.foreignDepth > 0, ParentEnd(tag, at.line));
    before := CutThen(closes, s.stack, depth + 1, EndTag(tag, at));
    var left := s.stack[..depth + 1];
    assert left[..depth] == s.stack[..depth];
    TagsOfPrefix(left, depth);
    if depth + 1 == |s.stack| {
      assert left == s.stack;
    } else {
      ForeignKept(s.stack, depth + 1);
    }
  }

  lemma SilentStepReplays(closes: Strategy, s: State, e: Event) returns (before: seq<Token>)
    requires IsStrategy(closes)
    requires StackInvariant(s)
    requires StepBy(closes, s, e).findings == s.findings
    ensures Erase(before) == []
    ensures Replay(closes, Tags(s.stack), before + [Given(e)]) == Some(Tags(StepBy(closes, s, e).stack))
  {
    if e.EndTag? {
      before := SilentEndReplays(closes, s, e.tag, e.at);
    } else {
      before := SilentStartReplays(closes, s, e);
    }
  }

  /** What is silently left open at the end of the file can be closed by omitted end tags. */
  lemma SilentEndOfFile(closes: Strategy, stack: seq<Element>) returns (tokens: seq<Token>)
    requires AtEndOfFile(stack) == []
    ensures Erase(tokens) == []
    ensures Replay(closes, Tags(stack), tokens) == Some([])
  {
    NothingUnclosed(stack, 0, |stack|, false, EndOfFile);
    var open := Tags(stack);
    assert forall i :: 0 <= i < |open| ==> open[i] in OPTIONAL_END && open[i] !in FOREIGN;
    tokens := Omissions(open, 0);
    OmissionsReplay(closes, open, 0);
  }

  lemma JoinTokens(closes: Strategy, open: seq<string>, before: seq<Token>, e: Event, rest: seq<Token>)
    requires Erase(before) == []
    requires Replay(closes, open, before + [Given(e)]).Some?
    ensures Erase(before + [Given(e)] + rest) == [e] + Erase(rest)
    ensures Replay(closes, open, before + [Given(e)] + rest)
         == Replay(closes, Replay(closes, open, before + [Given(e)]).value, rest)
  {
    ReplayConcat(closes, open, before + [Given(e)], rest);
    EraseConcat(before, [Given(e)]);
    EraseConcat(before + [Given(e)], rest);
    assert Erase([Given(e)]) == [e];
  }

  lemma {:induction false} SilentRunCompletes(closes: Strategy, s: State, events: seq<Event>)
    returns (tokens: seq<Token>)
    requires IsStrategy(closes)
    requires StackInvariant(s)
    requires RunBy(closes, s, events).findings == s.findings
    requires AtEndOfFile(RunBy(closes, s, events).stack) == []
    ensures Erase(tokens) == events
    ensures Replay(closes, Tags(s.stack), tokens) == Some([])
    decreases |events|
  {
    if events == [] {
      tokens := SilentEndOfFile(closes, s.stack);
    } else {
      var e, s' := events[0], StepBy(closes, s, events[0]);
      StepByOnlyAddsFindings(closes, s, e);
      RunByOnlyAddsFindings(closes, s', events[1..]);
      assert s'.findings == s.findings;
      var before := SilentStepReplays(closes, s, e);
      StepByKeepsInvariant(closes, s, e);
      var rest := SilentRunCompletes(closes, s', events[1..]);
      JoinTokens(closes, Tags(s.stack), before, e, rest);
      tokens := before + [Given(e)] + rest;
      assert events == [e] + events[1..];
    }
  }

  // ---------------------------------------------------------------------
  // Completeness: any completion at all makes the late-matching run silent
  // ---------------------------------------------------------------------

  /**
   The `h` outermost held elements are the `k` outermost strictly open ones,
   with extra elements that could legally have been closed earlier: each extra
   has an optional end tag and no foreign root at or below it.
   */
  predicate Sheds(open: seq<string>, k: nat, held: seq<Element>, h: nat)
    requires k <= |open| && h <= |held|
    decreases h
  {
    if h == 0 then k == 0
    else
      var top := held[h - 1].tag;
      || (k > 0 && open[k - 1] == top && Sheds(open, k - 1, held, h - 1))
      || (top in OPTIONAL_END && !ForeignBelow(held, h) && Sheds(open, k, held, h - 1))
  }

  /** The checker's whole stack sheds down to the strict one. */
  predicate Follows(open: seq<string>, held: seq<Element>) {
    Sheds(open, |open|, held, |held|)
  }

  lemma {:induction false} ShedsPrefix(
      open: seq<string>, k: nat, held: seq<Element>, h: nat, open': seq<string>, held': seq<Element>)
    requires k <= |open| && h <= |held| && k <= |open'| && h <= |held'|
    requires forall i :: 0 <= i < k ==> open[i] == open'[i]
    requires forall i :: 0 <= i < h ==> held[i] == held'[i]
    requires Sheds(open, k, held, h)
    ensures Sheds(open', k, held', h)
    decreases h
  {
    if h > 0 {
      if k > 0 && open[k - 1] == held[h - 1].tag && Sheds(open, k - 1, held, h - 1) {
        ShedsPrefix(open, k - 1, held, h - 1, open', held');
      } else {
        ShedsPrefix(open, k, held, h - 1, open', held');
      }
    }
  }

  lemma {:induction false} ShedsAgreesOnForeign(open: seq<string>, k: nat, held: seq<Element>, h: nat)
    requires k <= |open| && h <= |held|
    requires Sheds(open, k, held, h)
    ensures (exists i :: 0 <= i < k && open[i] in FOREIGN) <==> ForeignBelow(held, h)
    decreases h
  {
    if h > 0 {
      if k > 0 && open[k - 1] == held[h - 1].tag && Sheds(open, k - 1, held, h - 1) {
        ShedsAgreesOnForeign(open, k - 1, held, h - 1);
        if ForeignBelow(held, h - 1) {
          var i :| 0 <= i < k - 1 && open[i] in FOREIGN;
        }
      } else {
        ShedsAgreesOnForeign(open, k, held, h - 1);
      }
    }
  }

  /** Closing an optional element early never separates the two stacks. */
  lemma {:induction false} ShedsOmission(open: seq<string>, k: nat, held: seq<Element>, h: nat)
    requires 0 < k <= |open| && h <= |held|
    requires Sheds(open, k, held, h) && !ForeignBelow(held, h)
    requires open[k - 1] in OPTIONAL_END
    ensures Sheds(open, k - 1, held, h)
    decreases h
  {
    if !(open[k - 1] == held[h - 1].tag && Sheds(open, k - 1, held, h - 1)) {
      ShedsOmission(open, k, held, h - 1);
    }
  }

  /** Popping what a start tag closes loses nothing of a strict stack whose top it does not close. */
  lemma {:induction false} ShedsPopped(
      closes: Strategy, open: seq<string>, held: seq<Element>, tag: string, left: nat, h: nat)
    requires left <= h <= |held|
    requires Sheds(open, |open|, held, h) && !ClosesTop(closes, open, tag)
    requires forall i :: left <= i < h ==> closes(held[i].tag, tag)
    ensures Sheds(open, |open|, held, left)
    decreases h
  {
    if left < h {
      ShedsPopped(closes, open, held, tag, left, h - 1);
    }
  }

  /** Late matching: what the innermost `tag` skips was already shed, and the rest still sheds. */
  lemma {:induction false} ShedsEndTag(open: seq<string>, held: seq<Element>, tag: string, h: nat)
    requires h <= |held|
    requires Sheds(open, |open|, held, h) && OnTop(open, tag)
    ensures Innermost(held, tag, h).Some?
    ensures Sheds(open, |open| - 1, held, Innermost(held, tag, h).value)
    ensures forall i :: Innermost(held, tag, h).value < i < h ==> !MustClose(held[i], ForeignBelow(held, h))
    decreases h
  {
    if held[h - 1].tag == tag {
      if !Sheds(open, |open| - 1, held, h - 1) {
        ShedsOmission(open, |open|, held, h - 1);
      }
    } else {
      ShedsEndTag(open, held, tag, h - 1);
    }
  }

  lemma {:induction false} ShedsEverything(open: seq<string>, held: seq<Element>, h: nat)
    requires h <= |held|
    requires Sheds(open, 0, held, h)
    ensures forall i :: 0 <= i < h ==> !MustClose(held[i], false)
  {
    if h > 0 {
      ShedsEverything(open, held, h - 1);
    }
  }

  /** Popping, and then pushing, both follow the strict stack. */
  lemma FollowsStart(closes: Strategy, open: seq<string>, held: seq<Element>, left: nat, element: Element)
    requires Follows(open, held) && left <= |held|
    requires left < |held| ==> !ClosesTop(closes, open, element.tag)
    requires forall i :: left <= i < |held| ==> closes(held[i].tag, element.tag)
    ensures Follows(open, held[..left])
    ensures Follows(open + [element.tag], held[..left] + [element])
  {
    if left < |held| {
      ShedsPopped(closes, open, held, element.tag, left, |held|);
    }
    ShedsPrefix(open, |open|, held, left, open, held[..left]);
    ShedsPrefix(open, |open|, held, left, open + [element.tag], held[..left] + [element]);
  }

  lemma {:induction false} FollowsEnd(open: seq<string>, held: seq<Element>, tag: string)
    requires Follows(open, held) && OnTop(open, tag)
    ensures Innermost(held, tag, |held|).Some?
    ensures Follows(open[..|open| - 1], held[..Innermost(held, tag, |held|).value])
  {
    ShedsEndTag(open, held, tag, |held|);
    var depth := Innermost(held, tag, |held|).value;
    ShedsPrefix(open, |open| - 1, held, depth, open[..|open| - 1], held[..depth]);
  }

  lemma FollowsForeign(open: seq<string>, s: State)
    requires StackInvariant(s) && Follows(open, s.stack)
    ensures InForeign(open) <==> s.foreignDepth > 0
    ensures s.foreignDepth > 0 <==> ForeignBelow(s.stack, |s.stack|)
  {
    ShedsAgreesOnForeign(open, |open|, s.stack, |s.stack|);
    CountMeansForeign(s.stack, |s.stack|);
  }

  /** One written event: if strict replay takes it, the checker takes it without a finding. */
  lemma AcceptedStepIsSilent(closes: Strategy, open: seq<string>, s: State, e: Event)
    requires IsStrategy(closes)
    requires StackInvariant(s)
    requires Follows(open, s.stack)
    requires Accept(closes, open, Given(e)).Some?
    ensures StepBy(closes, s, e).findings == s.findings
    ensures Follows(Accept(closes, open, Given(e)).value, StepBy(closes, s, e).stack)
  {
    FollowsForeign(open, s);
    if e.EndTag? {
      FollowsEnd(open, s.stack, e.tag);
      ShedsEndTag(open, s.stack, e.tag, |s.stack|);
      var depth := Matched(s, e.tag).value;
      NothingUnclosed(s.stack, depth + 1, |s.stack|, s.foreignDepth > 0, ParentEnd(e.tag, e.at.line));
    } else {
      var left := if s.foreignDepth == 0 then KeptBy(closes, s.stack, e.tag, |s.stack|) else |s.stack|;
      assert s.foreignDepth > 0 ==> s.stack[..left] == s.stack;
      FollowsStart(closes, open, s.stack, left, Element(e.tag, e.at));
    }
  }

  lemma OmissionFollows(closes: Strategy, open: seq<string>, s: State, tag: string)
    requires StackInvariant(s)
    requires Follows(open, s.stack)
    requires Accept(closes, open, Omitted(tag)).Some?
    ensures Follows(Accept(closes, open, Omitted(tag)).value, s.stack)
  {
    FollowsForeign(open, s);
    ShedsOmission(open, |open|, s.stack, |s.stack|);
    ShedsPrefix(open, |open| - 1, s.stack, |s.stack|, open[..|open| - 1], s.stack);
  }

  lemma {:induction false} CompletionKeepsSilent(closes: Strategy, open: seq<string>, s: State, tokens: seq<Token>)
    requires IsStrategy(closes)
    requires StackInvariant(s)
    requires Follows(open, s.stack)
    requires Replay(closes, open, tokens) == Some([])
    ensures RunBy(closes, s, Erase(tokens)).findings == s.findings
    ensures AtEndOfFile(RunBy(closes, s, Erase(tokens)).stack) == []
    decreases |tokens|
  {
    if tokens == [] {
      ShedsEverything(open, s.stack, |s.stack|);
      NothingUnclosed(s.stack, 0, |s.stack|, false, EndOfFile);
    } else if tokens[0].Omitted? {
      OmissionFollows(closes, open, s, tokens[0].tag);
      CompletionKeepsSilent(closes, Accept(closes, open, tokens[0]).value, s, tokens[1..]);
      assert Erase(tokens) == Erase(tokens[1..]);
    } else {
      var e := tokens[0].event;
      AcceptedStepIsSilent(closes, open, s, e);
      StepByKeepsInvariant(closes, s, e);
      CompletionKeepsSilent(closes, Accept(closes, open, tokens[0]).value, StepBy(closes, s, e), tokens[1..]);
      assert Erase(tokens) == [e] + Erase(tokens[1..]);
      assert ([e] + Erase(tokens[1..]))[1..] == Erase(tokens[1..]);
    }
  }

  /**
   Under any strategy, the checker is silent on exactly the pages that become
   strictly balanced when some of their optional end tags are written out,
   in such a way that no start tag follows an open element it would pop.
   */
  lemma SilentUnderExactlyWhen(closes: Strategy, events: seq<Event>)
    requires IsStrategy(closes)
    ensures FindingsBy(closes, events) == [] <==> exists tokens :: Completes(closes, events, tokens)
  {
    var end := RunBy(closes, INITIAL, events);
    if FindingsBy(closes, events) == [] {
      var tokens := SilentRunCompletes(closes, INITIAL, events);
      assert Tags(INITIAL.stack) == [];
      assert Completes(closes, events, tokens);
    }
    if tokens :| Completes(closes, events, tokens) {
      CompletionKeepsSilent(closes, [], INITIAL, tokens);
    }
  }

  /**
   The checker itself: silent on exactly the pages that become strictly
   balanced when some of their optional end tags are written out, wherever
   those are placed, so long as no paragraph is left open where one may not be.
   No stream is excluded: foreign content, self-closed tags, void end tags and
   implicitly closed paragraphs are all covered.
   */
  lemma SilentExactlyWhenCompletable(events: seq<Event>)
    ensures Findings(events) == [] <==> exists tokens :: Completes(Paragraphs(), events, tokens)
  {
    StrategiesAreStrategies();
    CheckerFindings(events);
    SilentUnderExactlyWhen(Paragraphs(), events);
  }
}
