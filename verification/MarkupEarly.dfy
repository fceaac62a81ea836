/**
 Popping optional elements early against popping them late.

 The comment at scripts/check_markup.py:101-108 says the two cannot be told
 apart.  Early popping is the checker under a strategy that extends its own.
 It accepts no page the checker refuses; it refuses a page the checker accepts
 exactly when a written end tag belongs to an element it has popped already,
 and no outer element of that name can take its place.
 */
module MarkupEarly {
  import opened Wrappers
  import opened Markup
  import opened MarkupStrategies
  import opened MarkupGrammar

  // ---------------------------------------------------------------------
  // What early popping accepts, late popping accepts
  // ---------------------------------------------------------------------

  lemma {:induction false} StricterReplay(closes: Strategy, other: Strategy, open: seq<string>, tokens: seq<Token>)
    requires Extends(closes, other) && Replay(closes, open, tokens).Some?
    ensures Replay(other, open, tokens) == Replay(closes, open, tokens)
    decreases |tokens|
  {
    if tokens != [] {
      assert Accept(other, open, tokens[0]) == Accept(closes, open, tokens[0]);
      StricterReplay(closes, other, Accept(closes, open, tokens[0]).value, tokens[1..]);
    }
  }

  /** The more a strategy pops, the fewer pages it is silent on. */
  lemma SilentEarlyIsSilentLate(closes: Strategy, other: Strategy, events: seq<Event>)
    requires IsStrategy(closes) && IsStrategy(other) && Extends(closes, other)
    ensures FindingsBy(closes, events) == [] ==> FindingsBy(other, events) == []
  {
    hide FindingsBy;
    SilentUnderExactlyWhen(closes, events);
    SilentUnderExactlyWhen(other, events);
    if FindingsBy(closes, events) == [] {
      var tokens :| Completes(closes, events, tokens);
      StricterReplay(closes, other, [], tokens);
      assert Completes(other, events, tokens);
    }
  }

  /** So late matching accepts a page if any early-closing strategy does. */
  lemma CheckerAcceptsWhatAnyStrategyDoes(closes: Strategy, events: seq<Event>)
    requires IsStrategy(closes) && Extends(closes, Paragraphs())
    ensures FindingsBy(closes, events) == [] ==> Findings(events) == []
  {
    hide FindingsBy, Findings;
    StrategiesAreStrategies();
    CheckerFindings(events);
    SilentEarlyIsSilentLate(closes, Paragraphs(), events);
  }

  // ---------------------------------------------------------------------
  // The two runs side by side
  // ---------------------------------------------------------------------

  /** Which places of the late stack the early run still holds, innermost last. */
  predicate IsSelection(early: seq<Element>, late: seq<Element>, kept: seq<nat>) {
    && |kept| == |early|
    && (forall i :: 0 <= i < |kept| ==> kept[i] < |late| && late[kept[i]] == early[i])
    && (forall i, j :: 0 <= i < j < |kept| ==> kept[i] < kept[j])
  }

  /** What the early run no longer holds had an optional end tag. */
  predicate DropsOptional(late: seq<Element>, kept: seq<nat>) {
    forall i :: 0 <= i < |late| && i !in kept ==> late[i].tag in OPTIONAL_END
  }

  predicate Shadows(early: State, late: State, kept: seq<nat>) {
    && IsSelection(early.stack, late.stack, kept)
    && DropsOptional(late.stack, kept)
    && early.foreignDepth == late.foreignDepth
  }

  /** The event opens an element. */
  predicate Opens(s: State, e: Event) {
    e.StartTag? && (s.foreignDepth > 0 || e.tag !in VOID)
  }

  /** The places the early run still holds after an event. */
  function KeptAfter(closes: Strategy, early: State, late: State, kept: seq<nat>, e: Event): (kept': seq<nat>)
    requires |kept| == |early.stack|
    ensures |kept'| == |StepBy(closes, early, e).stack|
  {
    match e
    case EndTag(tag, _) =>
      if Matched(early, tag).Some? then kept[..Matched(early, tag).value] else kept
    case StartTag(tag, _) =>
      kept[..|LeftBy(closes, early, tag)|] + if Opens(early, e) then [|LeftBy(Paragraphs(), late, tag)|] else []
    case StartEndTag(tag, _) =>
      kept[..|LeftBy(closes, early, tag)|]
  }

  /** The element this end tag belongs to has been popped already. */
  predicate IsPopped(late: State, kept: seq<nat>, tag: string) {
    Matched(late, tag).Some? && Matched(late, tag).value !in kept
  }

  /** Another element of that name is still held, with only optional ones above it. */
  predicate TakesItsPlace(early: State, tag: string) {
    Matched(early, tag).Some?
    && forall i :: Matched(early, tag).value < i < |early.stack| ==>
         !MustClose(early.stack[i], early.foreignDepth > 0)
  }

  /**
   Every written end tag whose element the strategy has popped finds another
   to close.
   */
  predicate EndTagsFind(closes: Strategy, early: State, late: State, kept: seq<nat>, events: seq<Event>)
    requires |kept| == |early.stack|
    decreases |events|
  {
    events == []
    || ((events[0].EndTag? && IsPopped(late, kept, events[0].tag) ==> TakesItsPlace(early, events[0].tag))
        && EndTagsFind(closes, StepBy(closes, early, events[0]), Step(late, events[0]),
                       KeptAfter(closes, early, late, kept, events[0]), events[1..]))
  }

  // ---------------------------------------------------------------------
  // One event
  // ---------------------------------------------------------------------

  /** Exactly the first `m` kept places are below `n`. */
  predicate IsCut(kept: seq<nat>, n: nat, m: nat) {
    m <= |kept| && (forall i :: 0 <= i < m ==> kept[i] < n) && (forall i :: m <= i < |kept| ==> kept[i] >= n)
  }

  /** Dropping optional elements does not change how many foreign roots are open. */
  lemma {:induction false} DroppedAreNotForeign(
      early: seq<Element>, late: seq<Element>, kept: seq<nat>, m: nat, n: nat)
    requires IsSelection(early, late, kept) && DropsOptional(late, kept) && n <= |late| && IsCut(kept, n, m)
    ensures ForeignCount(early, m) == ForeignCount(late, n)
    decreases n
  {
    assert OPTIONAL_END !! FOREIGN;
    if n > 0 {
      if m > 0 && kept[m - 1] == n - 1 {
        DroppedAreNotForeign(early, late, kept, m - 1, n - 1);
      } else {
        assert n - 1 !in kept;
        DroppedAreNotForeign(early, late, kept, m, n - 1);
      }
    }
  }

  /** Cutting both stacks keeps the one a selection of the other. */
  lemma CutSelection(early: seq<Element>, late: seq<Element>, kept: seq<nat>, m: nat, n: nat)
    requires IsSelection(early, late, kept) && DropsOptional(late, kept)
    requires m <= |early| && n <= |late|
    requires forall i :: 0 <= i < m ==> kept[i] < n
    requires forall i :: m <= i < |kept| && kept[i] < n ==> early[i].tag in OPTIONAL_END
    ensures IsSelection(early[..m], late[..n], kept[..m]) && DropsOptional(late[..n], kept[..m])
  {
    forall j | 0 <= j < m ensures kept[j] in kept[..m] {
      assert kept[..m][j] == kept[j];
    }
    forall i | 0 <= i < n && i !in kept[..m] ensures late[i].tag in OPTIONAL_END {
      if i in kept {
        var j :| 0 <= j < |kept| && kept[j] == i;
        assert early[j].tag in OPTIONAL_END;
      }
    }
  }

  lemma PushSelection(early: seq<Element>, late: seq<Element>, kept: seq<nat>, element: Element)
    requires IsSelection(early, late, kept) && DropsOptional(late, kept)
    ensures IsSelection(early + [element], late + [element], kept + [|late|])
    ensures DropsOptional(late + [element], kept + [|late|])
  {
    forall i | 0 <= i < |late| + 1 && i !in kept + [|late|] ensures (late + [element])[i].tag in OPTIONAL_END {
      assert i !in kept && i != |late|;
    }
  }

  /** The early run pops at least what the late one does. */
  lemma StartKeepsSelection(closes: Strategy, early: State, late: State, kept: seq<nat>, tag: string)
    requires IsStrategy(closes) && Extends(closes, Paragraphs()) && Shadows(early, late, kept)
    ensures var m := |LeftBy(closes, early, tag)|;
            && IsSelection(LeftBy(closes, early, tag), LeftBy(Paragraphs(), late, tag), kept[..m])
            && DropsOptional(LeftBy(Paragraphs(), late, tag), kept[..m])
  {
    var m, n := |LeftBy(closes, early, tag)|, |LeftBy(Paragraphs(), late, tag)|;
    if early.foreignDepth > 0 {
      assert kept[..m] == kept;
    } else {
      forall i | n <= i < |late.stack| ensures closes(late.stack[i].tag, tag) {
        assert Paragraphs()(late.stack[i].tag, tag);
      }
      assert m > 0 ==> !closes(late.stack[kept[m - 1]].tag, tag);
      forall i | m <= i < |kept| ensures early.stack[i].tag in OPTIONAL_END {
        assert closes(early.stack[i].tag, tag);
      }
      CutSelection(early.stack, late.stack, kept, m, n);
    }
  }

  lemma StartKeepsShadow(closes: Strategy, early: State, late: State, kept: seq<nat>, e: Event)
    requires IsStrategy(closes) && Extends(closes, Paragraphs()) && Shadows(early, late, kept)
    requires !e.EndTag? && Step(late, e).findings == late.findings
    ensures StepBy(closes, early, e).findings == early.findings
    ensures Shadows(StepBy(closes, early, e), Step(late, e), KeptAfter(closes, early, late, kept, e))
  {
    hide LeftBy, IsSelection, DropsOptional;
    CheckerStep(late, e);
    SelectionLength(early.stack, late.stack, kept);
    StartKeepsSelection(closes, early, late, kept, e.tag);
    var left, under := LeftBy(closes, early, e.tag), LeftBy(Paragraphs(), late, e.tag);
    if e.StartTag? {
      PushSelection(left, under, kept[..|left|], Element(e.tag, e.at));
    }
    NothingPopped(closes, early, e.tag);
    NothingPopped(Paragraphs(), late, e.tag);
    assert kept[..|early.stack|] == kept;
    assert kept[..|left|] + [] == kept[..|left|];
  }

  lemma SelectionLength(early: seq<Element>, late: seq<Element>, kept: seq<nat>)
    requires IsSelection(early, late, kept)
    ensures |kept| == |early|
  {
  }

  lemma NothingPopped(closes: Strategy, s: State, tag: string)
    ensures s.foreignDepth > 0 ==> LeftBy(closes, s, tag) == s.stack
  {
  }

  /** The element the end tag belongs to is still held: it is the early run's innermost one, too. */
  lemma HeldIsMatched(early: State, late: State, kept: seq<nat>, tag: string, j: nat)
    requires Shadows(early, late, kept) && j < |kept| && Matched(late, tag) == Some(kept[j])
    ensures Matched(early, tag) == Some(j)
  {
    assert early.stack[j].tag == tag;
    var d := Innermost(early.stack, tag, |early.stack|);
    if d.Some? {
      assert late.stack[kept[d.value]].tag == tag;
    }
  }

  /** The end tag is silent in the late run: it matches, and nothing above its element has to be closed. */
  lemma SilentEnd(s: State, tag: string, at: Position)
    ensures OnEndTag(s, tag, at).findings == s.findings <==> TakesItsPlace(s, tag)
  {
    if Matched(s, tag).Some? {
      NothingUnclosed(s.stack, Matched(s, tag).value + 1, |s.stack|, s.foreignDepth > 0, ParentEnd(tag, at.line));
    }
  }

  /** What the early run closes lies at or below what the late run closes. */
  lemma ClosesNoHigher(early: State, late: State, kept: seq<nat>, tag: string)
    requires Shadows(early, late, kept) && Matched(early, tag).Some? && Matched(late, tag).Some?
    ensures var m, n := Matched(early, tag).value, Matched(late, tag).value;
            && kept[m] <= n
            && (forall i :: 0 <= i < m ==> kept[i] < n)
            && (n !in kept ==> kept[m] < n && early.stack[m].tag in OPTIONAL_END)
  {
    var m, n := Matched(early, tag).value, Matched(late, tag).value;
    assert late.stack[kept[m]].tag == tag;
    assert kept[m] in kept;
  }

  lemma EndKeepsShadow(closes: Strategy, early: State, late: State, kept: seq<nat>, tag: string, at: Position)
    requires Shadows(early, late, kept)
    requires TakesItsPlace(early, tag) && TakesItsPlace(late, tag)
    ensures Shadows(OnEndTag(early, tag, at), OnEndTag(late, tag, at),
                    KeptAfter(closes, early, late, kept, EndTag(tag, at)))
  {
    var m, n := Matched(early, tag).value, Matched(late, tag).value;
    ClosesNoHigher(early, late, kept, tag);
    ClosedAreOptional(early, late, kept, tag);
    CutSelection(early.stack, late.stack, kept, m, n);
    DroppedAreNotForeign(early.stack[..m], late.stack[..n], kept[..m], m, n);
    CountOfPrefix(early.stack, early.stack[..m], m);
    CountOfPrefix(late.stack, late.stack[..n], n);
  }

  /** What the early run closes beyond the late one is optional. */
  lemma ClosedAreOptional(early: State, late: State, kept: seq<nat>, tag: string)
    requires Shadows(early, late, kept) && TakesItsPlace(early, tag) && TakesItsPlace(late, tag)
    ensures var m, n := Matched(early, tag).value, Matched(late, tag).value;
            forall i :: m <= i < |kept| && kept[i] < n ==> early.stack[i].tag in OPTIONAL_END
  {
    var m, n := Matched(early, tag).value, Matched(late, tag).value;
    ClosesNoHigher(early, late, kept, tag);
    if n in kept {
      var j :| 0 <= j < |kept| && kept[j] == n;
      HeldIsMatched(early, late, kept, tag, j);
    }
  }

  /** An end tag that is silent late is silent early unless its element is gone and nothing takes its place. */
  lemma EndIsSilentExactlyWhen(early: State, late: State, kept: seq<nat>, tag: string)
    requires Shadows(early, late, kept) && TakesItsPlace(late, tag)
    ensures TakesItsPlace(early, tag) <==> (IsPopped(late, kept, tag) ==> TakesItsPlace(early, tag))
  {
    if !IsPopped(late, kept, tag) {
      var j :| 0 <= j < |kept| && kept[j] == Matched(late, tag).value;
      HeldIsMatched(early, late, kept, tag, j);
      forall i | j < i < |early.stack| ensures !MustClose(early.stack[i], early.foreignDepth > 0) {
        assert kept[j] < kept[i];
      }
    }
  }

  // ---------------------------------------------------------------------
  // A whole page
  // ---------------------------------------------------------------------

  lemma ShadowedEnd(early: State, late: State, kept: seq<nat>)
    requires Shadows(early, late, kept) && AtEndOfFile(late.stack) == []
    ensures AtEndOfFile(early.stack) == []
  {
    NothingUnclosed(late.stack, 0, |late.stack|, false, EndOfFile);
    NothingUnclosed(early.stack, 0, |early.stack|, false, EndOfFile);
  }

  lemma {:induction false} RunsAgreeExactlyWhen(
      closes: Strategy, early: State, late: State, kept: seq<nat>, events: seq<Event>)
    requires IsStrategy(closes) && Extends(closes, Paragraphs()) && Shadows(early, late, kept)
    requires Run(late, events).findings == late.findings && AtEndOfFile(Run(late, events).stack) == []
    ensures var end := RunBy(closes, early, events);
            end.findings == early.findings && AtEndOfFile(end.stack) == []
            <==> EndTagsFind(closes, early, late, kept, events)
    decreases |events|
  {
    hide Shadows, StepBy, Step, TakesItsPlace, IsPopped, KeptAfter, AtEndOfFile;
    ShadowLength(early, late, kept);
    if events == [] {
      ShadowedEnd(early, late, kept);
      return;
    }
    var e := events[0];
    SilentFirst(late, events);
    RunByOnlyAddsFindings(closes, StepBy(closes, early, e), events[1..]);
    StepByOnlyAddsFindings(closes, early, e);
    if e.EndTag? {
      StepsAtEnd(closes, early, late, e);
      SilentEnd(late, e.tag, e.at);
      SilentEnd(early, e.tag, e.at);
      EndIsSilentExactlyWhen(early, late, kept, e.tag);
      if !TakesItsPlace(early, e.tag) {
        return;
      }
      EndKeepsShadow(closes, early, late, kept, e.tag, e.at);
    } else {
      StartKeepsShadow(closes, early, late, kept, e);
    }
    var kept' := KeptAfter(closes, early, late, kept, e);
    ShadowLength(StepBy(closes, early, e), Step(late, e), kept');
    RunsAgreeExactlyWhen(closes, StepBy(closes, early, e), Step(late, e), kept', events[1..]);
  }

  lemma ShadowLength(early: State, late: State, kept: seq<nat>)
    requires Shadows(early, late, kept)
    ensures |kept| == |early.stack|
  {
  }

  lemma StepsAtEnd(closes: Strategy, early: State, late: State, e: Event)
    requires e.EndTag?
    ensures StepBy(closes, early, e) == OnEndTag(early, e.tag, e.at) && Step(late, e) == OnEndTag(late, e.tag, e.at)
  {
  }

  lemma SilentFirst(s: State, events: seq<Event>)
    requires events != [] && Run(s, events).findings == s.findings
    ensures Step(s, events[0]).findings == s.findings
    ensures Run(Step(s, events[0]), events[1..]) == Run(s, events)
  {
    hide Step;
    CheckerStep(s, events[0]);
    StepByOnlyAddsFindings(Paragraphs(), s, events[0]);
    CheckerRun(Step(s, events[0]), events[1..]);
    RunByOnlyAddsFindings(Paragraphs(), Step(s, events[0]), events[1..]);
  }

  /**
   A page the checker is silent on is also silent when elements are popped
   early exactly when every written end tag whose element has been popped by
   then finds another open element of its name, with only optional ones above.
   */
  lemma EarlyAgreesExactlyWhen(closes: Strategy, events: seq<Event>)
    requires IsStrategy(closes) && Extends(closes, Paragraphs()) && Findings(events) == []
    ensures FindingsBy(closes, events) == [] <==> EndTagsFind(closes, INITIAL, INITIAL, [], events)
  {
    hide EndTagsFind;
    RunsAgreeExactlyWhen(closes, INITIAL, INITIAL, [], events);
  }

  /** No written end tag belongs to an element the strategy has popped by then. */
  predicate EndTagsAreOfHeld(closes: Strategy, early: State, late: State, kept: seq<nat>, events: seq<Event>)
    requires |kept| == |early.stack|
    decreases |events|
  {
    events == []
    || ((events[0].EndTag? ==> !IsPopped(late, kept, events[0].tag))
        && EndTagsAreOfHeld(closes, StepBy(closes, early, events[0]), Step(late, events[0]),
                            KeptAfter(closes, early, late, kept, events[0]), events[1..]))
  }

  lemma {:induction false} HeldEndTagsFind(
      closes: Strategy, early: State, late: State, kept: seq<nat>, events: seq<Event>)
    requires |kept| == |early.stack| && EndTagsAreOfHeld(closes, early, late, kept, events)
    ensures EndTagsFind(closes, early, late, kept, events)
    decreases |events|
  {
    hide KeptAfter, StepBy, Step, IsPopped, TakesItsPlace;
    if events != [] {
      HeldEndTagsFind(closes, StepBy(closes, early, events[0]), Step(late, events[0]),
                      KeptAfter(closes, early, late, kept, events[0]), events[1..]);
    }
  }

  /** In particular it stays silent when no written end tag belongs to a popped element. */
  lemma EarlyAgreesOnHeldEndTags(closes: Strategy, events: seq<Event>)
    requires IsStrategy(closes) && Extends(closes, Paragraphs()) && Findings(events) == []
    requires EndTagsAreOfHeld(closes, INITIAL, INITIAL, [], events)
    ensures FindingsBy(closes, events) == []
  {
    hide FindingsBy, Findings, EndTagsAreOfHeld, EndTagsFind;
    EarlyAgreesExactlyWhen(closes, events);
    HeldEndTagsFind(closes, INITIAL, INITIAL, [], events);
  }

  // ---------------------------------------------------------------------
  // They differ
  // ---------------------------------------------------------------------

  /** `<t>a<t>b</t></t>` */
  function Nested(tag: string): seq<Event> {
    [StartTag(tag, Position(1, 0)), StartTag(tag, Position(1, 5)),
     EndTag(tag, Position(1, 10)), EndTag(tag, Position(1, 15))]
  }

  lemma OptionalTagsAreOrdinary(tag: string)
    requires tag in OPTIONAL_END
    ensures tag !in VOID && tag !in FOREIGN
  {
    assert OPTIONAL_END !! FOREIGN && OPTIONAL_END !! VOID;
  }

  /** The two elements of the page, one inside the other or, popped early, one after the other. */
  lemma NestedStarts(closes: Strategy, tag: string)
    requires tag in OPTIONAL_END
    ensures var e, a, b := Nested(tag), Element(tag, Position(1, 0)), Element(tag, Position(1, 5));
            var s := StepBy(closes, StepBy(closes, INITIAL, e[0]), e[1]);
            s == State(if closes(tag, tag) then [b] else [a, b], [], 0)
  {
    OptionalTagsAreOrdinary(tag);
    var e, a := Nested(tag), Element(tag, Position(1, 0));
    var s := StepBy(closes, INITIAL, e[0]);
    assert s == State([a], [], 0);
    assert KeptBy(closes, [a], tag, 1) == if closes(tag, tag) then 0 else 1;
    assert [a][..0] == [] && [a][..1] == [a];
  }

  lemma NestedEnds(tag: string, s: State)
    requires tag in OPTIONAL_END && s.foreignDepth == 0 && s.findings == [] && 1 <= |s.stack| <= 2
    requires forall i :: 0 <= i < |s.stack| ==> s.stack[i].tag == tag
    ensures var e := Nested(tag);
            var end := OnEndTag(OnEndTag(s, e[2].tag, e[2].at), e[3].tag, e[3].at);
            end == State([], if |s.stack| == 2 then [] else [ClosesNothing(tag, Position(1, 15))], 0)
  {
    OptionalTagsAreOrdinary(tag);
    var e := Nested(tag);
    var n := |s.stack|;
    EndOfTop(s, tag, e[2].at);
    var s' := OnEndTag(s, tag, e[2].at);
    if n == 2 {
      EndOfTop(s', tag, e[3].at);
      assert s'.stack[..0] == [];
    } else {
      assert s'.stack == [];
    }
  }

  lemma EndOfTop(s: State, tag: string, at: Position)
    requires tag in OPTIONAL_END && s.foreignDepth == 0 && s.stack != [] && |s.stack| <= 2
    requires forall i :: 0 <= i < |s.stack| ==> s.stack[i].tag == tag
    ensures OnEndTag(s, tag, at) == State(s.stack[..|s.stack| - 1], s.findings, 0)
  {
    OptionalTagsAreOrdinary(tag);
    var n := |s.stack|;
    assert Innermost(s.stack, tag, n) == Some(n - 1);
    assert Unclosed(s.stack, n, n, false, ParentEnd(tag, at.line)) == [];
    assert ForeignCount(s.stack, n - 1) == 0;
  }

  lemma NestedFindings(closes: Strategy, tag: string)
    requires tag in OPTIONAL_END
    ensures FindingsBy(closes, Nested(tag)) == if closes(tag, tag) then [ClosesNothing(tag, Position(1, 15))] else []
  {
    hide StepBy, OnEndTag;
    var e := Nested(tag);
    NestedStarts(closes, tag);
    var s := StepBy(closes, StepBy(closes, INITIAL, e[0]), e[1]);
    NestedEnds(tag, s);
    EndSteps(closes, s, e[2]);
    EndSteps(closes, StepBy(closes, s, e[2]), e[3]);
    RunOfFour(closes, e);
  }

  lemma EndSteps(closes: Strategy, s: State, e: Event)
    requires e.EndTag?
    ensures StepBy(closes, s, e) == OnEndTag(s, e.tag, e.at)
  {
  }

  lemma RunOfFour(closes: Strategy, e: seq<Event>)
    requires |e| == 4
    ensures RunBy(closes, INITIAL, e)
         == StepBy(closes, StepBy(closes, StepBy(closes, StepBy(closes, INITIAL, e[0]), e[1]), e[2]), e[3])
  {
    hide StepBy;
    assert e[1..][1..] == e[2..] && e[2..][1..] == e[3..] && e[3..][1..] == [];
    assert e[1..][0] == e[1] && e[2..][0] == e[2] && e[3..][0] == e[3];
    var s2 := StepBy(closes, StepBy(closes, INITIAL, e[0]), e[1]);
    assert RunBy(closes, INITIAL, e) == RunBy(closes, s2, e[2..]);
    assert RunBy(closes, s2, e[2..]) == RunBy(closes, StepBy(closes, s2, e[2]), e[3..]);
  }

  /**
   Popping early is observable, for every element with an optional end tag
   other than the paragraph and every strategy that pops it before another of
   its kind: the checker finds nothing on this page, the early run a stray end tag.
   */
  lemma EarlyClosingIsObservable(closes: Strategy, tag: string)
    requires tag in OPTIONAL_END && tag != "p" && closes(tag, tag)
    ensures Findings(Nested(tag)) == []
    ensures FindingsBy(closes, Nested(tag)) == [ClosesNothing(tag, Position(1, 15))]
  {
    NestedFindings(closes, tag);
    NestedFindings(Paragraphs(), tag);
    CheckerFindings(Nested(tag));
  }

  /** The page of the standard's own rule for list items. */
  lemma ListItemsTellThemApart()
    ensures Findings(Nested("li")) == [] && FindingsBy(Early(), Nested("li")) != []
  {
    assert Followers("li") == {"li"};
    assert Early()("li", "li");
    EarlyClosingIsObservable(Early(), "li");
  }
}
