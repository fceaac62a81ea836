/**
 The markup checker with a choice of what a start tag closes.

 A strategy says which open optional element a start tag pops.  The checker
 pops paragraphs only (scripts/check_markup.py:248-251); the optional-tag rules
 of section 13.1.2.4 of the WHATWG HTML Standard would let it pop more, and
 earlier.
 */
module MarkupStrategies {
  import opened Wrappers
  import opened Markup

  /** `closes(top, tag)`: a `tag` start pops an open `top`. */
  type Strategy = (string, string) -> bool

  /** Only elements whose end tag may be omitted are popped. */
  ghost predicate IsStrategy(closes: Strategy) {
    forall top, tag :: closes(top, tag) ==> top in OPTIONAL_END
  }

  /** One strategy pops whatever the other does. */
  ghost predicate Extends(closes: Strategy, other: Strategy) {
    forall top, tag :: other(top, tag) ==> closes(top, tag)
  }

  /** The checker's own strategy. */
  function Paragraphs(): Strategy {
    (top, tag) => top == "p" && tag in P_CLOSERS
  }

  /** The start tags an omitted end tag may be followed by, in the standard's rules. */
  function Followers(top: string): set<string> {
    if top == "li" then {"li"}
    else if top == "dt" || top == "dd" then {"dt", "dd"}
    else if top == "rt" || top == "rp" then {"rt", "rp"}
    else if top == "optgroup" then {"optgroup", "hr"}
    else if top == "option" then {"option", "optgroup", "hr"}
    else if top == "thead" then {"tbody", "tfoot"}
    else if top == "tbody" then {"tbody", "tfoot"}
    else if top == "tr" then {"tr"}
    else if top == "td" || top == "th" then {"td", "th"}
    else {}
  }

  /** Popping early: paragraphs, and every element before a start tag that may follow its omitted end tag. */
  function Early(): Strategy {
    (top, tag) => Paragraphs()(top, tag) || tag in Followers(top)
  }

  lemma StrategiesAreStrategies()
    ensures IsStrategy(Paragraphs()) && IsStrategy(Early()) && Extends(Early(), Paragraphs())
  {
  }

  // ---------------------------------------------------------------------
  // The checker under a strategy
  // ---------------------------------------------------------------------

  /** How much of the stack is left once a `tag` start has popped what the strategy lets it. */
  function KeptBy(closes: Strategy, stack: seq<Element>, tag: string, n: nat): (kept: nat)
    requires n <= |stack|
    ensures kept <= n
    ensures forall i :: kept <= i < n ==> closes(stack[i].tag, tag)
    ensures kept > 0 ==> !closes(stack[kept - 1].tag, tag)
  {
    if n > 0 && closes(stack[n - 1].tag, tag) then KeptBy(closes, stack, tag, n - 1) else n
  }

  function LeftBy(closes: Strategy, s: State, tag: string): (left: seq<Element>)
    ensures left <= s.stack
  {
    if s.foreignDepth == 0 then s.stack[..KeptBy(closes, s.stack, tag, |s.stack|)] else s.stack
  }

  function StepBy(closes: Strategy, s: State, e: Event): State {
    match e
    case StartTag(tag, at) =>
      if s.foreignDepth == 0 && tag in VOID then s.(stack := LeftBy(closes, s, tag))
      else
        State(LeftBy(closes, s, tag) + [Element(tag, at)], s.findings,
              if tag in FOREIGN then s.foreignDepth + 1 else s.foreignDepth)
    case StartEndTag(tag, at) =>
      if s.foreignDepth > 0 then s
      else State(LeftBy(closes, s, tag), if tag in VOID then s.findings else s.findings + [NotSelfClosing(tag, at)], 0)
    case EndTag(tag, at) => OnEndTag(s, tag, at)
  }

  function RunBy(closes: Strategy, s: State, events: seq<Event>): State
    decreases |events|
  {
    if events == [] then s else RunBy(closes, StepBy(closes, s, events[0]), events[1..])
  }

  function FindingsBy(closes: Strategy, events: seq<Event>): seq<Finding> {
    var end := RunBy(closes, INITIAL, events);
    end.findings + AtEndOfFile(end.stack)
  }

  lemma {:induction false} ParagraphsKeptBy(stack: seq<Element>, tag: string, n: nat)
    requires n <= |stack|
    ensures KeptBy(Paragraphs(), stack, tag, n) == ParagraphsKept(stack, tag, n)
  {
    if n > 0 {
      ParagraphsKeptBy(stack, tag, n - 1);
    }
  }

  lemma CheckerStep(s: State, e: Event)
    ensures StepBy(Paragraphs(), s, e) == Step(s, e)
  {
    ParagraphsKeptBy(s.stack, e.tag, |s.stack|);
  }

  lemma {:induction false} CheckerRun(s: State, events: seq<Event>)
    ensures RunBy(Paragraphs(), s, events) == Run(s, events)
    decreases |events|
  {
    if events != [] {
      CheckerStep(s, events[0]);
      CheckerRun(Step(s, events[0]), events[1..]);
    }
  }

  /** With its own strategy this is the checker. */
  lemma CheckerFindings(events: seq<Event>)
    ensures FindingsBy(Paragraphs(), events) == Findings(events)
  {
    CheckerRun(INITIAL, events);
  }

  // ---------------------------------------------------------------------
  // What every strategy keeps
  // ---------------------------------------------------------------------

  lemma StepByOnlyAddsFindings(closes: Strategy, s: State, e: Event)
    ensures s.findings <= StepBy(closes, s, e).findings
  {
  }

  lemma {:induction false} RunByOnlyAddsFindings(closes: Strategy, s: State, events: seq<Event>)
    ensures s.findings <= RunBy(closes, s, events).findings
    decreases |events|
  {
    if events != [] {
      StepByOnlyAddsFindings(closes, s, events[0]);
      RunByOnlyAddsFindings(closes, StepBy(closes, s, events[0]), events[1..]);
    }
  }

  lemma PoppedAreOptional(closes: Strategy, stack: seq<Element>, tag: string)
    requires IsStrategy(closes)
    ensures var kept := KeptBy(closes, stack, tag, |stack|);
            && (forall i :: kept <= i < |stack| ==> stack[i].tag in OPTIONAL_END && stack[i].tag !in FOREIGN)
            && ForeignCount(stack, kept) == ForeignCount(stack, |stack|)
  {
    var kept := KeptBy(closes, stack, tag, |stack|);
    assert OPTIONAL_END !! FOREIGN;
    for n := kept to |stack|
      invariant ForeignCount(stack, kept) == ForeignCount(stack, n)
    {
      assert closes(stack[n].tag, tag);
    }
  }

  /** Every handler keeps the stack invariant under every strategy. */
  lemma StepByKeepsInvariant(closes: Strategy, s: State, e: Event)
    requires IsStrategy(closes) && StackInvariant(s)
    ensures StackInvariant(StepBy(closes, s, e))
  {
    PoppedAreOptional(closes, s.stack, e.tag);
    var kept := KeptBy(closes, s.stack, e.tag, |s.stack|);
    match e
    case StartTag(tag, at) =>
      if s.foreignDepth > 0 {
        PushKeepsInvariant(s, Element(tag, at));
      } else {
        CutKeepsInvariant(s, kept, s.findings);
        if tag !in VOID {
          PushKeepsInvariant(s.(stack := s.stack[..kept]), Element(tag, at));
        }
      }
    case StartEndTag(tag, at) =>
      if s.foreignDepth == 0 {
        CutKeepsInvariant(s, kept, StepBy(closes, s, e).findings);
      }
    case EndTag(tag, at) => StepKeepsInvariant(s, e);
  }
}
