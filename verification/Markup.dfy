/**
 The structural markup checker (scripts/check_markup.py).

 `StructureParser` is the checker: an open-element stack, a list of findings and
 a foreign-content depth, changed in place by one handler per parser event.
 `Step` is the same handler as a function of the parser's state, and `Findings`
 is what a whole page is reported for.
 */
module Markup {
  import opened Wrappers

  const VOID: set<string> := {
    "area", "base", "br", "col", "embed", "hr", "img", "input", "keygen",
    "link", "meta", "param", "source", "track", "wbr"
  }

  const FOREIGN: set<string> := {"svg", "math"}

  const OPTIONAL_END: set<string> := {
    "html", "head", "body", "p", "li", "dt", "dd", "option", "optgroup",
    "caption", "colgroup", "thead", "tbody", "tfoot", "tr", "td", "th", "rt", "rp"
  }

  const P_CLOSERS: set<string> := {
    "address", "article", "aside", "blockquote", "details", "div", "dl",
    "fieldset", "figcaption", "figure", "footer", "form", "h1", "h2", "h3",
    "h4", "h5", "h6", "header", "hgroup", "hr", "main", "menu", "nav", "ol",
    "p", "pre", "search", "section", "table", "ul"
  }

  /** A place in the file; columns are 0-based as the tokenizer reports them. */
  datatype Position = Position(line: nat, column: nat)

  datatype Element = Element(tag: string, at: Position)

  /** What the tokenizer hands to the checker. */
  datatype Event =
    | StartTag(tag: string, at: Position)
    | StartEndTag(tag: string, at: Position)
    | EndTag(tag: string, at: Position)

  /** What was read when an element turned out not to be closed. */
  datatype Closer = ParentEnd(tag: string, line: nat) | EndOfFile

  datatype Finding =
    | NotSelfClosing(tag: string, at: Position)
    | ClosesVoid(tag: string, at: Position)
    | ClosesNothing(tag: string, at: Position)
    | NeverClosed(element: Element, closer: Closer)

  datatype State = State(stack: seq<Element>, findings: seq<Finding>, foreignDepth: nat)

  const INITIAL := State([], [], 0)

  // ---------------------------------------------------------------------
  // The handlers as functions
  // ---------------------------------------------------------------------

  function Tags(stack: seq<Element>): (tags: seq<string>)
    ensures |tags| == |stack|
    ensures forall i :: 0 <= i < |stack| ==> tags[i] == stack[i].tag
  {
    seq(|stack|, i requires 0 <= i < |stack| => stack[i].tag)
  }

  /** The number of foreign roots among the `n` outermost open elements. */
  function ForeignCount(stack: seq<Element>, n: nat): nat
    requires n <= |stack|
  {
    if n == 0 then 0 else ForeignCount(stack, n - 1) + if stack[n - 1].tag in FOREIGN then 1 else 0
  }

  /** How much of the stack is left once a `tag` start has closed the paragraphs on top. */
  function ParagraphsKept(stack: seq<Element>, tag: string, n: nat): (kept: nat)
    requires n <= |stack|
    ensures kept <= n
    ensures forall i :: kept <= i < n ==> stack[i].tag == "p"
    ensures kept > 0 && stack[kept - 1].tag == "p" ==> tag !in P_CLOSERS
    ensures tag !in P_CLOSERS ==> kept == n
  {
    if n > 0 && stack[n - 1].tag == "p" && tag in P_CLOSERS
    then ParagraphsKept(stack, tag, n - 1)
    else n
  }

  /** Depth of the innermost `tag` among the `n` outermost open elements. */
  function Innermost(stack: seq<Element>, tag: string, n: nat): (depth: Option<nat>)
    requires n <= |stack|
    ensures depth.None? ==> forall i :: 0 <= i < n ==> stack[i].tag != tag
    ensures depth.Some? ==>
              && depth.value < n
              && stack[depth.value].tag == tag
              && forall i :: depth.value < i < n ==> stack[i].tag != tag
  {
    if n == 0 then None
    else if stack[n - 1].tag == tag then Some(n - 1)
    else Innermost(stack, tag, n - 1)
  }

  predicate MustClose(element: Element, inForeign: bool) {
    inForeign || element.tag !in OPTIONAL_END
  }

  /** Findings for the elements `stack[low..high]` left unclosed, innermost first. */
  function Unclosed(stack: seq<Element>, low: nat, high: nat, inForeign: bool, closer: Closer): seq<Finding>
    requires low <= high <= |stack|
    decreases high
  {
    if high == low then []
    else
      (if MustClose(stack[high - 1], inForeign) then [NeverClosed(stack[high - 1], closer)] else [])
      + Unclosed(stack, low, high - 1, inForeign, closer)
  }

  function OnStartTag(s: State, tag: string, at: Position): State {
    var kept := if s.foreignDepth == 0 then s.stack[..ParagraphsKept(s.stack, tag, |s.stack|)] else s.stack;
    if s.foreignDepth == 0 && tag in VOID then s.(stack := kept)
    else
      State(kept + [Element(tag, at)], s.findings,
            if tag in FOREIGN then s.foreignDepth + 1 else s.foreignDepth)
  }

  function OnStartEndTag(s: State, tag: string, at: Position): State {
    if s.foreignDepth > 0 then s
    else
      var kept := s.stack[..ParagraphsKept(s.stack, tag, |s.stack|)];
      State(kept, if tag in VOID then s.findings else s.findings + [NotSelfClosing(tag, at)], 0)
  }

  /** Which open element an end tag closes, if it is not itself a finding. */
  function Matched(s: State, tag: string): (depth: Option<nat>)
    ensures depth.Some? ==> depth.value < |s.stack|
  {
    if s.foreignDepth == 0 && tag in VOID then None else Innermost(s.stack, tag, |s.stack|)
  }

  function Stray(s: State, tag: string, at: Position): Finding {
    if s.foreignDepth == 0 && tag in VOID then ClosesVoid(tag, at) else ClosesNothing(tag, at)
  }

  function OnEndTag(s: State, tag: string, at: Position): State {
    match Matched(s, tag)
    case None => s.(findings := s.findings + [Stray(s, tag, at)])
    case Some(depth) =>
      State(s.stack[..depth],
            s.findings + Unclosed(s.stack, depth + 1, |s.stack|, s.foreignDepth > 0, ParentEnd(tag, at.line)),
            ForeignCount(s.stack, depth))
  }

  function Step(s: State, e: Event): State {
    match e
    case StartTag(tag, at) => OnStartTag(s, tag, at)
    case StartEndTag(tag, at) => OnStartEndTag(s, tag, at)
    case EndTag(tag, at) => OnEndTag(s, tag, at)
  }

  function Run(s: State, events: seq<Event>): State
    decreases |events|
  {
    if events == [] then s else Run(Step(s, events[0]), events[1..])
  }

  /** The findings for everything still open at the end of the file. */
  function AtEndOfFile(stack: seq<Element>): seq<Finding> {
    Unclosed(stack, 0, |stack|, false, EndOfFile)
  }

  /** Everything the checker reports about a page, in the order it reports it. */
  function Findings(events: seq<Event>): seq<Finding> {
    var end := Run(INITIAL, events);
    end.findings + AtEndOfFile(end.stack)
  }

  // ---------------------------------------------------------------------
  // Invariants of every run
  // ---------------------------------------------------------------------

  /** A foreign root is open among the `n` outermost elements. */
  predicate ForeignBelow(stack: seq<Element>, n: nat)
    requires n <= |stack|
  {
    exists i :: 0 <= i < n && stack[i].tag in FOREIGN
  }

  /** The depth is the number of foreign roots open, and a void tag is open only above one. */
  predicate StackInvariant(s: State) {
    && s.foreignDepth == ForeignCount(s.stack, |s.stack|)
    && (forall i :: 0 <= i < |s.stack| && s.stack[i].tag in VOID ==> ForeignBelow(s.stack, i))
  }

  lemma {:induction false} CountMeansForeign(stack: seq<Element>, n: nat)
    requires n <= |stack|
    ensures ForeignCount(stack, n) > 0 <==> ForeignBelow(stack, n)
  {
    if n > 0 {
      CountMeansForeign(stack, n - 1);
    }
  }

  lemma {:induction false} CountOfPrefix(stack: seq<Element>, other: seq<Element>, n: nat)
    requires n <= |stack| && n <= |other|
    requires forall i :: 0 <= i < n ==> stack[i] == other[i]
    ensures ForeignCount(stack, n) == ForeignCount(other, n)
  {
    if n > 0 {
      CountOfPrefix(stack, other, n - 1);
    }
  }

  lemma {:induction false} CountSkipsParagraphs(stack: seq<Element>, kept: nat)
    requires kept <= |stack|
    requires forall i :: kept <= i < |stack| ==> stack[i].tag == "p"
    ensures ForeignCount(stack, kept) == ForeignCount(stack, |stack|)
  {
    for n := kept to |stack|
      invariant ForeignCount(stack, kept) == ForeignCount(stack, n)
    {
    }
  }

  /** Cutting the stack back keeps the invariant at the depth that is left. */
  lemma CutKeepsInvariant(s: State, kept: nat, findings: seq<Finding>)
    requires StackInvariant(s) && kept <= |s.stack|
    ensures StackInvariant(State(s.stack[..kept], findings, ForeignCount(s.stack, kept)))
  {
    var left := s.stack[..kept];
    CountOfPrefix(s.stack, left, kept);
    forall i | 0 <= i < |left| && left[i].tag in VOID ensures ForeignBelow(left, i) {
      var j :| 0 <= j < i && s.stack[j].tag in FOREIGN;
      assert left[j].tag in FOREIGN;
    }
  }

  lemma PushKeepsInvariant(s: State, element: Element)
    requires StackInvariant(s)
    requires element.tag in VOID ==> s.foreignDepth > 0
    ensures StackInvariant(State(s.stack + [element], s.findings,
                                 if element.tag in FOREIGN then s.foreignDepth + 1 else s.foreignDepth))
  {
    var pushed := s.stack + [element];
    CountOfPrefix(s.stack, pushed, |s.stack|);
    CountMeansForeign(s.stack, |s.stack|);
    forall i | 0 <= i < |pushed| && pushed[i].tag in VOID ensures ForeignBelow(pushed, i) {
      var j :| 0 <= j < i && s.stack[j].tag in FOREIGN;
      assert pushed[j].tag in FOREIGN;
    }
  }

  lemma StartTagKeepsInvariant(s: State, tag: string, at: Position)
    requires StackInvariant(s)
    ensures StackInvariant(OnStartTag(s, tag, at))
  {
    if s.foreignDepth > 0 {
      PushKeepsInvariant(s, Element(tag, at));
    } else {
      var kept := ParagraphsKept(s.stack, tag, |s.stack|);
      CutKeepsInvariant(s, kept, s.findings);
      CountSkipsParagraphs(s.stack, kept);
      if tag !in VOID {
        PushKeepsInvariant(s.(stack := s.stack[..kept]), Element(tag, at));
      }
    }
  }

  /** Every handler keeps the invariant, whatever the event. */
  lemma StepKeepsInvariant(s: State, e: Event)
    requires StackInvariant(s)
    ensures StackInvariant(Step(s, e))
  {
    match e
    case StartTag(tag, at) => StartTagKeepsInvariant(s, tag, at);
    case EndTag(tag, at) =>
      if Matched(s, tag).Some? {
        CutKeepsInvariant(s, Matched(s, tag).value, OnEndTag(s, tag, at).findings);
      }
    case StartEndTag(tag, at) =>
      if s.foreignDepth == 0 {
        var kept := ParagraphsKept(s.stack, tag, |s.stack|);
        CutKeepsInvariant(s, kept, OnStartEndTag(s, tag, at).findings);
        CountSkipsParagraphs(s.stack, kept);
      }
  }

  lemma {:induction false} RunKeepsInvariant(s: State, events: seq<Event>)
    requires StackInvariant(s)
    ensures StackInvariant(Run(s, events))
    decreases |events|
  {
    if events != [] {
      StepKeepsInvariant(s, events[0]);
      RunKeepsInvariant(Step(s, events[0]), events[1..]);
    }
  }

  /** On every page: the depth counts the open foreign roots, and void tags are open only inside them. */
  lemma EveryPageKeepsInvariant(events: seq<Event>)
    ensures StackInvariant(Run(INITIAL, events))
  {
    RunKeepsInvariant(INITIAL, events);
  }

  // ---------------------------------------------------------------------
  // The checker
  // ---------------------------------------------------------------------

  class StructureParser {
    var stack: seq<Element>
    var findings: seq<Finding>
    var foreignDepth: nat

    ghost function Contents(): State
      reads this
    {
      State(stack, findings, foreignDepth)
    }

    constructor ()
      ensures Contents() == INITIAL
    {
      stack, findings, foreignDepth := [], [], 0;
    }

    method HandleStartTag(tag: string, at: Position)
      modifies this
      ensures Contents() == Step(old(Contents()), StartTag(tag, at))
    {
      if foreignDepth == 0 {
        CloseOpenParagraph(tag);
        if tag in VOID {
          return;
        }
      }
      stack := stack + [Element(tag, at)];
      if tag in FOREIGN {
        foreignDepth := foreignDepth + 1;
      }
    }

    method HandleStartEndTag(tag: string, at: Position)
      modifies this
      ensures Contents() == Step(old(Contents()), StartEndTag(tag, at))
    {
      if foreignDepth > 0 {
        return;
      }
      CloseOpenParagraph(tag);
      if tag in VOID {
        return;
      }
      findings := findings + [NotSelfClosing(tag, at)];
    }

    method HandleEndTag(tag: string, at: Position)
      modifies this
      ensures Contents() == Step(old(Contents()), EndTag(tag, at))
    {
      if foreignDepth == 0 && tag in VOID {
        findings := findings + [ClosesVoid(tag, at)];
        return;
      }
      var depth := FindInnermost(tag);
      if depth.None? {
        findings := findings + [ClosesNothing(tag, at)];
        return;
      }
      ReportUnclosed(depth.value + 1, foreignDepth > 0, ParentEnd(tag, at.line));
      stack := stack[..depth.value];
      RecountForeign();
      CountOfPrefix(stack, old(stack), depth.value);
    }

    method RecountForeign()
      modifies this`foreignDepth
      ensures foreignDepth == ForeignCount(stack, |stack|)
    {
      foreignDepth := 0;
      for i := 0 to |stack|
        invariant foreignDepth == ForeignCount(stack, i)
      {
        if stack[i].tag in FOREIGN {
          foreignDepth := foreignDepth + 1;
        }
      }
    }

    /** Reports what must not stay unclosed at or above depth `low`, from the top of the stack down. */
    method ReportUnclosed(low: nat, inForeign: bool, closer: Closer)
      requires low <= |stack|
      modifies this`findings
      ensures findings == old(findings) + Unclosed(stack, low, |stack|, inForeign, closer)
    {
      var i := |stack|;
      while i > low
        invariant low <= i <= |stack|
        invariant findings + Unclosed(stack, low, i, inForeign, closer)
               == old(findings) + Unclosed(stack, low, |stack|, inForeign, closer)
      {
        i := i - 1;
        if MustClose(stack[i], inForeign) {
          findings := findings + [NeverClosed(stack[i], closer)];
        }
      }
    }

    /** `_innermost`: scans down from the top of the stack. */
    method FindInnermost(tag: string) returns (depth: Option<nat>)
      ensures depth == Innermost(stack, tag, |stack|)
    {
      var i := |stack|;
      while i > 0
        invariant 0 <= i <= |stack|
        invariant Innermost(stack, tag, i) == Innermost(stack, tag, |stack|)
      {
        i := i - 1;
        if stack[i].tag == tag {
          return Some(i);
        }
      }
      depth := None;
    }

    method CloseOpenParagraph(tag: string)
      modifies this`stack
      ensures stack == old(stack[..ParagraphsKept(stack, tag, |stack|)])
    {
      while stack != [] && stack[|stack| - 1].tag == "p" && tag in P_CLOSERS
        invariant |stack| <= |old(stack)| && stack == old(stack)[..|stack|]
        invariant ParagraphsKept(old(stack), tag, |stack|) == ParagraphsKept(old(stack), tag, |old(stack)|)
        decreases |stack|
      {
        stack := stack[..|stack| - 1];
      }
    }

    method ReportEndOfFile()
      modifies this`findings
      ensures findings == old(findings) + AtEndOfFile(stack)
    {
      ReportUnclosed(0, false, EndOfFile);
    }
  }

  /** `check_markup` from the tokenizer's events on, before the findings are sorted for printing. */
  method CheckMarkup(events: seq<Event>) returns (findings: seq<Finding>)
    ensures findings == Findings(events)
  {
    var parser := new StructureParser();
    for i := 0 to |events|
      invariant Run(parser.Contents(), events[i..]) == Run(INITIAL, events)
      invariant fresh(parser)
    {
      assert events[i..][1..] == events[i + 1..];
      match events[i] {
        case StartTag(tag, at) => parser.HandleStartTag(tag, at);
        case StartEndTag(tag, at) => parser.HandleStartEndTag(tag, at);
        case EndTag(tag, at) => parser.HandleEndTag(tag, at);
      }
    }
    parser.ReportEndOfFile();
    findings := parser.findings;
  }
}
