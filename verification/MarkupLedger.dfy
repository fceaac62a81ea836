/**
 Bookkeeping over the markup checker's runs: each element a page opens is
 consumed exactly once, and no finding calls one "never closed" twice.
 */
module MarkupLedger {
  import opened Wrappers
  import opened Markup

  /** How often one element left the stack without a finding, by the way it left. */
  datatype Ledger = Ledger(matched: nat, paragraphs: nat, leftOut: nat) {
    function Plus(other: Ledger): Ledger {
      Ledger(matched + other.matched, paragraphs + other.paragraphs, leftOut + other.leftOut)
    }

    function Total(): nat {
      matched + paragraphs + leftOut
    }
  }

  const NOTHING := Ledger(0, 0, 0)

  function One(b: bool): nat {
    if b then 1 else 0
  }

  /** How often `x` stands in `stack[low..high]`. */
  function Occurs(x: Element, stack: seq<Element>, low: nat, high: nat): nat
    requires low <= high <= |stack|
  {
    if low == high then 0 else Occurs(x, stack, low, high - 1) + One(stack[high - 1] == x)
  }

  predicate CallsOpen(x: Element, finding: Finding) {
    finding.NeverClosed? && finding.element == x
  }

  /** How many findings call `x` "never closed". */
  function Reported(x: Element, findings: seq<Finding>): nat {
    if findings == [] then 0
    else Reported(x, findings[..|findings| - 1]) + One(CallsOpen(x, findings[|findings| - 1]))
  }

  /** How often `x` stands in `stack[low..high]` with an end tag that may be left out here. */
  function Excused(x: Element, stack: seq<Element>, low: nat, high: nat, inForeign: bool): nat
    requires low <= high <= |stack|
  {
    if MustClose(x, inForeign) then 0 else Occurs(x, stack, low, high)
  }

  function Opened(x: Element, s: State, e: Event): nat {
    One(e.StartTag? && Element(e.tag, e.at) == x && (s.foreignDepth > 0 || e.tag !in VOID))
  }

  function StepLedger(x: Element, s: State, e: Event): Ledger {
    match e
    case EndTag(tag, _) =>
      var depth := Matched(s, tag);
      if depth.None? then NOTHING
      else
        Ledger(One(s.stack[depth.value] == x), 0,
               Excused(x, s.stack, depth.value + 1, |s.stack|, s.foreignDepth > 0))
    case _ =>
      if s.foreignDepth > 0 then NOTHING
      else Ledger(0, Occurs(x, s.stack, ParagraphsKept(s.stack, e.tag, |s.stack|), |s.stack|), 0)
  }

  function OpenedBy(x: Element, s: State, events: seq<Event>): nat
    decreases |events|
  {
    if events == [] then 0 else Opened(x, s, events[0]) + OpenedBy(x, Step(s, events[0]), events[1..])
  }

  function RunLedger(x: Element, s: State, events: seq<Event>): Ledger
    decreases |events|
  {
    if events == [] then NOTHING
    else StepLedger(x, s, events[0]).Plus(RunLedger(x, Step(s, events[0]), events[1..]))
  }

  /** The ledger of a whole page: its run, then everything still open when the file ends. */
  function PageLedger(x: Element, events: seq<Event>): Ledger {
    var open := Run(INITIAL, events).stack;
    RunLedger(x, INITIAL, events).Plus(Ledger(0, 0, Excused(x, open, 0, |open|, false)))
  }

  lemma {:induction false} OccursSplit(x: Element, stack: seq<Element>, low: nat, mid: nat, high: nat)
    requires low <= mid <= high <= |stack|
    ensures Occurs(x, stack, low, high) == Occurs(x, stack, low, mid) + Occurs(x, stack, mid, high)
  {
    if mid < high {
      OccursSplit(x, stack, low, mid, high - 1);
    }
  }

  lemma {:induction false} OccursInPrefix(x: Element, stack: seq<Element>, other: seq<Element>, n: nat)
    requires n <= |stack| && n <= |other|
    requires forall i :: 0 <= i < n ==> stack[i] == other[i]
    ensures Occurs(x, stack, 0, n) == Occurs(x, other, 0, n)
  {
    if n > 0 {
      OccursInPrefix(x, stack, other, n - 1);
    }
  }

  lemma {:induction false} OccursSomewhere(x: Element, stack: seq<Element>, low: nat, high: nat)
    requires low <= high <= |stack|
    requires Occurs(x, stack, low, high) > 0
    ensures exists i :: low <= i < high && stack[i] == x
  {
    if stack[high - 1] != x {
      OccursSomewhere(x, stack, low, high - 1);
    }
  }

  lemma {:induction false} ReportedConcat(x: Element, a: seq<Finding>, b: seq<Finding>)
    ensures Reported(x, a + b) == Reported(x, a) + Reported(x, b)
    decreases |b|
  {
    if b == [] {
      assert a + b == a;
    } else {
      ReportedConcat(x, a, b[..|b| - 1]);
      assert (a + b)[..|a + b| - 1] == a + b[..|b| - 1];
    }
  }

  lemma ReportedOne(x: Element, finding: Finding)
    ensures Reported(x, [finding]) == One(CallsOpen(x, finding))
  {
    assert [finding][..0] == [];
  }

  lemma {:induction false} UnclosedAreReportedOrExcused(
      x: Element, stack: seq<Element>, low: nat, high: nat, inForeign: bool, closer: Closer)
    requires low <= high <= |stack|
    ensures Occurs(x, stack, low, high)
         == Reported(x, Unclosed(stack, low, high, inForeign, closer)) + Excused(x, stack, low, high, inForeign)
    decreases high
  {
    if low < high {
      var top := stack[high - 1];
      UnclosedAreReportedOrExcused(x, stack, low, high - 1, inForeign, closer);
      var first := if MustClose(top, inForeign) then [NeverClosed(top, closer)] else [];
      ReportedOne(x, NeverClosed(top, closer));
      ReportedConcat(x, first, Unclosed(stack, low, high - 1, inForeign, closer));
    }
  }

  lemma {:induction false} PushOccurs(x: Element, stack: seq<Element>, kept: nat, y: Element)
    requires kept <= |stack|
    ensures Occurs(x, stack[..kept], 0, kept) == Occurs(x, stack, 0, kept)
    ensures Occurs(x, stack[..kept] + [y], 0, kept + 1) == Occurs(x, stack, 0, kept) + One(y == x)
  {
    OccursInPrefix(x, stack, stack[..kept], kept);
    OccursInPrefix(x, stack, stack[..kept] + [y], kept);
  }

  /** How often `x` is open or has been reported so far. */
  function Standing(x: Element, s: State): nat {
    Occurs(x, s.stack, 0, |s.stack|) + Reported(x, s.findings)
  }

  /** Cutting the stack back to `kept` and pushing one element, when nothing is reported. */
  lemma {:induction false} PushConserves(x: Element, s: State, s': State, kept: nat, y: Element)
    requires kept <= |s.stack|
    requires s'.stack == s.stack[..kept] + [y] && s'.findings == s.findings
    ensures Standing(x, s) + One(y == x) == Standing(x, s') + Occurs(x, s.stack, kept, |s.stack|)
  {
    OccursSplit(x, s.stack, 0, kept, |s.stack|);
    PushOccurs(x, s.stack, kept, y);
  }

  lemma {:induction false} CutConserves(x: Element, s: State, s': State, kept: nat)
    requires kept <= |s.stack|
    requires s'.stack == s.stack[..kept] && s'.findings == s.findings
    ensures Standing(x, s) == Standing(x, s') + Occurs(x, s.stack, kept, |s.stack|)
  {
    OccursSplit(x, s.stack, 0, kept, |s.stack|);
    OccursInPrefix(x, s.stack, s'.stack, kept);
  }

  lemma {:induction false} StartTagConserves(x: Element, s: State, tag: string, at: Position)
    ensures Standing(x, s) + Opened(x, s, StartTag(tag, at))
         == Standing(x, OnStartTag(s, tag, at)) + StepLedger(x, s, StartTag(tag, at)).Total()
  {
    var s' := OnStartTag(s, tag, at);
    var e := StartTag(tag, at);
    if s.foreignDepth > 0 {
      assert Opened(x, s, e) == One(Element(tag, at) == x);
      assert StepLedger(x, s, e) == NOTHING;
      assert s'.stack == s.stack[..|s.stack|] + [Element(tag, at)];
      PushConserves(x, s, s', |s.stack|, Element(tag, at));
    } else {
      var kept := ParagraphsKept(s.stack, tag, |s.stack|);
      assert StepLedger(x, s, e) == Ledger(0, Occurs(x, s.stack, kept, |s.stack|), 0);
      if tag in VOID {
        assert Opened(x, s, e) == 0;
        CutConserves(x, s, s', kept);
      } else {
        assert Opened(x, s, e) == One(Element(tag, at) == x);
        PushConserves(x, s, s', kept, Element(tag, at));
      }
    }
  }

  lemma {:induction false} StartEndTagConserves(x: Element, s: State, tag: string, at: Position)
    ensures Standing(x, s) == Standing(x, OnStartEndTag(s, tag, at)) + StepLedger(x, s, StartEndTag(tag, at)).Total()
  {
    if s.foreignDepth == 0 {
      var kept := ParagraphsKept(s.stack, tag, |s.stack|);
      CutConserves(x, s, s.(stack := s.stack[..kept]), kept);
      ReportedConcat(x, s.findings, [NotSelfClosing(tag, at)]);
      ReportedOne(x, NotSelfClosing(tag, at));
    }
  }

  lemma {:induction false} EndTagConserves(x: Element, s: State, tag: string, at: Position)
    ensures Standing(x, s) == Standing(x, OnEndTag(s, tag, at)) + StepLedger(x, s, EndTag(tag, at)).Total()
  {
    match Matched(s, tag)
    case None =>
      ReportedConcat(x, s.findings, [Stray(s, tag, at)]);
      ReportedOne(x, Stray(s, tag, at));
    case Some(depth) =>
      var n, closer := |s.stack|, ParentEnd(tag, at.line);
      OccursSplit(x, s.stack, 0, depth, n);
      OccursSplit(x, s.stack, depth, depth + 1, n);
      OccursInPrefix(x, s.stack, s.stack[..depth], depth);
      UnclosedAreReportedOrExcused(x, s.stack, depth + 1, n, s.foreignDepth > 0, closer);
      ReportedConcat(x, s.findings, Unclosed(s.stack, depth + 1, n, s.foreignDepth > 0, closer));
  }

  lemma {:induction false} StepConserves(x: Element, s: State, e: Event)
    ensures Standing(x, s) + Opened(x, s, e) == Standing(x, Step(s, e)) + StepLedger(x, s, e).Total()
  {
    match e
    case StartTag(tag, at) => StartTagConserves(x, s, tag, at);
    case StartEndTag(tag, at) => StartEndTagConserves(x, s, tag, at);
    case EndTag(tag, at) => EndTagConserves(x, s, tag, at);
  }

  lemma {:induction false} RunConserves(x: Element, s: State, events: seq<Event>)
    ensures Standing(x, s) + OpenedBy(x, s, events)
         == Standing(x, Run(s, events)) + RunLedger(x, s, events).Total()
    decreases |events|
  {
    if events != [] {
      StepConserves(x, s, events[0]);
      RunConserves(x, Step(s, events[0]), events[1..]);
    }
  }

  /** Only paragraphs are closed implicitly, and only optional elements are left out in silence. */
  lemma {:induction false} LedgerColumns(x: Element, s: State, events: seq<Event>)
    ensures RunLedger(x, s, events).paragraphs > 0 ==> x.tag == "p"
    ensures RunLedger(x, s, events).leftOut > 0 ==> x.tag in OPTIONAL_END
    decreases |events|
  {
    if events != [] {
      LedgerColumns(x, Step(s, events[0]), events[1..]);
      if StepLedger(x, s, events[0]).paragraphs > 0 {
        OccursSomewhere(x, s.stack, ParagraphsKept(s.stack, events[0].tag, |s.stack|), |s.stack|);
      }
    }
  }

  /**
   Every element opened on a page is consumed exactly once: by its own end
   tag, by the implicit close of a paragraph, by one "never closed" finding,
   or silently because its end tag is optional.
   */
  lemma EveryElementIsConsumedOnce(x: Element, events: seq<Event>)
    ensures OpenedBy(x, INITIAL, events) == PageLedger(x, events).Total() + Reported(x, Findings(events))
    ensures PageLedger(x, events).paragraphs > 0 ==> x.tag == "p"
    ensures PageLedger(x, events).leftOut > 0 ==> x.tag in OPTIONAL_END
  {
    var end := Run(INITIAL, events);
    RunConserves(x, INITIAL, events);
    UnclosedAreReportedOrExcused(x, end.stack, 0, |end.stack|, false, EndOfFile);
    ReportedConcat(x, end.findings, AtEndOfFile(end.stack));
    LedgerColumns(x, INITIAL, events);
  }
}
