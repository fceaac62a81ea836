/**
 What the markup checker reports for each event and for the end of the file
 (scripts/check_markup.py:188-284), in terms of the open elements: which of
 them, in which order, where they were opened, and what was read.
 */
module MarkupReports {
  import opened Wrappers
  import opened Markup

  /**
   The findings are "never closed" for the elements at these places of the
   stack, from the top down: exactly those from `low` on whose end tag may not
   be left out, and none may in foreign content.
   */
  predicate Reports(
      stack: seq<Element>, low: nat, inForeign: bool, closer: Closer, added: seq<Finding>, places: seq<nat>)
  {
    && |places| == |added|
    && (forall k :: 0 <= k < |added| ==>
          low <= places[k] < |stack| && added[k] == NeverClosed(stack[places[k]], closer))
    && (forall j, k :: 0 <= j < k < |places| ==> places[j] > places[k])
    && (forall i :: low <= i < |stack| ==> (i in places <==> inForeign || stack[i].tag !in OPTIONAL_END))
  }

  lemma {:induction false} UnclosedReports(
      stack: seq<Element>, low: nat, high: nat, inForeign: bool, closer: Closer) returns (places: seq<nat>)
    requires low <= high <= |stack|
    ensures Reports(stack[..high], low, inForeign, closer, Unclosed(stack, low, high, inForeign, closer), places)
    decreases high - low
  {
    hide Reports, MustClose;
    places := [];
    if low == high {
      NothingReports(stack[..high], low, inForeign, closer);
    } else {
      var below := UnclosedReports(stack, low, high - 1, inForeign, closer);
      var rest := Unclosed(stack, low, high - 1, inForeign, closer);
      assert stack[..high] == stack[..high - 1] + [stack[high - 1]];
      if MustClose(stack[high - 1], inForeign) {
        places := [high - 1] + below;
        TopReports(stack[..high - 1], stack[high - 1], low, inForeign, closer, rest, below);
      } else {
        places := below;
        TopIsExcused(stack[..high - 1], stack[high - 1], low, inForeign, closer, rest, below);
        assert [] + rest == rest;
      }
    }
  }

  lemma NothingReports(stack: seq<Element>, low: nat, inForeign: bool, closer: Closer)
    requires low == |stack|
    ensures Reports(stack, low, inForeign, closer, [], [])
  {
  }

  lemma TopIsExcused(
      stack: seq<Element>, top: Element, low: nat, inForeign: bool, closer: Closer, rest: seq<Finding>,
      below: seq<nat>)
    requires low <= |stack| && Reports(stack, low, inForeign, closer, rest, below) && !MustClose(top, inForeign)
    ensures Reports(stack + [top], low, inForeign, closer, rest, below)
  {
    forall i | low <= i < |stack| + 1
      ensures i in below <==> inForeign || (stack + [top])[i].tag !in OPTIONAL_END
    {
      assert i < |stack| ==> (stack + [top])[i] == stack[i];
      assert |stack| !in below;
    }
  }

  lemma TopReports(
      stack: seq<Element>, top: Element, low: nat, inForeign: bool, closer: Closer, rest: seq<Finding>,
      below: seq<nat>)
    requires low <= |stack| && Reports(stack, low, inForeign, closer, rest, below) && MustClose(top, inForeign)
    ensures Reports(stack + [top], low, inForeign, closer, [NeverClosed(top, closer)] + rest, [|stack|] + below)
  {
    forall i | low <= i < |stack| + 1
      ensures i in [|stack|] + below <==> inForeign || (stack + [top])[i].tag !in OPTIONAL_END
    {
      assert i in [|stack|] + below <==> i == |stack| || i in below;
    }
  }

  /** The depth of the innermost open element of this name. */
  predicate IsInnermost(stack: seq<Element>, tag: string, depth: nat) {
    depth < |stack| && stack[depth].tag == tag && forall i :: depth < i < |stack| ==> stack[i].tag != tag
  }

  /** The element at this depth is closed, and the elements at these places above it are reported. */
  predicate ClosesAt(
      s: State, tag: string, at: Position, added: seq<Finding>, left: seq<Element>, depth: nat, places: seq<nat>)
  {
    IsInnermost(s.stack, tag, depth) && left == s.stack[..depth]
    && Reports(s.stack, depth + 1, s.foreignDepth > 0, ParentEnd(tag, at.line), added, places)
  }

  /** What one end tag adds, and what it leaves open. */
  ghost predicate EndTagReports(s: State, tag: string, at: Position, added: seq<Finding>, left: seq<Element>) {
    if s.foreignDepth == 0 && tag in VOID then added == [ClosesVoid(tag, at)] && left == s.stack
    else if forall i :: 0 <= i < |s.stack| ==> s.stack[i].tag != tag then
      added == [ClosesNothing(tag, at)] && left == s.stack
    else
      exists depth: nat, places: seq<nat> :: ClosesAt(s, tag, at, added, left, depth, places)
  }

  /** An event adds findings behind the earlier ones: none for a start tag, and for the others these. */
  lemma EventReports(s: State, e: Event) returns (added: seq<Finding>)
    ensures Step(s, e).findings == s.findings + added
    ensures match e
            case StartTag(_, _) => added == []
            case StartEndTag(tag, at) =>
              added == if s.foreignDepth == 0 && tag !in VOID then [NotSelfClosing(tag, at)] else []
            case EndTag(tag, at) => EndTagReports(s, tag, at, added, Step(s, e).stack)
  {
    added := Step(s, e).findings[|s.findings|..];
    if e.EndTag? && Matched(s, e.tag).Some? {
      var depth := Matched(s, e.tag).value;
      var closer := ParentEnd(e.tag, e.at.line);
      assert IsInnermost(s.stack, e.tag, depth);
      assert added == Unclosed(s.stack, depth + 1, |s.stack|, s.foreignDepth > 0, closer);
      var places := UnclosedReports(s.stack, depth + 1, |s.stack|, s.foreignDepth > 0, closer);
      assert s.stack[..|s.stack|] == s.stack;
      assert ClosesAt(s, e.tag, e.at, added, s.stack[..depth], depth, places);
    }
  }

  /** The end of the file reports everything still open that has to be closed, from the top of the stack down. */
  lemma EndOfFileReports(events: seq<Event>) returns (added: seq<Finding>, places: seq<nat>)
    ensures Findings(events) == Run(INITIAL, events).findings + added
    ensures Reports(Run(INITIAL, events).stack, 0, false, EndOfFile, added, places)
  {
    var open := Run(INITIAL, events).stack;
    added := AtEndOfFile(open);
    places := UnclosedReports(open, 0, |open|, false, EndOfFile);
    assert open[..|open|] == open;
  }
}
