/**
 Two requests whose payment is delivered although something is wrong.  In both
 the sentinel forbids SWIFT, the strategist proposes RIPPLE, RIPPLE fails, and
 the router falls back to SWIFT.  In the second one the sentinel also names its
 rule in a string instead of a list, and the delivered payment has no answer.
 */
module SampleRequests {
  import opened Wrappers
  import opened Text
  import opened DomainMoney
  import opened AuditStore
  import opened Lifecycle
  import opened Agents
  import opened Negotiation
  import opened RailRouting
  import opened Gateway
  import EntryGate

  const TRANSFER := Transfer(
    "TR-1", "UB-1", Party("Thandi", "1", "", "ZA"), Party("Kofi", "2", "", "GH"),
    TransferQuote(Money(100, ZAR), Money(1, ZAR), Money(80, GHS), Corridor(ZAR, GHS, false)),
    Declaration(FAMILY_SUPPORT, SAVINGS), 0, INITIATED, None, None)

  const RULES := AsList(["FICA"])
  const TEXT_RULES: Cited<string> := AsText("FICA")

  /** The rules as the model writes them. */
  function Written(rules: Cited<string>): Cited<Field<string>> {
    match rules
    case AsList(items) => AsList(seq(|items|, i requires 0 <= i < |items| => WellFormed(items[i])))
    case AsText(text) => AsText(text)
    case AsObject(names) => AsObject(names)
  }

  function VerdictReply(rules: Cited<string>): VerdictPayload {
    VerdictPayload(
      WellFormed("PASS"), WellFormed(0.5), WellFormed(Written(rules)), WellFormed("Clear"),
      WellFormed(ConstraintsPayload(WellFormed([WellFormed("SWIFT")]), Absent)))
  }

  function VerdictOn(rules: Cited<string>): Verdict {
    Verdict(PASS, 0.5, rules, "Clear", Constraints([SWIFT], None))
  }

  const PROPOSAL_REPLY := ProposalPayload(
    WellFormed("RIPPLE"), WellFormed(1), WellFormed("ZAR"), WellFormed(3.0), WellFormed("Cheap"))

  const PROPOSAL := Proposal(RIPPLE, Money(1, ZAR), 3.0, "Cheap")

  const QUOTES := [RailQuote(RIPPLE, 1, 0, 3.0)]

  function Negotiating(rules: Cited<string>): Surroundings {
    Surroundings(
      (Emits(VerdictReply(rules), ""), TimesOut("")), (Emits(PROPOSAL_REPLY, ""), TimesOut("")),
      _ => Some("pacs.008"), _ => true, _ => Narration("", "", "", ""), _ => Acknowledges)
  }

  function Requesting(rules: Cited<string>): Call {
    Call(false, true, true,
         EntryGate.Screening((_, _) => false, EntryGate.LimitTable(ZAR, map["L1" := 1000], 1000, 1000)),
         EntryGate.SenderProfile("L1", false, 0), false, QUOTES, Negotiating(rules), {RIPPLE, SWIFT},
         ThenDelivered(Failed, Money(1, ZAR)))
  }

  /** A verdict may be constructed on these rules. */
  predicate Passable(rules: Cited<string>) {
    Items(rules) != [] && forall i :: 0 <= i < |Items(rules)| ==> !IsBlank(Items(rules)[i])
  }

  lemma RulesArePassable()
    ensures Passable(RULES) && Passable(TEXT_RULES)
  {
    NotBlank("FICA");
    forall i | 0 <= i < 4 ensures !IsBlank(Items(TEXT_RULES)[i]) {
      assert "FICA"[0] == 'F' && "FICA"[1] == 'I' && "FICA"[2] == 'C' && "FICA"[3] == 'A';
      NotBlank([TEXT_RULES.text[i]]);
    }
  }

  lemma {:induction false} WrittenStrings(items: seq<string>)
    ensures ParseStrings(Written(AsList(items)).items) == Some(items)
  {
    if items != [] {
      WrittenStrings(items[1..]);
      assert Written(AsList(items)).items[1..] == Written(AsList(items[1..])).items;
      assert [items[0]] + items[1..] == items;
    }
  }

  lemma RulesAreTakenOver(rules: Cited<string>)
    ensures ParseCited(Written(rules)) == Some(rules)
  {
    if rules.AsList? {
      WrittenStrings(rules.items);
    }
  }

  lemma OneRail(name: string)
    requires ParseRail(name).Some?
    ensures ParseRails([WellFormed(name)]) == Some([ParseRail(name).value])
  {
    assert [WellFormed(name)][1..] == [] && [ParseRail(name).value] + [] == [ParseRail(name).value];
  }

  lemma TextsAreNotBlank()
    ensures !IsBlank("Clear") && !IsBlank("Cheap")
  {
    NotBlank("Clear");
    NotBlank("Cheap");
  }

  lemma VerdictIsGiven(rules: Cited<string>)
    requires Passable(rules)
    ensures Assess(Negotiating(rules).sentinel.0, Negotiating(rules).sentinel.1).answer == Some(VerdictOn(rules))
  {
    hide Written, ParseCited, IsBlank, Items;
    TextsAreNotBlank();
    RulesAreTakenOver(rules);
    OneRail("SWIFT");
    assert ValidVerdict(VerdictOn(rules));
  }

  lemma ProposalIsGiven(rules: Cited<string>)
    ensures var s := Negotiating(rules);
            Propose(QUOTES, VerdictOn(rules).constraints, ZAR, s.strategist.0, s.strategist.1).answer == Some(PROPOSAL)
    ensures OnQuotedTerms(VerdictOn(rules), PROPOSAL, QUOTES)
  {
    hide IsBlank;
    TextsAreNotBlank();
    assert QUOTES[0].rail !in VerdictOn(rules).constraints.forbiddenRails;
    assert IsFirstQuote(QUOTES, 0);
  }

  lemma GatePasses(rules: Cited<string>)
    ensures Negotiates(TRANSFER, Requesting(rules))
  {
    hide EntryGate.Evaluate;
    var c := Requesting(rules);
    NotBlank("UB-1");
    EntryGate.GateComparesQuotedUnits(TRANSFER, true, true, c.screening, c.profile);
  }

  lemma Settles(rules: Cited<string>) returns (result: NegotiationResult)
    requires Passable(rules)
    ensures ReachesRouter(TRANSFER, Requesting(rules), result)
    ensures result.verdict == VerdictOn(rules) && result.proposal == Some(PROPOSAL)
    ensures result.transfer.state == SETTLING && result.transfer.quote == TRANSFER.quote
  {
    hide Assess, Propose, Plan, OnQuotedTerms, EntryResultOf, PlannedTrail, Passable;
    var s := Negotiating(rules);
    VerdictIsGiven(rules);
    ProposalIsGiven(rules);
    assert SettlesOn(TRANSFER, QUOTES, s, VerdictOn(rules), PROPOSAL);
    SettlesExactlyWhen(TRANSFER, QUOTES, s);
    ResultFitsOutcome(TRANSFER, QUOTES, s);
    GatePasses(rules);
    result := Plan(TRANSFER, QUOTES, s).ending.result;
    assert FirstRefusal(s.sink, |PlannedTrail(TRANSFER, QUOTES, s)|) == |PlannedTrail(TRANSFER, QUOTES, s)|;
  }

  /** The rail the verdict forbids is submitted to, and carries the payment. */
  lemma ForbiddenRailCarriesThePayment()
    ensures var handled := Handle(TRANSFER, Requesting(RULES), map[]);
            && handled.submitted == [RIPPLE, SWIFT]
            && handled.response.Some? && handled.response.value.outcome == RailDelivered
            && handled.response.value.selectedRail == Some(SWIFT)
            && SWIFT in VerdictOn(RULES).constraints.forbiddenRails
            && exists result ::
                 ReachesRouter(TRANSFER, Requesting(RULES), result) && result.verdict == VerdictOn(RULES)
  {
    hide ReachesRouter, Handle, Route;
    RulesArePassable();
    var result := Settles(RULES);
    SecondRailPaysToo(result.transfer, Failed);
    HandledByRouter(TRANSFER, Requesting(RULES), map[], result);
  }

  /** A rule named in a string: the payment is delivered, the trail is complete, and nothing is answered. */
  lemma TextRulesLoseTheAnswer()
    ensures var handled := Handle(TRANSFER, Requesting(TEXT_RULES), map[]);
            && handled.submitted == [RIPPLE, SWIFT] && PaidUnanswered(handled)
            && IsAudited(TRANSFER, Requesting(TEXT_RULES), handled.held)
  {
    hide ReachesRouter, Handle, Route, IsSettlement, IsAudited;
    RulesArePassable();
    var result := Settles(TEXT_RULES);
    SecondRailPaysToo(result.transfer, Failed);
    HandledByRouter(TRANSFER, Requesting(TEXT_RULES), map[], result);
    RoutedRequestFollowsTheDiagram(TRANSFER, Requesting(TEXT_RULES), map[], result);
    NoSubmissionUnaudited(TRANSFER, Requesting(TEXT_RULES), map[]);
  }
}
