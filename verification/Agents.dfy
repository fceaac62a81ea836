/**
 The two agents that ask a model
 (services/asco/src/ubunturemit_asco/agents/sentinel.py and strategist.py) and
 the deterministic exit gate after them (guardrails/exit.py).

 A model may answer anything or raise.  JSON decoding is assumed: a reply that
 decodes is given by its fields, each absent, ill-formed (a value the code's
 conversion refuses) or well-formed.
 */
module Agents {
  import opened Wrappers
  import opened Text
  import opened DomainMoney
  import opened Lifecycle

  datatype Field<+T> = Absent | IllFormed | WellFormed(value: T)

  /**
   What one call of the model gives.  `complaint` is the text of the exception
   that is raised by the call, or by the parser if the reply is unusable.
   */
  datatype Reply<+P> =
    | TimesOut(complaint: string)
    | Raises(complaint: string)
    | Emits(payload: P, complaint: string)

  /** The inference backend: its answers in order, and how many calls have been made. */
  class LLMClient<P> {
    const replies: nat -> Reply<P>
    var made: nat

    constructor (replies: nat -> Reply<P>)
      ensures this.replies == replies && made == 0
    {
      this.replies := replies;
      made := 0;
    }

    /** The next two replies. */
    function Upcoming(): (Reply<P>, Reply<P>)
      reads this
    {
      (replies(made), replies(made + 1))
    }

    method Complete() returns (reply: Reply<P>)
      modifies this
      ensures reply == old(Upcoming()).0 && made == old(made) + 1
    {
      reply := replies(made);
      made := made + 1;
    }
  }

  predicate IsBlank(s: string) {
    Strip(s) == ""
  }

  function ParseRail(name: string): Option<SettlementRail> {
    if name == "RIPPLE" then Some(RIPPLE)
    else if name == "SWIFT" then Some(SWIFT)
    else if name == "PAPSS" then Some(PAPSS)
    else None
  }

  // ---------------------------------------------------------------------
  // The Compliance Sentinel
  // ---------------------------------------------------------------------

  datatype VerdictOutcome = PASS | ESCALATE | BLOCK

  datatype Constraints = Constraints(forbiddenRails: seq<SettlementRail>, maxSettlementSeconds: Option<real>)

  /**
   A JSON value that stands where a list of strings is meant.  Python iterates
   over a list, over the characters of a string and over the names of an
   object, so all three pass for a list where only the items are looked at.
   */
  datatype Cited<+T> = AsList(items: seq<T>) | AsText(text: string) | AsObject(names: seq<string>)

  /** What iterating gives. */
  function Items(cited: Cited<string>): seq<string> {
    match cited
    case AsList(items) => items
    case AsText(text) => seq(|text|, i requires 0 <= i < |text| => [text[i]])
    case AsObject(names) => names
  }

  datatype Verdict = Verdict(
    outcome: VerdictOutcome,
    riskScore: real,
    citedRules: Cited<string>,
    rationale: string,
    constraints: Constraints)

  datatype ConstraintsPayload = ConstraintsPayload(
    forbiddenRails: Field<seq<Field<string>>>,
    maxSettlementSeconds: Field<real>)

  datatype VerdictPayload = VerdictPayload(
    outcome: Field<string>,
    riskScore: Field<real>,
    citedRules: Field<Cited<Field<string>>>,
    rationale: Field<string>,
    constraints: Field<ConstraintsPayload>)

  const MAX_RATIONALE: nat := 600

  /** What the constructor of a verdict refuses to be without. */
  predicate ValidVerdict(v: Verdict) {
    && 0.0 <= v.riskScore <= 1.0
    && Items(v.citedRules) != []
    && (forall i :: 0 <= i < |Items(v.citedRules)| ==> !IsBlank(Items(v.citedRules)[i]))
    && !IsBlank(v.rationale)
    && |v.rationale| <= MAX_RATIONALE
  }

  function ParseOutcome(name: string): Option<VerdictOutcome> {
    if name == "PASS" then Some(PASS)
    else if name == "ESCALATE" then Some(ESCALATE)
    else if name == "BLOCK" then Some(BLOCK)
    else None
  }

  /** An unknown rail is refused, not dropped: dropping it would lift a constraint. */
  function ParseRails(names: seq<Field<string>>): Option<seq<SettlementRail>> {
    if names == [] then Some([])
    else if !names[0].WellFormed? || ParseRail(names[0].value).None? then None
    else
      match ParseRails(names[1..])
      case None => None
      case Some(rest) => Some([ParseRail(names[0].value).value] + rest)
  }

  /** Only the constraints have defaults: none forbidden, no limit. */
  function ParseConstraints(field: Field<ConstraintsPayload>): Option<Constraints> {
    match field
    case Absent => Some(Constraints([], None))
    case IllFormed => None
    case WellFormed(c) =>
      var rails :=
        match c.forbiddenRails
        case Absent => Some([])
        case IllFormed => None
        case WellFormed(names) => ParseRails(names);
      if rails.None? || c.maxSettlementSeconds.IllFormed? then None
      else Some(Constraints(rails.value, if c.maxSettlementSeconds.Absent? then None
                                         else Some(c.maxSettlementSeconds.value)))
  }

  function ParseStrings(items: seq<Field<string>>): Option<seq<string>> {
    if items == [] then Some([])
    else if !items[0].WellFormed? then None
    else
      match ParseStrings(items[1..])
      case None => None
      case Some(rest) => Some([items[0].value] + rest)
  }

  /** The cited rules are taken over as they come: nothing turns them into a list. */
  function ParseCited(cited: Cited<Field<string>>): Option<Cited<string>> {
    match cited
    case AsList(items) => (
      match ParseStrings(items)
      case None => None
      case Some(rules) => Some(AsList(rules))
    )
    case AsText(text) => Some(AsText(text))
    case AsObject(names) => Some(AsObject(names))
  }

  /** `_parse_and_validate`, down to the checks of the verdict's constructor. */
  function ParseVerdict(p: VerdictPayload): (v: Option<Verdict>)
    ensures v.Some? ==> ValidVerdict(v.value)
  {
    if !(p.outcome.WellFormed? && p.riskScore.WellFormed? && p.citedRules.WellFormed? && p.rationale.WellFormed?)
    then None
    else
      var outcome, constraints := ParseOutcome(p.outcome.value), ParseConstraints(p.constraints);
      var rules := ParseCited(p.citedRules.value);
      if outcome.None? || constraints.None? || rules.None? then None
      else
        var v := Verdict(outcome.value, p.riskScore.value, rules.value, p.rationale.value, constraints.value);
        if ValidVerdict(v) then Some(v) else None
  }

  const TIMED_OUT_RATIONALE := "Compliance Sentinel inference timed out. Escalating to human queue."

  const TIMED_OUT := Verdict(
    ESCALATE, 0.5, AsList(["INFERENCE_TIMEOUT_FAIL_CLOSED"]), TIMED_OUT_RATIONALE, Constraints([], None))

  const MALFORMED_PREFIX := "Sentinel emitted unparseable output twice ("
  const MALFORMED_SUFFIX := "). Escalating to human queue."

  function Malformed(complaint: string): Verdict {
    Verdict(ESCALATE, 0.5, AsList(["MALFORMED_OUTPUT_ESCALATE"]),
            MALFORMED_PREFIX + complaint + MALFORMED_SUFFIX, Constraints([], None))
  }

  /** The verdict of one reply, if it has one. */
  function Usable(reply: Reply<VerdictPayload>): (v: Option<Verdict>)
    ensures v.Some? ==> ValidVerdict(v.value)
  {
    if reply.Emits? then ParseVerdict(reply.payload) else None
  }

  /** An agent's answer and how often it called the model for it; no value means that it raised. */
  datatype Asked<+T> = Asked(answer: Option<T>, calls: nat)

  /**
   `assess`: a timeout of the first call escalates, anything else unusable is
   asked for once more, and a second failure escalates.  The constructor of
   the escalating verdict can itself refuse the text it is given.
   */
  function Assess(first: Reply<VerdictPayload>, second: Reply<VerdictPayload>): Asked<Verdict> {
    if Usable(first).Some? then Asked(Usable(first), 1)
    else if first.TimesOut? then Asked(Some(TIMED_OUT), 1)
    else if Usable(second).Some? then Asked(Usable(second), 2)
    else
      var v := Malformed(second.complaint);
      Asked(if ValidVerdict(v) then Some(v) else None, 2)
  }

  /** A reply of the model is unusable: it raised, or what it emitted does not parse into a verdict. */
  predicate Fails(reply: Reply<VerdictPayload>) {
    !reply.TimesOut? && Usable(reply).None?
  }

  lemma MalformedIsValidExactlyWhen(complaint: string)
    ensures ValidVerdict(Malformed(complaint)) <==> |complaint| <= 528
  {
    var text := MALFORMED_PREFIX + complaint + MALFORMED_SUFFIX;
    assert |MALFORMED_PREFIX| == 43;
    assert |MALFORMED_SUFFIX| == 29 && MALFORMED_SUFFIX[28] == '.';
    assert text[|text| - 1] == MALFORMED_SUFFIX[28];
    NotBlank(text);
    NotBlank("MALFORMED_OUTPUT_ESCALATE");
  }

  lemma TimedOutIsValid()
    ensures ValidVerdict(TIMED_OUT)
  {
    NotBlank("INFERENCE_TIMEOUT_FAIL_CLOSED");
    assert |TIMED_OUT_RATIONALE| == 67 && TIMED_OUT_RATIONALE[66] == '.';
    NotBlank(TIMED_OUT_RATIONALE);
  }

  /**
   Every verdict cites a rule, whatever the model does; and the sentinel fails
   to give a verdict, although the design promises an escalation then, exactly
   when two replies are unusable and the second complaint is too long to be
   quoted in the rationale of the escalation.
   */
  lemma AssessRaisesExactlyWhen(first: Reply<VerdictPayload>, second: Reply<VerdictPayload>)
    ensures var asked := Assess(first, second);
            && (asked.answer.Some? ==> ValidVerdict(asked.answer.value))
            && (asked.answer.None?
                <==> Fails(first) && Usable(second).None? && |second.complaint| > 528)
            && asked.calls <= 2
  {
    MalformedIsValidExactlyWhen(second.complaint);
    TimedOutIsValid();
  }

  /** The complaint about an outcome that has no such name. */
  function UnknownOutcome(name: string): string {
    "'" + name + "' is not a valid VerdictOutcome"
  }

  /** One input on which it raises: the model twice names an outcome of more than 496 letters. */
  lemma LongOutcomeRaises(payload: VerdictPayload, n: nat)
    requires payload.outcome == WellFormed(seq(n, _ => 'A'))
    ensures var reply := Emits(payload, UnknownOutcome(payload.outcome.value));
            Assess(reply, reply).answer.None? <==> n > 496
  {
    var name := seq(n, _ => 'A');
    var reply := Emits(payload, UnknownOutcome(name));
    assert |UnknownOutcome(name)| == n + 32;
    assert ParseOutcome(name).None? by {
      assert n > 0 ==> name[0] == 'A';
      assert "PASS"[0] == 'P' && "ESCALATE"[0] == 'E' && "BLOCK"[0] == 'B';
    }
    AssessRaisesExactlyWhen(reply, reply);
  }

  /** No allowance by default: a pass is always a reply of the model that parsed. */
  lemma PassIsAReply(first: Reply<VerdictPayload>, second: Reply<VerdictPayload>)
    requires Assess(first, second).answer.Some? && Assess(first, second).answer.value.outcome != ESCALATE
    ensures Assess(first, second).answer == Usable(first)
         || (Fails(first) && Assess(first, second).answer == Usable(second))
  {
  }

  /** A constraint the model states survives parsing; nothing else is forbidden. */
  lemma {:induction false} ParsedRailsAreTheStated(names: seq<Field<string>>, rail: SettlementRail)
    requires ParseRails(names).Some?
    ensures rail in ParseRails(names).value
       <==> exists i :: 0 <= i < |names| && names[i].WellFormed? && ParseRail(names[i].value) == Some(rail)
  {
    if names != [] {
      var rest := names[1..];
      ParsedRailsAreTheStated(rest, rail);
      if rail in ParseRails(rest).value {
        var i :| 0 <= i < |rest| && rest[i].WellFormed? && ParseRail(rest[i].value) == Some(rail);
        assert names[i + 1] == rest[i];
      }
      if i :| 0 <= i < |names| && names[i].WellFormed? && ParseRail(names[i].value) == Some(rail) {
        if i > 0 {
          assert rest[i - 1] == names[i];
        }
      }
    }
  }

  class ComplianceSentinel {
    const client: LLMClient<VerdictPayload>

    constructor (client: LLMClient<VerdictPayload>)
      ensures this.client == client
    {
      this.client := client;
    }

    /** The model is called again only for a reply that cannot be used, and never a third time. */
    method AssessTransfer() returns (answer: Option<Verdict>)
      modifies client
      ensures var asked := Assess(old(client.Upcoming()).0, old(client.Upcoming()).1);
              answer == asked.answer && client.made == old(client.made) + asked.calls
    {
      hide ParseVerdict, ValidVerdict;
      var first := client.Complete();
      answer := Usable(first);
      if answer.Some? {
        return;
      }
      if first.TimesOut? {
        return Some(TIMED_OUT);
      }
      var second := client.Complete();
      answer := Usable(second);
      if answer.Some? {
        return;
      }
      answer := if ValidVerdict(Malformed(second.complaint)) then Some(Malformed(second.complaint)) else None;
    }
  }

  // ---------------------------------------------------------------------
  // The Liquidity Strategist
  // ---------------------------------------------------------------------

  datatype RailQuote = RailQuote(rail: SettlementRail, feeMinorUnits: int, spreadBps: int, estimatedSeconds: real)

  datatype Proposal = Proposal(
    rail: SettlementRail,
    totalCost: Money,
    estimatedSeconds: real,
    rationale: string)

  datatype ProposalPayload = ProposalPayload(
    rail: Field<string>,
    costMinorUnits: Field<int>,
    costCurrency: Field<string>,
    estimatedSeconds: Field<real>,
    rationale: Field<string>)

  const MAX_PROPOSAL_RATIONALE: nat := 400

  /** The rail need not have been quoted: that is the exit gate's check, not the parser's. */
  function ParseProposal(p: ProposalPayload, currency: CurrencyCode): Option<Proposal> {
    if !(p.rail.WellFormed? && p.costMinorUnits.WellFormed? && p.costCurrency.WellFormed?
         && p.estimatedSeconds.WellFormed? && p.rationale.WellFormed?)
    then None
    else if ParseRail(p.rail.value).None? || p.costCurrency.value != CurrencyName(currency)
            || p.estimatedSeconds.value <= 0.0 || IsBlank(p.rationale.value)
            || |p.rationale.value| > MAX_PROPOSAL_RATIONALE
    then None
    else Some(Proposal(ParseRail(p.rail.value).value, Money(p.costMinorUnits.value, currency),
                       p.estimatedSeconds.value, p.rationale.value))
  }

  predicate HasEligibleQuote(quotes: seq<RailQuote>, forbidden: seq<SettlementRail>) {
    exists i :: 0 <= i < |quotes| && quotes[i].rail !in forbidden
  }

  function UsableProposal(reply: Reply<ProposalPayload>, currency: CurrencyCode): Option<Proposal> {
    if reply.Emits? then ParseProposal(reply.payload, currency) else None
  }

  /** `propose`: without an eligible quote, or after a timeout or two unusable replies, it raises. */
  function Propose(
      quotes: seq<RailQuote>, constraints: Constraints, currency: CurrencyCode,
      first: Reply<ProposalPayload>, second: Reply<ProposalPayload>): Asked<Proposal>
  {
    if !HasEligibleQuote(quotes, constraints.forbiddenRails) then Asked(None, 0)
    else if UsableProposal(first, currency).Some? then Asked(UsableProposal(first, currency), 1)
    else if first.TimesOut? then Asked(None, 1)
    else Asked(UsableProposal(second, currency), 2)
  }

  /** A proposal is priced in the currency that is sent, and comes from one of at most two replies. */
  lemma ProposalIsAReply(
      quotes: seq<RailQuote>, constraints: Constraints, currency: CurrencyCode,
      first: Reply<ProposalPayload>, second: Reply<ProposalPayload>)
    ensures var asked := Propose(quotes, constraints, currency, first, second);
            && asked.calls <= 2
            && (asked.answer.Some? ==>
                  && HasEligibleQuote(quotes, constraints.forbiddenRails)
                  && asked.answer.value.totalCost.currency == currency
                  && asked.answer.value.estimatedSeconds > 0.0)
  {
  }

  class LiquidityStrategist {
    const client: LLMClient<ProposalPayload>

    constructor (client: LLMClient<ProposalPayload>)
      ensures this.client == client
    {
      this.client := client;
    }

    /** Without an eligible quote the model is not called at all. */
    method ProposeRail(quotes: seq<RailQuote>, constraints: Constraints, currency: CurrencyCode)
      returns (answer: Option<Proposal>)
      modifies client
      ensures var upcoming := old(client.Upcoming());
              var asked := Propose(quotes, constraints, currency, upcoming.0, upcoming.1);
              answer == asked.answer && client.made == old(client.made) + asked.calls
    {
      hide ParseProposal;
      if !HasEligibleQuote(quotes, constraints.forbiddenRails) {
        return None;
      }
      var first := client.Complete();
      answer := UsableProposal(first, currency);
      if answer.Some? || first.TimesOut? {
        return;
      }
      var second := client.Complete();
      answer := UsableProposal(second, currency);
    }
  }

  // ---------------------------------------------------------------------
  // The exit gate
  // ---------------------------------------------------------------------

  datatype ExitStage = CLEAR | CITATION_CHECK | RAIL_ELIGIBILITY | ISO20022_SCHEMA

  datatype ExitReason =
    | AllChecksPassed
    | Uncited
    | Blocked
    | Escalated
    | FabricatedRail
    | LatencyDiffersFromQuote
    | CostBelowQuotedFee
    | ForbiddenRail
    | TooSlow
    | SchemaRefuses

  datatype ExitResult = ExitResult(valid: bool, stage: ExitStage, deterministicOverride: bool, reason: ExitReason)

  function Refusal(stage: ExitStage, override: bool, reason: ExitReason): ExitResult {
    ExitResult(false, stage, override, reason)
  }

  predicate IsQuoted(quotes: seq<RailQuote>, rail: SettlementRail) {
    exists i :: 0 <= i < |quotes| && quotes[i].rail == rail
  }

  /** Quote `i` is the first one for its rail. */
  predicate IsFirstQuote(quotes: seq<RailQuote>, i: nat)
    requires i < |quotes|
  {
    forall j :: 0 <= j < i ==> quotes[j].rail != quotes[i].rail
  }

  /** The first quote of a rail. */
  function FirstQuote(quotes: seq<RailQuote>, rail: SettlementRail): (q: RailQuote)
    requires IsQuoted(quotes, rail)
    ensures q.rail == rail
    ensures exists i :: 0 <= i < |quotes| && quotes[i] == q && IsFirstQuote(quotes, i)
  {
    if quotes[0].rail == rail then
      assert IsFirstQuote(quotes, 0);
      quotes[0]
    else
      assert quotes == [quotes[0]] + quotes[1..];
      var q := FirstQuote(quotes[1..], rail);
      assert exists i :: 0 <= i < |quotes| && quotes[i] == q && IsFirstQuote(quotes, i) by {
        var i :| 0 <= i < |quotes[1..]| && quotes[1..][i] == q && IsFirstQuote(quotes[1..], i);
        FirstQuoteShifts(quotes, i);
      }
      q
  }

  lemma FirstQuoteShifts(quotes: seq<RailQuote>, i: nat)
    requires i + 1 < |quotes| && quotes[0].rail != quotes[i + 1].rail && IsFirstQuote(quotes[1..], i)
    ensures quotes[1..][i] == quotes[i + 1] && IsFirstQuote(quotes, i + 1)
  {
    forall j | 0 <= j < i + 1 ensures quotes[j].rail != quotes[i + 1].rail {
      if j > 0 {
        assert quotes[1..][j - 1] == quotes[j];
      }
    }
  }

  /** The first objection to the proposed rail and its terms. */
  function RailObjection(verdict: Verdict, proposal: Proposal, quotes: seq<RailQuote>): Option<ExitReason> {
    if !IsQuoted(quotes, proposal.rail) then Some(FabricatedRail)
    else
      var chosen := FirstQuote(quotes, proposal.rail);
      if proposal.estimatedSeconds != chosen.estimatedSeconds then Some(LatencyDiffersFromQuote)
      else if proposal.totalCost.minorUnits < chosen.feeMinorUnits then Some(CostBelowQuotedFee)
      else if proposal.rail in verdict.constraints.forbiddenRails then Some(ForbiddenRail)
      else if verdict.constraints.maxSettlementSeconds.Some?
              && proposal.estimatedSeconds > verdict.constraints.maxSettlementSeconds.value then Some(TooSlow)
      else None
  }

  /** `validate`; a missing proposal or message skips its stage, `schemaAccepts` is the schema's answer. */
  function Validate(
      verdict: Verdict, proposal: Option<Proposal>, quotes: seq<RailQuote>,
      pacs008: Option<string>, schemaAccepts: string -> bool): ExitResult
  {
    if Items(verdict.citedRules) == [] then Refusal(CITATION_CHECK, true, Uncited)
    else if verdict.outcome == BLOCK then Refusal(CITATION_CHECK, false, Blocked)
    else if verdict.outcome == ESCALATE then Refusal(CITATION_CHECK, false, Escalated)
    else if proposal.Some? && RailObjection(verdict, proposal.value, quotes).Some? then
      Refusal(RAIL_ELIGIBILITY, true, RailObjection(verdict, proposal.value, quotes).value)
    else if pacs008.Some? && !schemaAccepts(pacs008.value) then Refusal(ISO20022_SCHEMA, true, SchemaRefuses)
    else ExitResult(true, CLEAR, false, AllChecksPassed)
  }

  /** The terms a settlement may have: those of the first quote for its rail, within the sentinel's constraints. */
  predicate OnQuotedTerms(verdict: Verdict, proposal: Proposal, quotes: seq<RailQuote>) {
    && (exists i :: 0 <= i < |quotes| && IsFirstQuote(quotes, i)
          && quotes[i].rail == proposal.rail
          && quotes[i].estimatedSeconds == proposal.estimatedSeconds
          && quotes[i].feeMinorUnits <= proposal.totalCost.minorUnits)
    && proposal.rail !in verdict.constraints.forbiddenRails
    && (verdict.constraints.maxSettlementSeconds.Some? ==>
          proposal.estimatedSeconds <= verdict.constraints.maxSettlementSeconds.value)
  }

  lemma FirstQuoteIsUnique(quotes: seq<RailQuote>, i: nat)
    requires i < |quotes| && IsFirstQuote(quotes, i)
    ensures IsQuoted(quotes, quotes[i].rail) && FirstQuote(quotes, quotes[i].rail) == quotes[i]
  {
    assert IsQuoted(quotes, quotes[i].rail);
    var k :| 0 <= k < |quotes| && quotes[k] == FirstQuote(quotes, quotes[i].rail) && IsFirstQuote(quotes, k);
  }

  /**
   The gate is clear exactly for a cited pass on quoted terms whose message the
   schema accepts; and only a refusal the sentinel did not ask for counts as an
   override.
   */
  lemma ClearExactlyWhen(
      verdict: Verdict, proposal: Proposal, quotes: seq<RailQuote>, pacs008: string, schemaAccepts: string -> bool)
    ensures var result := Validate(verdict, Some(proposal), quotes, Some(pacs008), schemaAccepts);
            && (result.valid <==>
                  && Items(verdict.citedRules) != [] && verdict.outcome == PASS
                  && OnQuotedTerms(verdict, proposal, quotes)
                  && schemaAccepts(pacs008))
            && (result.deterministicOverride <==>
                  !result.valid && (Items(verdict.citedRules) == [] || verdict.outcome == PASS))
  {
    if IsQuoted(quotes, proposal.rail) {
      var i :| 0 <= i < |quotes| && quotes[i] == FirstQuote(quotes, proposal.rail) && IsFirstQuote(quotes, i);
    }
    if OnQuotedTerms(verdict, proposal, quotes) {
      var i :| 0 <= i < |quotes| && IsFirstQuote(quotes, i) && quotes[i].rail == proposal.rail
               && quotes[i].estimatedSeconds == proposal.estimatedSeconds
               && quotes[i].feeMinorUnits <= proposal.totalCost.minorUnits;
      FirstQuoteIsUnique(quotes, i);
    }
  }
}
