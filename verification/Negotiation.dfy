/**
 The negotiation coordinator
 (services/asco/src/ubunturemit_asco/orchestrator/negotiation.py).

 Model replies, the message builder, the schema and the audit sink are
 arbitrary and may raise.  `Plan` is a run with a sink that acknowledges
 everything; `NegotiationRun` is the same run cut at the first record the sink
 refuses.  The coordinator itself is a method, proved equal to that.
 */
module Negotiation {
  import opened Wrappers
  import opened DomainMoney
  import opened AuditStore
  import opened AuditVerifier
  import opened Lifecycle
  import opened Agents

  const MAX_NEGOTIATION_EXCHANGES: nat := 3

  /**
   Who speaks in a record, whether a deterministic rule overruled the agents,
   and how many states the transfer has gone through by then.
   */
  datatype Turn = Turn(actor: string, override: bool, reached: nat)

  datatype Narration = Narration(thought: string, action: string, observation: string, recordedAt: string)

  /** What the sink does with a record; one that raises may still have kept it. */
  datatype SinkAnswer = Acknowledges | RaisesWithout | RaisesWith

  /** Everything the coordinator does not decide itself; the last two by the number of the record. */
  datatype Surroundings = Surroundings(
    sentinel: (Reply<VerdictPayload>, Reply<VerdictPayload>),
    strategist: (Reply<ProposalPayload>, Reply<ProposalPayload>),
    build: Transfer -> Option<string>,
    schemaAccepts: string -> bool,
    narrate: nat -> Narration,
    sink: nat -> SinkAnswer)

  datatype NegotiationResult = NegotiationResult(
    transfer: Transfer,
    outcome: Outcome,
    pacs008: Option<string>,
    proposal: Option<Proposal>,
    verdict: Verdict)

  datatype Ending = Returns(result: NegotiationResult) | RaisesError

  /** The records a run makes, the states of the transfer, the ending, and how often a model was called. */
  datatype Planned = Planned(turns: seq<Turn>, states: seq<TransferState>, ending: Ending, calls: nat)

  /** Every record is made in a state the transfer has reached. */
  predicate TurnsFitStates(plan: Planned) {
    forall i :: 0 <= i < |plan.turns| ==> 1 <= plan.turns[i].reached <= |plan.states|
  }

  // ---------------------------------------------------------------------
  // The run with a willing sink
  // ---------------------------------------------------------------------

  function Plan(t: Transfer, quotes: seq<RailQuote>, s: Surroundings): (plan: Planned)
    ensures TurnsFitStates(plan)
  {
    var asked := Assess(s.sentinel.0, s.sentinel.1);
    if asked.answer.None? then Planned([], [t.state], RaisesError, asked.calls)
    else PlanAfterVerdict(t, quotes, s, asked.answer.value, asked.calls)
  }

  function PlanAfterVerdict(
      t: Transfer, quotes: seq<RailQuote>, s: Surroundings, verdict: Verdict, calls: nat): (plan: Planned)
    ensures TurnsFitStates(plan)
  {
    var assessed := [Turn(SENTINEL, false, 1)];
    match verdict.outcome
    case BLOCK => (
      match Transition(t, REJECTED)
      case Err(_) => Planned(assessed, [t.state], RaisesError, calls)
      case Ok(rejected) =>
        Planned(assessed + [Turn(ORCHESTRATOR, false, 2)], [t.state, REJECTED],
                Returns(NegotiationResult(rejected, RejectedOutcome, None, None, verdict)), calls)
    )
    case ESCALATE =>
      Planned(assessed + [Turn(ORCHESTRATOR, false, 1)], [t.state],
              Returns(NegotiationResult(t, PendingReview, None, None, verdict)), calls)
    case PASS =>
      match Transition(t, VALIDATED)
      case Err(_) => Planned(assessed, [t.state], RaisesError, calls)
      case Ok(validated) => PlanAfterPass(validated, quotes, s, verdict, calls)
  }

  /** Only an initiated transfer comes here. */
  function PlanAfterPass(
      validated: Transfer, quotes: seq<RailQuote>, s: Surroundings, verdict: Verdict, calls: nat): (plan: Planned)
    ensures TurnsFitStates(plan)
  {
    var passed := [Turn(SENTINEL, false, 1), Turn(ORCHESTRATOR, false, 2)];
    var asked := Propose(quotes, verdict.constraints, validated.quote.send.currency, s.strategist.0, s.strategist.1);
    match asked.answer
    case None =>
      Planned(passed + [Turn(ORCHESTRATOR, true, 2)], [INITIATED, VALIDATED],
              Returns(NegotiationResult(validated, PendingReview, None, None, verdict)), calls + asked.calls)
    case Some(proposal) =>
      PlanAfterProposal(validated, quotes, s, verdict, proposal, calls + asked.calls)
  }

  /** The transfer on its proposed rail; it is built anew, without a settlement time. */
  function OnRail(validated: Transfer, rail: SettlementRail): Transfer {
    validated.(rail := Some(rail), settlementSeconds := None)
  }

  function PlanAfterProposal(
      validated: Transfer, quotes: seq<RailQuote>, s: Surroundings, verdict: Verdict, proposal: Proposal,
      calls: nat): (plan: Planned)
    ensures TurnsFitStates(plan)
  {
    var proposed := [Turn(SENTINEL, false, 1), Turn(ORCHESTRATOR, false, 2), Turn(STRATEGIST, false, 2)];
    var states := [INITIATED, VALIDATED];
    var updated := OnRail(validated, proposal.rail);
    match s.build(updated)
    case None => Planned(proposed, states, RaisesError, calls)
    case Some(pacs008) =>
      var exit := Validate(verdict, Some(proposal), quotes, Some(pacs008), s.schemaAccepts);
      var gated := proposed + [Turn(EXIT_GATE, exit.deterministicOverride, 2)];
      var next := if exit.valid then SETTLING else REJECTED;
      match Transition(updated, next)
      case Err(_) => Planned(gated, states, RaisesError, calls)
      case Ok(moved) =>
        if exit.valid then
          Planned(gated + [Turn(ORCHESTRATOR, false, 3)], states + [next],
                  Returns(NegotiationResult(moved, SettlingOutcome, Some(pacs008), Some(proposal), verdict)), calls)
        else
          Planned(gated, states + [next],
                  Returns(NegotiationResult(moved, RejectedOutcome, Some(pacs008), Some(proposal), verdict)), calls)
  }

  // ---------------------------------------------------------------------
  // The run with any sink
  // ---------------------------------------------------------------------

  function RecordOf(transferId: string, actor: string, override: bool, n: Narration): AuditRecord {
    AuditRecord(transferId, actor, n.thought, n.action, n.observation, n.recordedAt, override)
  }

  function Trail(transferId: string, turns: seq<Turn>, narrate: nat -> Narration): (trail: seq<AuditRecord>)
    ensures |trail| == |turns|
    ensures forall i :: 0 <= i < |turns| ==>
              trail[i] == AuditRecord(transferId, turns[i].actor, narrate(i).thought, narrate(i).action,
                                      narrate(i).observation, narrate(i).recordedAt, turns[i].override)
  {
    seq(|turns|, i requires 0 <= i < |turns| =>
      RecordOf(transferId, turns[i].actor, turns[i].override, narrate(i)))
  }

  /** The sink acknowledges every record before `k`, and raises at that one. */
  predicate RefusesFirst(sink: nat -> SinkAnswer, k: nat) {
    !sink(k).Acknowledges? && forall i :: 0 <= i < k ==> sink(i).Acknowledges?
  }

  /** The first of `n` records the sink does not acknowledge, or `n`. */
  function FirstRefusal(sink: nat -> SinkAnswer, n: nat): (k: nat)
    ensures k <= n
    ensures k < n ==> !sink(k).Acknowledges?
    ensures forall i :: 0 <= i < k ==> sink(i).Acknowledges?
  {
    if n == 0 then 0
    else
      var k := FirstRefusal(sink, n - 1);
      if k < n - 1 then k
      else if sink(n - 1).Acknowledges? then n
      else n - 1
  }

  /** What a sink that raises at record `k` holds of a trail. */
  function HeldAt(trail: seq<AuditRecord>, sink: nat -> SinkAnswer, k: nat): seq<AuditRecord>
    requires k < |trail|
  {
    trail[..k] + if sink(k).RaisesWith? then [trail[k]] else []
  }

  /** What the sink is left with, the states of the transfer, and the ending. */
  datatype SinkRun = SinkRun(held: seq<AuditRecord>, states: seq<TransferState>, ending: Ending)

  function PlannedTrail(t: Transfer, quotes: seq<RailQuote>, s: Surroundings): (trail: seq<AuditRecord>)
    ensures |trail| == |Plan(t, quotes, s).turns|
  {
    Trail(t.id, Plan(t, quotes, s).turns, s.narrate)
  }

  function NegotiationRun(t: Transfer, quotes: seq<RailQuote>, s: Surroundings): SinkRun {
    var plan, trail := Plan(t, quotes, s), PlannedTrail(t, quotes, s);
    var k := FirstRefusal(s.sink, |trail|);
    if k == |trail| then SinkRun(trail, plan.states, plan.ending)
    else SinkRun(HeldAt(trail, s.sink, k), plan.states[..plan.turns[k].reached], RaisesError)
  }

  /**
   A run that returns has had every one of its records acknowledged, in order;
   if the sink raises at a record, it holds exactly the records before it (and
   that one, if it kept it), and the run raises.
   */
  lemma ReturnsOnlyAcknowledged(t: Transfer, quotes: seq<RailQuote>, s: Surroundings)
    ensures var run, trail := NegotiationRun(t, quotes, s), PlannedTrail(t, quotes, s);
            && (run.ending.Returns? ==>
                  run.held == trail && forall i :: 0 <= i < |trail| ==> s.sink(i).Acknowledges?)
            && (forall k :: 0 <= k < |trail| && RefusesFirst(s.sink, k) ==>
                  run.ending.RaisesError? && run.held == HeldAt(trail, s.sink, k))
  {
    hide Plan;
  }

  // ---------------------------------------------------------------------
  // What a returned outcome means
  // ---------------------------------------------------------------------

  /** A returned result is about the same transfer, and its state is the one its outcome names. */
  lemma ResultFitsOutcome(t: Transfer, quotes: seq<RailQuote>, s: Surroundings)
    requires Plan(t, quotes, s).ending.Returns?
    ensures var result := Plan(t, quotes, s).ending.result;
            && SameIdentity(result.transfer, t)
            && match result.outcome
               case SettlingOutcome => result.transfer.state == SETTLING && t.state == INITIATED
               case RejectedOutcome => result.transfer.state == REJECTED
               case PendingReview =>
                 result.transfer == t || (result.transfer.state == VALIDATED && t.state == INITIATED)
               case _ => false
  {
    hide Assess, Propose, Validate;
  }

  /** A transfer on the rail of a proposal, in a given state; no settlement time is carried over. */
  function Moved(t: Transfer, proposal: Proposal, state: TransferState): Transfer {
    t.(rail := Some(proposal.rail), settlementSeconds := None, state := state)
  }

  /**
   The result a verdict leads to: a block rejects, an escalation leaves the
   transfer to a human as it is, and a pass settles if there is a proposal on
   quoted terms whose message the schema accepts, waits for a human without a
   proposal, and is rejected otherwise.
   */
  predicate FollowsVerdict(t: Transfer, quotes: seq<RailQuote>, s: Surroundings, result: NegotiationResult) {
    var verdict := result.verdict;
    match verdict.outcome
    case BLOCK =>
      (t.state == INITIATED || t.state == VALIDATED)
      && result == NegotiationResult(t.(state := REJECTED), RejectedOutcome, None, None, verdict)
    case ESCALATE => result == NegotiationResult(t, PendingReview, None, None, verdict)
    case PASS =>
      t.state == INITIATED
      && match Propose(quotes, verdict.constraints, t.quote.send.currency, s.strategist.0, s.strategist.1).answer
         case None => result == NegotiationResult(t.(state := VALIDATED), PendingReview, None, None, verdict)
         case Some(proposal) =>
           var message := s.build(Moved(t, proposal, VALIDATED));
           message.Some?
           && result == if OnQuotedTerms(verdict, proposal, quotes) && s.schemaAccepts(message.value)
                        then NegotiationResult(Moved(t, proposal, SETTLING), SettlingOutcome, message,
                                               Some(proposal), verdict)
                        else NegotiationResult(Moved(t, proposal, REJECTED), RejectedOutcome, message,
                                               Some(proposal), verdict)
  }

  lemma GateDecides(
      validated: Transfer, quotes: seq<RailQuote>, s: Surroundings, verdict: Verdict, proposal: Proposal, calls: nat)
    requires validated.state == VALIDATED && ValidVerdict(verdict) && verdict.outcome == PASS
    ensures var ending := PlanAfterProposal(validated, quotes, s, verdict, proposal, calls).ending;
            var message := s.build(Moved(validated, proposal, VALIDATED));
            if message.None? then ending == RaisesError
            else ending == Returns(
              if OnQuotedTerms(verdict, proposal, quotes) && s.schemaAccepts(message.value)
              then NegotiationResult(Moved(validated, proposal, SETTLING), SettlingOutcome, message,
                                     Some(proposal), verdict)
              else NegotiationResult(Moved(validated, proposal, REJECTED), RejectedOutcome, message,
                                     Some(proposal), verdict))
  {
    hide Validate, OnQuotedTerms;
    assert OnRail(validated, proposal.rail) == Moved(validated, proposal, VALIDATED);
    var message := s.build(OnRail(validated, proposal.rail));
    if message.Some? {
      ClearExactlyWhen(verdict, proposal, quotes, message.value, s.schemaAccepts);
    }
  }

  /** A run returns a result exactly when it is the one the sentinel's verdict leads to; without one it raises. */
  lemma ReturnsExactlyWhen(t: Transfer, quotes: seq<RailQuote>, s: Surroundings, result: NegotiationResult)
    ensures Plan(t, quotes, s).ending == Returns(result)
       <==> Assess(s.sentinel.0, s.sentinel.1).answer == Some(result.verdict) && FollowsVerdict(t, quotes, s, result)
  {
    hide Assess, Propose, PlanAfterProposal, OnQuotedTerms, ValidVerdict;
    var asked := Assess(s.sentinel.0, s.sentinel.1);
    AssessRaisesExactlyWhen(s.sentinel.0, s.sentinel.1);
    if asked.answer.Some? && asked.answer.value.outcome == PASS && t.state == INITIATED {
      var verdict, validated := asked.answer.value, t.(state := VALIDATED);
      var proposed := Propose(quotes, verdict.constraints, t.quote.send.currency, s.strategist.0, s.strategist.1);
      if proposed.answer.Some? {
        var proposal := proposed.answer.value;
        GateDecides(validated, quotes, s, verdict, proposal, asked.calls + proposed.calls);
        assert Moved(validated, proposal, VALIDATED) == Moved(t, proposal, VALIDATED);
      }
    }
  }

  /** So the verdict and the proposal can be read off every outcome, and every outcome off them. */
  lemma OutcomeFollowsVerdict(t: Transfer, quotes: seq<RailQuote>, s: Surroundings)
    requires Plan(t, quotes, s).ending.Returns?
    ensures var result, verdict := Plan(t, quotes, s).ending.result, Assess(s.sentinel.0, s.sentinel.1).answer;
            && verdict == Some(result.verdict)
            && (result.outcome == RejectedOutcome && result.proposal.None? <==> verdict.value.outcome == BLOCK)
            && (result.outcome == PendingReview && result.transfer == t <==> verdict.value.outcome == ESCALATE)
            && (result.outcome == PendingReview && result.transfer != t <==>
                  verdict.value.outcome == PASS && result.proposal.None?)
            && (result.proposal.Some? && result.outcome == RejectedOutcome <==>
                  verdict.value.outcome == PASS && result.proposal.Some?
                  && !(OnQuotedTerms(result.verdict, result.proposal.value, quotes)
                       && result.pacs008.Some? && s.schemaAccepts(result.pacs008.value)))
  {
    hide Plan, Assess, Propose, OnQuotedTerms;
    ReturnsExactlyWhen(t, quotes, s, Plan(t, quotes, s).ending.result);
  }

  // ---------------------------------------------------------------------
  // Who speaks
  // ---------------------------------------------------------------------

  /** A speaker and whether the record says that a deterministic rule overruled the agents. */
  datatype Voice = Voice(actor: string, override: bool)

  /** The records of a run that returns, by its result. */
  function Voices(result: NegotiationResult): seq<Voice> {
    var sentinel, orchestrator := Voice("compliance_sentinel", false), Voice("orchestrator", false);
    var strategist, gate := Voice("liquidity_strategist", false), Voice("exit_validator", false);
    match (result.verdict.outcome, result.outcome)
    case (PASS, SettlingOutcome) => [sentinel, orchestrator, strategist, gate, orchestrator]
    case (PASS, RejectedOutcome) => [sentinel, orchestrator, strategist, gate.(override := true)]
    case (PASS, _) => [sentinel, orchestrator, orchestrator.(override := true)]
    case _ => [sentinel, orchestrator]
  }

  predicate Spoken(turns: seq<Turn>, voices: seq<Voice>) {
    |turns| == |voices|
    && forall i :: 0 <= i < |turns| ==> turns[i].actor == voices[i].actor && turns[i].override == voices[i].override
  }

  lemma GateSpeaks(
      validated: Transfer, quotes: seq<RailQuote>, s: Surroundings, verdict: Verdict, proposal: Proposal, calls: nat)
    requires validated.state == VALIDATED && ValidVerdict(verdict) && verdict.outcome == PASS
    ensures var plan := PlanAfterProposal(validated, quotes, s, verdict, proposal, calls);
            if plan.ending.Returns? then Spoken(plan.turns, Voices(plan.ending.result))
            else Spoken(plan.turns, [Voice("compliance_sentinel", false), Voice("orchestrator", false),
                                     Voice("liquidity_strategist", false)])
  {
    hide Validate, OnQuotedTerms;
    var message := s.build(OnRail(validated, proposal.rail));
    if message.Some? {
      ClearExactlyWhen(verdict, proposal, quotes, message.value, s.schemaAccepts);
    }
  }

  /**
   The records of a run that returns: who speaks in which order is decided by
   the result, and only the gate's refusal and a missing proposal overrule the
   agents.  A run that raises has made the first of them.
   */
  lemma RecordsFollowTheResult(t: Transfer, quotes: seq<RailQuote>, s: Surroundings)
    ensures var plan := Plan(t, quotes, s);
            match plan.ending
            case Returns(result) => Spoken(plan.turns, Voices(result))
            case RaisesError =>
              var verdict := Assess(s.sentinel.0, s.sentinel.1).answer;
              Spoken(plan.turns,
                     if verdict.None? then []
                     else if verdict.value.outcome == PASS && t.state == INITIATED
                     then [Voice("compliance_sentinel", false), Voice("orchestrator", false),
                           Voice("liquidity_strategist", false)]
                     else [Voice("compliance_sentinel", false)])
  {
    hide Assess, Propose, PlanAfterProposal, ValidVerdict;
    var asked := Assess(s.sentinel.0, s.sentinel.1);
    AssessRaisesExactlyWhen(s.sentinel.0, s.sentinel.1);
    if asked.answer.Some? && asked.answer.value.outcome == PASS && t.state == INITIATED {
      var verdict, validated := asked.answer.value, t.(state := VALIDATED);
      var proposed := Propose(quotes, verdict.constraints, t.quote.send.currency, s.strategist.0, s.strategist.1);
      if proposed.answer.Some? {
        GateSpeaks(validated, quotes, s, verdict, proposed.answer.value, asked.calls + proposed.calls);
      }
    }
  }

  lemma ReturnedVerdictIsValid(t: Transfer, quotes: seq<RailQuote>, s: Surroundings)
    requires Plan(t, quotes, s).ending.Returns?
    ensures ValidVerdict(Plan(t, quotes, s).ending.result.verdict)
  {
    hide Assess, Propose, Validate, ValidVerdict;
    AssessRaisesExactlyWhen(s.sentinel.0, s.sentinel.1);
  }

  /** How far a transfer can come in a negotiation. */
  predicate IsNegotiatedPath(states: seq<TransferState>) {
    states == [INITIATED] || states == [INITIATED, VALIDATED] || states == [INITIATED, REJECTED]
    || states == [INITIATED, VALIDATED, REJECTED] || states == [INITIATED, VALIDATED, SETTLING]
  }

  lemma PlannedStatesArePath(t: Transfer, quotes: seq<RailQuote>, s: Surroundings)
    requires t.state == INITIATED
    ensures var plan := Plan(t, quotes, s);
            && IsNegotiatedPath(plan.states)
            && (plan.ending.Returns? ==> plan.states[|plan.states| - 1] == plan.ending.result.transfer.state)
            && (plan.ending.Returns? && plan.ending.result.outcome == SettlingOutcome ==>
                  plan.states == [INITIATED, VALIDATED, SETTLING])
            && (plan.states == [INITIATED, VALIDATED, REJECTED] ==>
                  plan.ending.Returns? && forall i :: 0 <= i < |plan.turns| ==> plan.turns[i].reached <= 2)
  {
    hide Assess, Propose, Validate;
  }

  /**
   Whether a run returns or raises, and wherever the sink cuts it, the transfer
   has followed the diagram; a result reports the last of its states.
   */
  lemma NegotiationFollowsTheDiagram(t: Transfer, quotes: seq<RailQuote>, s: Surroundings)
    requires t.state == INITIATED
    ensures var run := NegotiationRun(t, quotes, s);
            && IsNegotiatedPath(run.states) && IsLife(run.states)
            && (run.ending.Returns? ==> run.states[|run.states| - 1] == run.ending.result.transfer.state)
            && (run.ending.Returns? && run.ending.result.outcome == SettlingOutcome ==>
                  run.states == [INITIATED, VALIDATED, SETTLING])
            && (run.ending.RaisesError? ==> run.states != [INITIATED, VALIDATED, REJECTED])
  {
    hide Plan, PlannedTrail;
    PlannedStatesArePath(t, quotes, s);
    var plan := Plan(t, quotes, s);
    var k := FirstRefusal(s.sink, |PlannedTrail(t, quotes, s)|);
    if k < |plan.turns| {
      PrefixOfPath(plan.states, plan.turns[k].reached);
    }
    PathIsALife(NegotiationRun(t, quotes, s).states);
  }

  lemma PrefixOfPath(states: seq<TransferState>, n: nat)
    requires IsNegotiatedPath(states) && 1 <= n <= |states|
    ensures IsNegotiatedPath(states[..n])
  {
    if n == 1 {
      assert states[..n] == [INITIATED];
    } else if n == |states| {
      assert states[..n] == states;
    } else {
      assert states[..n] == [INITIATED, VALIDATED];
    }
  }

  lemma PathIsALife(states: seq<TransferState>)
    requires IsNegotiatedPath(states)
    ensures IsLife(states)
  {
  }

  /** However often the models fail, they are called at most four times. */
  lemma AtMostFourCalls(t: Transfer, quotes: seq<RailQuote>, s: Surroundings)
    ensures Plan(t, quotes, s).calls <= 4
  {
    hide Usable, ParseVerdict, UsableProposal, ParseProposal, ValidVerdict, HasEligibleQuote, Validate, Transition;
  }

  /** The calls of a run are those of the sentinel and, after a pass on an initiated transfer, of the strategist. */
  lemma CallsAreTheAgents(t: Transfer, quotes: seq<RailQuote>, s: Surroundings)
    ensures var asked := Assess(s.sentinel.0, s.sentinel.1);
            Plan(t, quotes, s).calls
            == asked.calls
               + if asked.answer.Some? && asked.answer.value.outcome == PASS && t.state == INITIATED
                 then Propose(quotes, asked.answer.value.constraints, t.quote.send.currency,
                              s.strategist.0, s.strategist.1).calls
                 else 0
  {
    hide Assess, Propose, Validate;
  }

  /** The verdict and the proposal a settlement rests on. */
  predicate SettlesOn(t: Transfer, quotes: seq<RailQuote>, s: Surroundings, verdict: Verdict, proposal: Proposal) {
    && Assess(s.sentinel.0, s.sentinel.1).answer == Some(verdict)
    && verdict.outcome == PASS
    && t.state == INITIATED
    && Propose(quotes, verdict.constraints, t.quote.send.currency, s.strategist.0, s.strategist.1).answer
       == Some(proposal)
    && OnQuotedTerms(verdict, proposal, quotes)
    && var pacs008 := s.build(OnRail(t.(state := VALIDATED), proposal.rail));
       pacs008.Some? && s.schemaAccepts(pacs008.value)
  }

  lemma GateOfProposal(
      validated: Transfer, quotes: seq<RailQuote>, s: Surroundings, verdict: Verdict, proposal: Proposal, calls: nat)
    requires validated.state == VALIDATED && ValidVerdict(verdict)
    ensures var plan := PlanAfterProposal(validated, quotes, s, verdict, proposal, calls);
            var pacs008 := s.build(OnRail(validated, proposal.rail));
            if pacs008.Some? && verdict.outcome == PASS && OnQuotedTerms(verdict, proposal, quotes)
               && s.schemaAccepts(pacs008.value)
            then plan.ending == Returns(NegotiationResult(
                   OnRail(validated, proposal.rail).(state := SETTLING), SettlingOutcome, pacs008,
                   Some(proposal), verdict))
            else plan.ending.Returns? ==> plan.ending.result.outcome == RejectedOutcome
  {
    hide Validate, OnQuotedTerms;
    var pacs008 := s.build(OnRail(validated, proposal.rail));
    if pacs008.Some? {
      ClearExactlyWhen(verdict, proposal, quotes, pacs008.value, s.schemaAccepts);
    }
  }

  /**
   SETTLING is planned exactly for a pass on an initiated transfer whose
   proposal is on the terms of the first quote for its rail, within the
   sentinel's constraints, and whose message the schema accepts.
   */
  lemma SettlesExactlyWhen(t: Transfer, quotes: seq<RailQuote>, s: Surroundings)
    ensures var ending := Plan(t, quotes, s).ending;
            && (ending.Returns? && ending.result.outcome == SettlingOutcome
                <==> exists verdict, proposal :: SettlesOn(t, quotes, s, verdict, proposal))
            && (forall verdict, proposal :: SettlesOn(t, quotes, s, verdict, proposal) ==>
                  ending.Returns? && ending.result.verdict == verdict && ending.result.proposal == Some(proposal)
                  && ending.result.transfer.rail == Some(proposal.rail))
  {
    hide Assess, Propose, PlanAfterProposal, OnQuotedTerms, ValidVerdict;
    var assessed := Assess(s.sentinel.0, s.sentinel.1).answer;
    if assessed.Some? && assessed.value.outcome == PASS && t.state == INITIATED {
      var verdict := assessed.value;
      AssessRaisesExactlyWhen(s.sentinel.0, s.sentinel.1);
      var proposed := Propose(quotes, verdict.constraints, t.quote.send.currency, s.strategist.0, s.strategist.1);
      if proposed.answer.Some? {
        var calls := Assess(s.sentinel.0, s.sentinel.1).calls + proposed.calls;
        GateOfProposal(t.(state := VALIDATED), quotes, s, verdict, proposed.answer.value, calls);
        var ending := Plan(t, quotes, s).ending;
        assert ending.Returns? && ending.result.outcome == SettlingOutcome
          <==> SettlesOn(t, quotes, s, verdict, proposed.answer.value);
      }
    }
  }

  /** What a settlement therefore rests on, in full. */
  lemma SettlingIsJustified(t: Transfer, quotes: seq<RailQuote>, s: Surroundings)
    requires Plan(t, quotes, s).ending.Returns? && Plan(t, quotes, s).ending.result.outcome == SettlingOutcome
    ensures var result := Plan(t, quotes, s).ending.result;
            && result.proposal.Some? && result.pacs008.Some?
            && var verdict, proposal := result.verdict, result.proposal.value;
               && verdict.outcome == PASS && ValidVerdict(verdict)
               && OnQuotedTerms(verdict, proposal, quotes)
               && proposal.totalCost.currency == t.quote.send.currency
               && result.transfer.rail == Some(proposal.rail)
               && s.schemaAccepts(result.pacs008.value)
  {
    hide Plan, Assess, Propose, OnQuotedTerms, ValidVerdict;
    SettlesExactlyWhen(t, quotes, s);
    var verdict, proposal :| SettlesOn(t, quotes, s, verdict, proposal);
    AssessRaisesExactlyWhen(s.sentinel.0, s.sentinel.1);
    ProposalIsAReply(quotes, verdict.constraints, t.quote.send.currency, s.strategist.0, s.strategist.1);
    SettledMessage(t, quotes, s, verdict, proposal);
  }

  lemma SettledMessage(t: Transfer, quotes: seq<RailQuote>, s: Surroundings, verdict: Verdict, proposal: Proposal)
    requires SettlesOn(t, quotes, s, verdict, proposal)
    ensures Plan(t, quotes, s).ending.Returns?
    ensures Plan(t, quotes, s).ending.result.pacs008 == s.build(OnRail(t.(state := VALIDATED), proposal.rail))
  {
    hide Assess, Propose, PlanAfterProposal, OnQuotedTerms, ValidVerdict;
    AssessRaisesExactlyWhen(s.sentinel.0, s.sentinel.1);
    var calls := Assess(s.sentinel.0, s.sentinel.1).calls
                 + Propose(quotes, verdict.constraints, t.quote.send.currency, s.strategist.0, s.strategist.1).calls;
    GateOfProposal(t.(state := VALIDATED), quotes, s, verdict, proposal, calls);
  }

  // ---------------------------------------------------------------------
  // The trail is complete
  // ---------------------------------------------------------------------

  /** Who has spoken, in order, when a run returns. */
  function ActorsFor(result: NegotiationResult): seq<string> {
    match result.outcome
    case SettlingOutcome => [SENTINEL, ORCHESTRATOR, STRATEGIST, EXIT_GATE, ORCHESTRATOR]
    case RejectedOutcome =>
      if result.proposal.Some? then [SENTINEL, ORCHESTRATOR, STRATEGIST, EXIT_GATE] else [SENTINEL, ORCHESTRATOR]
    case _ => [SENTINEL, ORCHESTRATOR]
  }

  lemma ReturnedTrailHasActors(t: Transfer, quotes: seq<RailQuote>, s: Surroundings)
    requires Plan(t, quotes, s).ending.Returns?
    ensures HasActors(t.id, PlannedTrail(t, quotes, s), ActorsFor(Plan(t, quotes, s).ending.result))
  {
    hide Assess, Propose, Validate, Transition;
  }

  /**
   Whatever outcome is returned, the trail is complete for it; and a trail that
   is complete for SETTLING is complete for DELIVERED and for FAILED.
   */
  lemma ReturnedTrailIsComplete(t: Transfer, quotes: seq<RailQuote>, s: Surroundings)
    requires Plan(t, quotes, s).ending.Returns?
    ensures var trail, outcome := PlannedTrail(t, quotes, s), Plan(t, quotes, s).ending.result.outcome;
            && IsComplete(t.id, trail, outcome)
            && (outcome == SettlingOutcome ==>
                  IsComplete(t.id, trail, DeliveredOutcome) && IsComplete(t.id, trail, FailedOutcome))
  {
    hide Plan, Actors, PlannedTrail;
    var trail, result := PlannedTrail(t, quotes, s), Plan(t, quotes, s).ending.result;
    var actors := ActorsFor(result);
    ReturnedTrailHasActors(t, quotes, s);
    assert trail[0] in trail && trail[0].transferId == t.id;
    ActorsAreThere(t.id, trail, actors, 0);
    ActorsAreThere(t.id, trail, actors, 1);
    if result.outcome == SettlingOutcome {
      ActorsAreThere(t.id, trail, actors, 2);
      ActorsAreThere(t.id, trail, actors, 3);
    }
    ResultFitsOutcome(t, quotes, s);
  }

  // ---------------------------------------------------------------------
  // The coordinator
  // ---------------------------------------------------------------------

  /** The append-only sink behind the audit logger. */
  class AuditSink {
    var held: seq<AuditRecord>

    constructor ()
      ensures held == []
    {
      held := [];
    }

    method LogRecord(record: AuditRecord, answer: SinkAnswer) returns (acknowledged: bool)
      modifies this
      ensures acknowledged == answer.Acknowledges?
      ensures held == old(held) + if answer.RaisesWithout? then [] else [record]
    {
      if !answer.RaisesWithout? {
        held := held + [record];
      }
      return answer.Acknowledges?;
    }
  }

  datatype NegotiationError = NegotiationRaised

  /** The first `n` records of the trail are in the sink, and it has refused none of them. */
  ghost predicate Recorded(
      base: seq<AuditRecord>, held: seq<AuditRecord>, trail: seq<AuditRecord>, sink: nat -> SinkAnswer, n: nat)
  {
    n <= |trail| && held == base + trail[..n] && forall i :: 0 <= i < n ==> sink(i).Acknowledges?
  }

  lemma RunReturns(
      t: Transfer, quotes: seq<RailQuote>, s: Surroundings, base: seq<AuditRecord>, held: seq<AuditRecord>)
    requires Recorded(base, held, PlannedTrail(t, quotes, s), s.sink, |PlannedTrail(t, quotes, s)|)
    ensures NegotiationRun(t, quotes, s).ending == Plan(t, quotes, s).ending
    ensures NegotiationRun(t, quotes, s).held == PlannedTrail(t, quotes, s)
    ensures held == base + PlannedTrail(t, quotes, s)
  {
    hide Plan;
    var trail := PlannedTrail(t, quotes, s);
    assert trail[..|trail|] == trail;
  }

  lemma RunIsCut(t: Transfer, quotes: seq<RailQuote>, s: Surroundings, base: seq<AuditRecord>, k: nat)
    requires k < |PlannedTrail(t, quotes, s)| && RefusesFirst(s.sink, k)
    ensures var run := NegotiationRun(t, quotes, s);
            run.held == HeldAt(PlannedTrail(t, quotes, s), s.sink, k) && run.ending == RaisesError
  {
    hide Plan;
  }

  class NegotiationCoordinator {
    const sink: AuditSink
    const sentinel: ComplianceSentinel
    const strategist: LiquidityStrategist
    var auditTrail: seq<AuditRecord>
    var exchanges: nat

    constructor (sink: AuditSink, sentinel: ComplianceSentinel, strategist: LiquidityStrategist)
      ensures this.sink == sink && this.sentinel == sentinel && this.strategist == strategist
    {
      this.sink, this.sentinel, this.strategist := sink, sentinel, strategist;
      auditTrail, exchanges := [], 0;
    }

    /** The surroundings of a run whose replies are the ones the two clients are about to give. */
    function Heard(s: Surroundings): Surroundings
      reads sentinel.client, strategist.client
    {
      s.(sentinel := sentinel.client.Upcoming(), strategist := strategist.client.Upcoming())
    }

    /**
     The record is kept locally, then logged at once; the number of the record
     is the length of the local trail.
     */
    method Record(
        ghost quotes: seq<RailQuote>, t: Transfer, s: Surroundings, ghost base: seq<AuditRecord>,
        actor: string, override: bool)
      returns (acknowledged: bool)
      requires |auditTrail| < |PlannedTrail(t, quotes, s)| && auditTrail <= PlannedTrail(t, quotes, s)
      requires var turn := Plan(t, quotes, s).turns[|auditTrail|]; turn.actor == actor && turn.override == override
      requires Recorded(base, sink.held, PlannedTrail(t, quotes, s), s.sink, |auditTrail|)
      modifies sink, this`auditTrail
      ensures auditTrail == PlannedTrail(t, quotes, s)[..old(|auditTrail|) + 1]
      ensures acknowledged ==> Recorded(base, sink.held, PlannedTrail(t, quotes, s), s.sink, |auditTrail|)
      ensures !acknowledged ==>
                NegotiationRun(t, quotes, s).ending == RaisesError
                && sink.held == base + NegotiationRun(t, quotes, s).held
    {
      hide Plan, NegotiationRun;
      var k := |auditTrail|;
      var record := RecordOf(t.id, actor, override, s.narrate(k));
      ghost var trail := PlannedTrail(t, quotes, s);
      assert trail[..k + 1] == trail[..k] + [record];
      auditTrail := auditTrail + [record];
      acknowledged := sink.LogRecord(record, s.sink(k));
      if !acknowledged {
        RunIsCut(t, quotes, s, base, k);
      }
    }

    /** The answer is the run's, and the sink holds what the run leaves behind. */
    ghost predicate Ends(
        t: Transfer, quotes: seq<RailQuote>, s: Surroundings, base: seq<AuditRecord>,
        answer: Result<NegotiationResult, NegotiationError>)
      reads this, sink
    {
      var run := NegotiationRun(t, quotes, s);
      && sink.held == base + run.held
      && match run.ending
         case Returns(result) => answer == Ok(result) && auditTrail == run.held
         case RaisesError => answer.Err?
    }

    /**
     Fails closed: a refused record ends the run at once, whatever it was about
     to do.  The models are called at most four times, and the loop over
     proposals goes round at most once, so the exchange budget is never spent.
     */
    method NegotiateAndSettle(t: Transfer, quotes: seq<RailQuote>, surroundings: Surroundings)
      returns (answer: Result<NegotiationResult, NegotiationError>)
      modifies sink, this, sentinel.client, strategist.client
      ensures Ends(t, quotes, old(Heard(surroundings)), old(sink.held), answer)
      ensures answer.Ok? ==>
                && Assess(old(Heard(surroundings)).sentinel.0, old(Heard(surroundings)).sentinel.1).answer
                   == Some(answer.value.verdict)
                && FollowsVerdict(t, quotes, old(Heard(surroundings)), answer.value)
      ensures exchanges <= 2 < MAX_NEGOTIATION_EXCHANGES
      ensures var calls := sentinel.client.made - old(sentinel.client.made)
                           + strategist.client.made - old(strategist.client.made);
              && calls <= Plan(t, quotes, old(Heard(surroundings))).calls <= 4
              && (answer.Ok? ==> calls == Plan(t, quotes, old(Heard(surroundings))).calls)
    {
      hide Assess, PlanAfterVerdict, NegotiationRun, PlannedTrail;
      ghost var base := sink.held;
      var s := Heard(surroundings);
      AtMostFourCalls(t, quotes, s);
      ReturnedFollows(t, quotes, s);
      auditTrail := [];
      exchanges := 1;
      ghost var asked := Assess(s.sentinel.0, s.sentinel.1);
      var assessed := sentinel.AssessTransfer();
      if assessed.None? {
        RunReturns(t, quotes, s, base, sink.held);
        return Err(NegotiationRaised);
      }
      CallsOnlyGrow(t, quotes, s, assessed.value, asked.calls);
      SpeaksFirst(t, quotes, s, assessed.value, asked.calls);
      var ok := Record(quotes, t, s, base, SENTINEL, false);
      if !ok {
        return Err(NegotiationRaised);
      }
      answer := ActOnVerdict(t, quotes, s, base, assessed.value, asked.calls);
    }

    /** What follows from the verdict. */
    method ActOnVerdict(
        t: Transfer, quotes: seq<RailQuote>, s: Surroundings, ghost base: seq<AuditRecord>,
        verdict: Verdict, ghost calls: nat)
      returns (answer: Result<NegotiationResult, NegotiationError>)
      requires Plan(t, quotes, s) == PlanAfterVerdict(t, quotes, s, verdict, calls)
      requires s.strategist == strategist.client.Upcoming() && exchanges == 1
      requires |auditTrail| == 1 <= |Plan(t, quotes, s).turns| && auditTrail <= PlannedTrail(t, quotes, s)
      requires Recorded(base, sink.held, PlannedTrail(t, quotes, s), s.sink, 1)
      modifies sink, this, strategist.client
      ensures Ends(t, quotes, s, base, answer)
      ensures exchanges <= 2
      ensures var called := calls + strategist.client.made - old(strategist.client.made);
              && called <= Plan(t, quotes, s).calls
              && (answer.Ok? ==> called == Plan(t, quotes, s).calls)
    {
      hide Plan, Propose, Validate, NegotiationRun, PlannedTrail;
      CallsOnlyGrow(t, quotes, s, verdict, calls);
      var ok: bool;
      if verdict.outcome == BLOCK {
        var rejected := Transition(t, REJECTED);
        if rejected.Err? {
          RunReturns(t, quotes, s, base, sink.held);
          return Err(NegotiationRaised);
        }
        ok := Record(quotes, t, s, base, ORCHESTRATOR, false);
        if !ok {
          return Err(NegotiationRaised);
        }
        RunReturns(t, quotes, s, base, sink.held);
        return Ok(NegotiationResult(rejected.value, RejectedOutcome, None, None, verdict));
      }
      if verdict.outcome == ESCALATE {
        ok := Record(quotes, t, s, base, ORCHESTRATOR, false);
        if !ok {
          return Err(NegotiationRaised);
        }
        RunReturns(t, quotes, s, base, sink.held);
        return Ok(NegotiationResult(t, PendingReview, None, None, verdict));
      }

      var moved := Transition(t, VALIDATED);
      if moved.Err? {
        RunReturns(t, quotes, s, base, sink.held);
        return Err(NegotiationRaised);
      }
      var validated := moved.value;
      ok := Record(quotes, t, s, base, ORCHESTRATOR, false);
      if !ok {
        return Err(NegotiationRaised);
      }

      answer := SettleValidated(t, quotes, s, base, verdict, validated, calls);
    }

    /** The second half: the strategist's proposal and the exit gate. */
    method SettleValidated(
        t: Transfer, quotes: seq<RailQuote>, s: Surroundings, ghost base: seq<AuditRecord>,
        verdict: Verdict, validated: Transfer, ghost calls: nat)
      returns (answer: Result<NegotiationResult, NegotiationError>)
      requires validated.state == VALIDATED && validated == t.(state := VALIDATED)
      requires Plan(t, quotes, s) == PlanAfterPass(validated, quotes, s, verdict, calls)
      requires s.strategist == strategist.client.Upcoming() && exchanges == 1
      requires |auditTrail| == 2 <= |Plan(t, quotes, s).turns| && auditTrail <= PlannedTrail(t, quotes, s)
      requires Recorded(base, sink.held, PlannedTrail(t, quotes, s), s.sink, 2)
      modifies sink, this, strategist.client
      ensures Ends(t, quotes, s, base, answer)
      ensures exchanges == 2
      ensures calls + strategist.client.made - old(strategist.client.made) == Plan(t, quotes, s).calls
    {
      hide Plan, Propose, Validate, NegotiationRun, PlannedTrail;
      ghost var asked := Propose(quotes, verdict.constraints, validated.quote.send.currency,
                                 s.strategist.0, s.strategist.1);
      var ok: bool;
      var proposal: Option<Proposal> := None;
      // The break at the end of the body is the second half of the guard.
      while exchanges < MAX_NEGOTIATION_EXCHANGES && proposal.None?
        invariant exchanges == |auditTrail| - 1 == if proposal.None? then 1 else 2
        invariant proposal.None? ==> s.strategist == strategist.client.Upcoming()
        invariant strategist.client.made - old(strategist.client.made) == if proposal.None? then 0 else asked.calls
        invariant proposal.Some? ==>
          Plan(t, quotes, s) == PlanAfterProposal(validated, quotes, s, verdict, proposal.value, calls + asked.calls)
        invariant |auditTrail| <= |Plan(t, quotes, s).turns| && auditTrail <= PlannedTrail(t, quotes, s)
        invariant Recorded(base, sink.held, PlannedTrail(t, quotes, s), s.sink, |auditTrail|)
      {
        exchanges := exchanges + 1;
        proposal := strategist.ProposeRail(quotes, verdict.constraints, validated.quote.send.currency);
        if proposal.None? {
          ok := Record(quotes, t, s, base, ORCHESTRATOR, true);
          if !ok {
            return Err(NegotiationRaised);
          }
          RunReturns(t, quotes, s, base, sink.held);
          return Ok(NegotiationResult(validated, PendingReview, None, None, verdict));
        }
        SettledCalls(validated, quotes, s, verdict, proposal.value, calls + asked.calls);
        ok := Record(quotes, t, s, base, STRATEGIST, false);
        if !ok {
          return Err(NegotiationRaised);
        }
      }

      answer := PassGate(t, quotes, s, base, verdict, validated, proposal.value, calls + asked.calls);
    }

    /** The last part: build the message, run the exit gate, move on. */
    method PassGate(
        t: Transfer, quotes: seq<RailQuote>, s: Surroundings, ghost base: seq<AuditRecord>,
        verdict: Verdict, validated: Transfer, proposal: Proposal, ghost calls: nat)
      returns (answer: Result<NegotiationResult, NegotiationError>)
      requires validated.state == VALIDATED && validated == t.(state := VALIDATED)
      requires Plan(t, quotes, s) == PlanAfterProposal(validated, quotes, s, verdict, proposal, calls)
      requires |auditTrail| == 3 <= |Plan(t, quotes, s).turns| && auditTrail <= PlannedTrail(t, quotes, s)
      requires Recorded(base, sink.held, PlannedTrail(t, quotes, s), s.sink, 3)
      modifies sink, this`auditTrail
      ensures Ends(t, quotes, s, base, answer)
    {
      hide Plan, Validate, NegotiationRun, PlannedTrail;
      var ok: bool;
      var updated := OnRail(validated, proposal.rail);
      var pacs008 := s.build(updated);
      if pacs008.None? {
        RunReturns(t, quotes, s, base, sink.held);
        return Err(NegotiationRaised);
      }
      var exit := Validate(verdict, Some(proposal), quotes, pacs008, s.schemaAccepts);
      ok := Record(quotes, t, s, base, EXIT_GATE, exit.deterministicOverride);
      if !ok {
        return Err(NegotiationRaised);
      }
      if !exit.valid {
        var rejected := Transition(updated, REJECTED);
        RunReturns(t, quotes, s, base, sink.held);
        return Ok(NegotiationResult(rejected.value, RejectedOutcome, pacs008, Some(proposal), verdict));
      }
      var settling := Transition(updated, SETTLING);
      ok := Record(quotes, t, s, base, ORCHESTRATOR, false);
      if !ok {
        return Err(NegotiationRaised);
      }
      RunReturns(t, quotes, s, base, sink.held);
      return Ok(NegotiationResult(settling.value, SettlingOutcome, pacs008, Some(proposal), verdict));
    }
  }

  lemma ReturnedFollows(t: Transfer, quotes: seq<RailQuote>, s: Surroundings)
    ensures var run := NegotiationRun(t, quotes, s);
            run.ending.Returns? ==>
              Assess(s.sentinel.0, s.sentinel.1).answer == Some(run.ending.result.verdict)
              && FollowsVerdict(t, quotes, s, run.ending.result)
  {
    hide Plan, Assess, FollowsVerdict;
    if Plan(t, quotes, s).ending.Returns? {
      ReturnsExactlyWhen(t, quotes, s, Plan(t, quotes, s).ending.result);
    }
  }

  lemma SettledCalls(
      validated: Transfer, quotes: seq<RailQuote>, s: Surroundings, verdict: Verdict, proposal: Proposal, calls: nat)
    ensures PlanAfterProposal(validated, quotes, s, verdict, proposal, calls).calls == calls
  {
    hide Validate;
  }

  lemma SpeaksFirst(t: Transfer, quotes: seq<RailQuote>, s: Surroundings, verdict: Verdict, calls: nat)
    ensures var turns := PlanAfterVerdict(t, quotes, s, verdict, calls).turns;
            turns != [] && turns[0] == Turn(SENTINEL, false, 1)
  {
    hide Validate, Propose;
  }

  /** After the verdict a run can only add calls. */
  lemma CallsOnlyGrow(t: Transfer, quotes: seq<RailQuote>, s: Surroundings, verdict: Verdict, calls: nat)
    ensures PlanAfterVerdict(t, quotes, s, verdict, calls).calls >= calls
  {
    hide Validate, Propose;
  }
}
