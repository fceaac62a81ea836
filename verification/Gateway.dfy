/**
 The gateway's sequencing of one transfer: entry gate, negotiation, rail router
 (services/gateway/src/ubunturemit_gateway/routes/transfers.py:114-233).
 */
module Gateway {
  import opened Wrappers
  import opened DomainMoney
  import opened AuditStore
  import opened AuditVerifier
  import opened Lifecycle
  import opened Agents
  import opened Negotiation
  import opened RailRouting
  import EntryGate
  import MessageValidation

  /**
   Everything a request meets on its way; the first flag says whether building
   its pain.001 raises, the one before the quotes whether collecting them does.
   */
  datatype Call = Call(
    buildRaises: bool,
    schemaAccepts: bool,
    restParses: bool,
    screening: EntryGate.Screening,
    profile: EntryGate.SenderProfile,
    quotesRaise: bool,
    quotes: seq<RailQuote>,
    negotiation: Surroundings,
    adapters: set<SettlementRail>,
    replies: nat -> AdapterReply)

  /** What the response calls the outcome. */
  datatype ResponseOutcome = EntryRejected | EntryEscalated | Negotiated(outcome: Outcome) | RailDelivered | RailsFailed

  /** The rules a response cites: those of the entry gate, or those of the sentinel's verdict. */
  datatype Citation = EntryRules(entry: seq<EntryGate.Rule>) | VerdictRules(verdict: seq<string>)

  datatype TransferResponse = TransferResponse(
    transferId: string,
    reference: string,
    status: TransferState,
    outcome: ResponseOutcome,
    selectedRail: Option<SettlementRail>,
    feeMinorUnits: int,
    settlementSeconds: Option<real>,
    cited: Citation)

  /**
   One handled request: the response (none if an exception became an error),
   the states the transfer went through, the rails submitted to, what the audit
   sink was left with, and the retry counts.
   */
  datatype Handled = Handled(
    response: Option<TransferResponse>,
    states: seq<TransferState>,
    submitted: seq<SettlementRail>,
    held: seq<AuditRecord>,
    counts: map<string, nat>)

  function Respond(t: Transfer, status: TransferState, outcome: ResponseOutcome, cited: Citation): TransferResponse {
    TransferResponse(t.id, t.reference, status, outcome, None, t.quote.fee.minorUnits, None, cited)
  }

  function EntryResultOf(t: Transfer, c: Call): EntryGate.EntryResult {
    EntryGate.Evaluate(MessageValidation.Message(EntryGate.BuildPain001(t, c.schemaAccepts)), c.restParses,
                       c.screening, c.profile)
  }

  /** The request gets as far as the negotiation. */
  predicate Negotiates(t: Transfer, c: Call) {
    !c.buildRaises && EntryResultOf(t, c).outcome == EntryGate.Passes && !c.quotesRaise
  }

  /** The response takes a list of rules and refuses anything else, also what passed for a list until then. */
  function Cite(cited: Cited<string>): Option<Citation> {
    if cited.AsList? then Some(VerdictRules(cited.items)) else None
  }

  function Handle(t: Transfer, c: Call, counts: map<string, nat>): Handled {
    var entry := EntryResultOf(t, c);
    if c.buildRaises then Handled(None, [t.state], [], [], counts)
    else
    match entry.outcome
    case Refuses => (
      match Transition(t, REJECTED)
      case Err(_) => Handled(None, [t.state], [], [], counts)
      case Ok(rejected) =>
        Handled(Some(Respond(t, REJECTED, EntryRejected, EntryRules(entry.citedRules))), [t.state, REJECTED], [], [],
                counts)
    )
    case Escalates =>
      Handled(Some(Respond(t, t.state, EntryEscalated, EntryRules(entry.citedRules))), [t.state], [], [], counts)
    case Passes =>
      if c.quotesRaise then Handled(None, [t.state], [], [], counts)
      else
        var run := NegotiationRun(t, c.quotes, c.negotiation);
        match run.ending
        case RaisesError => Handled(None, run.states, [], run.held, counts)
        case Returns(result) => HandleNegotiated(t, c, counts, run, result)
  }

  /** The response to a negotiation that does not settle. */
  function AfterNegotiation(t: Transfer, result: NegotiationResult): Option<TransferResponse> {
    match Cite(result.verdict.citedRules)
    case None => None
    case Some(cited) => Some(Respond(t, result.transfer.state, Negotiated(result.outcome), cited))
  }

  /**
   The response to what the router answers: an exhausted router is an outcome,
   any other exception is not.  Without a list of rules there is no response,
   whatever the rails have done by then.
   */
  function AfterRouting(t: Transfer, rules: Cited<string>, answer: Result<Settlement, RouterError>):
      Option<TransferResponse>
  {
    match (answer, Cite(rules))
    case (Ok(settled), Some(cited)) =>
      Some(TransferResponse(t.id, t.reference, settled.transfer.state, RailDelivered, settled.transfer.rail,
                            settled.result.fee.minorUnits, settled.transfer.settlementSeconds, cited))
    case (Err(SettlementExhaustion), Some(cited)) => Some(Respond(t, FAILED, RailsFailed, cited))
    case _ => None
  }

  function HandleNegotiated(
      t: Transfer, c: Call, counts: map<string, nat>, run: SinkRun, result: NegotiationResult): Handled
  {
    if result.outcome != SettlingOutcome || result.proposal.None? then
      Handled(AfterNegotiation(t, result), run.states, [], run.held, counts)
    else
      var routed := Route(result.transfer, counts, c.adapters, result.proposal.value.rail, c.replies);
      Handled(AfterRouting(t, result.verdict.citedRules, routed.answer), run.states + routed.states, routed.tried,
              run.held, routed.counts)
  }

  /** Every answer cites a rule. */
  lemma EveryAnswerCites(t: Transfer, c: Call, counts: map<string, nat>)
    ensures var response := Handle(t, c, counts).response;
            response.Some? ==>
              match response.value.cited
              case EntryRules(rules) => rules != []
              case VerdictRules(rules) => rules != []
  {
    hide NegotiationRun, Route, EntryGate.Evaluate, Plan;
    EntryGate.RefusalsCite(MessageValidation.Message(EntryGate.BuildPain001(t, c.schemaAccepts)), c.restParses,
                           c.screening, c.profile);
    if NegotiationRun(t, c.quotes, c.negotiation).ending.Returns? {
      ReturnedIsPlanned(t, c);
      ReturnedVerdictIsValid(t, c.quotes, c.negotiation);
    }
  }

  /**
   What every answer says: whose transfer it is, where the request ended, which
   rules were cited; and without a delivery no rail, no time, and the fee that
   was quoted.
   */
  lemma EveryAnswerSays(t: Transfer, c: Call, counts: map<string, nat>)
    requires Handle(t, c, counts).response.Some?
    ensures var r, entry, ending := Handle(t, c, counts).response.value, EntryResultOf(t, c),
                                    NegotiationRun(t, c.quotes, c.negotiation).ending;
            && r.transferId == t.id && r.reference == t.reference
            && (r.outcome != RailDelivered ==>
                  r.selectedRail == None && r.settlementSeconds == None && r.feeMinorUnits == t.quote.fee.minorUnits)
            && (r.outcome == EntryRejected <==> entry.outcome == EntryGate.Refuses)
            && (r.outcome == EntryEscalated <==> entry.outcome == EntryGate.Escalates)
            && (r.outcome == EntryRejected ==> r.status == REJECTED && r.cited == EntryRules(entry.citedRules))
            && (r.outcome == EntryEscalated ==> r.status == t.state && r.cited == EntryRules(entry.citedRules))
            && (entry.outcome == EntryGate.Passes ==>
                  && ending.Returns?
                  && ending.result.verdict.citedRules.AsList?
                  && r.cited == VerdictRules(ending.result.verdict.citedRules.items)
                  && var result := ending.result;
                     if result.outcome != SettlingOutcome || result.proposal.None?
                     then r.outcome == Negotiated(result.outcome) && r.status == result.transfer.state
                     else
                       var answer := Routing(c, counts, result).answer;
                       if answer.Ok? then r.outcome == RailDelivered && r.status == answer.value.transfer.state
                       else answer == Err(SettlementExhaustion) && r.outcome == RailsFailed && r.status == FAILED)
  {
    hide NegotiationRun, Route, EntryResultOf;
  }

  // ---------------------------------------------------------------------
  // The life of the transfer
  // ---------------------------------------------------------------------

  /** The request reaches the router: the gate passed and the negotiation settled. */
  predicate ReachesRouter(t: Transfer, c: Call, result: NegotiationResult) {
    && Negotiates(t, c)
    && NegotiationRun(t, c.quotes, c.negotiation).ending == Returns(result)
    && result.outcome == SettlingOutcome && result.proposal.Some?
  }

  /** The router's part of such a request. */
  function Routing(c: Call, counts: map<string, nat>, result: NegotiationResult): Routed
    requires result.proposal.Some?
  {
    Route(result.transfer, counts, c.adapters, result.proposal.value.rail, c.replies)
  }

  lemma HandledByRouter(t: Transfer, c: Call, counts: map<string, nat>, result: NegotiationResult)
    requires ReachesRouter(t, c, result)
    ensures var handled, routed := Handle(t, c, counts), Routing(c, counts, result);
            var run := NegotiationRun(t, c.quotes, c.negotiation);
            && handled.submitted == routed.tried && handled.counts == routed.counts
            && handled.states == run.states + routed.states && handled.held == run.held
            && (handled.response.Some? <==>
                  result.verdict.citedRules.AsList?
                  && (routed.answer.Ok? || routed.answer == Err(SettlementExhaustion)))
            && (handled.response.Some? && routed.answer.Ok? ==>
                  handled.response.value.outcome == RailDelivered
                  && handled.response.value.status == routed.answer.value.transfer.state
                  && handled.response.value.selectedRail == routed.answer.value.transfer.rail)
            && (handled.response.Some? && routed.answer.Err? ==>
                  handled.response.value.outcome == RailsFailed && handled.response.value.status == FAILED)
            && (handled.response.Some? ==> handled.response.value.transferId == t.id)
  {
    hide NegotiationRun, Route, EntryResultOf;
  }

  /** The router is reached whenever a rail is submitted to. */
  lemma SubmissionReachesRouter(t: Transfer, c: Call, counts: map<string, nat>)
    requires Handle(t, c, counts).submitted != []
    ensures NegotiationRun(t, c.quotes, c.negotiation).ending.Returns?
    ensures ReachesRouter(t, c, NegotiationRun(t, c.quotes, c.negotiation).ending.result)
  {
    hide NegotiationRun, Route, EntryResultOf;
  }

  /** What is known of every request that does not reach the router. */
  lemma HandledBeforeRouter(t: Transfer, c: Call, counts: map<string, nat>)
    requires forall result :: !ReachesRouter(t, c, result)
    requires t.state == INITIATED
    ensures var handled := Handle(t, c, counts);
            && handled.submitted == [] && handled.counts == counts
            && IsNegotiatedPath(handled.states) && IsLife(handled.states)
            && (handled.response.Some? ==>
                  && handled.states[|handled.states| - 1] == handled.response.value.status
                  && handled.response.value.transferId == t.id
                  && handled.response.value.outcome != RailDelivered
                  && handled.response.value.outcome != RailsFailed)
  {
    hide NegotiationRun, Route, EntryResultOf;
    NegotiationFollowsTheDiagram(t, c.quotes, c.negotiation);
    var run := NegotiationRun(t, c.quotes, c.negotiation);
    if Negotiates(t, c) && run.ending.Returns? {
      assert !ReachesRouter(t, c, run.ending.result);
    }
  }

  /** A settlement as the states it goes through: `n` attempts, the last one as `final`. */
  predicate IsSettlement(states: seq<TransferState>, n: nat, final: TransferState) {
    1 <= n <= 3 && states == [INITIATED, VALIDATED, SETTLING] + Retries(n - 1) + [final]
  }

  /** A settlement that an exception interrupts after `n` submissions. */
  predicate IsInterrupted(states: seq<TransferState>, n: nat) {
    1 <= n <= 3 && states == [INITIATED, VALIDATED, SETTLING] + Retries(n - 1)
  }

  lemma SettlementIsALife(states: seq<TransferState>, n: nat, final: TransferState)
    requires IsSettlement(states, n, final) && (final == DELIVERED || final == FAILED)
    ensures IsLife(states)
  {
    RetriesAre();
    if n == 1 {
      assert states == [INITIATED, VALIDATED, SETTLING, final];
    } else if n == 2 {
      assert states == [INITIATED, VALIDATED, SETTLING, FAILED, SETTLING, final];
    } else {
      assert states == [INITIATED, VALIDATED, SETTLING, FAILED, SETTLING, FAILED, SETTLING, final];
    }
  }

  lemma RetriesAre()
    ensures Retries(0) == [] && Retries(1) == [FAILED, SETTLING] && Retries(2) == [FAILED, SETTLING, FAILED, SETTLING]
  {
    assert [FAILED, SETTLING] + [] == [FAILED, SETTLING];
    assert Retries(1) == [FAILED, SETTLING] + Retries(0) && Retries(2) == [FAILED, SETTLING] + Retries(1);
  }

  lemma InterruptedIsALife(states: seq<TransferState>, n: nat)
    requires IsInterrupted(states, n)
    ensures IsLife(states)
  {
    RetriesAre();
    if n == 1 {
      assert states == [INITIATED, VALIDATED, SETTLING];
    } else if n == 2 {
      assert states == [INITIATED, VALIDATED, SETTLING, FAILED, SETTLING];
    } else {
      assert states == [INITIATED, VALIDATED, SETTLING, FAILED, SETTLING, FAILED, SETTLING];
    }
  }

  /** The router's part of the path, by its ending. */
  predicate IsRoutedPath(routed: Routed) {
    var n := |routed.tried|;
    match routed.answer
    case Ok(settled) =>
      1 <= n <= 3 && routed.states == Retries(n - 1) + [DELIVERED] && settled.transfer.state == DELIVERED
    case Err(SettlementExhaustion) => 1 <= n <= 3 && routed.states == Retries(n - 1) + [FAILED]
    case Err(RouterRaised) => 1 <= n <= 3 && routed.states == Retries(n - 1)
    case Err(NoAdapter) => n == 0 && routed.states == []
  }

  lemma RoutedStates(
      t: Transfer, counts: map<string, nat>, adapters: set<SettlementRail>, preferred: SettlementRail,
      replies: nat -> AdapterReply)
    requires t.state == SETTLING && WithinBudget(counts)
    ensures IsRoutedPath(Route(t, counts, adapters, preferred, replies))
  {
    hide RouteFrom, Candidates;
    if preferred in adapters {
      CandidatesAre(preferred, t.quote.corridor.papssEligible, adapters);
      RouteIsRegular(t, counts, Candidates(preferred, t.quote.corridor.papssEligible, adapters), 0, replies);
    }
  }

  /** How a request ends, by its path: in an answer, or in an exception after this many submissions. */
  predicate EndsOnPath(states: seq<TransferState>, submitted: nat, answer: Result<Settlement, RouterError>) {
    match answer
    case Ok(_) => submitted >= 1 && IsSettlement(states, submitted, DELIVERED) && states[|states| - 1] == DELIVERED
    case Err(SettlementExhaustion) =>
      submitted >= 1 && IsSettlement(states, submitted, FAILED) && states[|states| - 1] == FAILED
    case Err(RouterRaised) => submitted >= 1 && IsInterrupted(states, submitted)
    case Err(NoAdapter) => submitted == 0 && states == [INITIATED, VALIDATED, SETTLING]
  }

  lemma SettlementStates(states: seq<TransferState>, routed: Routed)
    requires IsRoutedPath(routed) && states == [INITIATED, VALIDATED, SETTLING] + routed.states
    ensures EndsOnPath(states, |routed.tried|, routed.answer) && IsLife(states)
  {
    var head, n := [INITIATED, VALIDATED, SETTLING], |routed.tried|;
    match routed.answer
    case Ok(_) =>
      assert head + (Retries(n - 1) + [DELIVERED]) == head + Retries(n - 1) + [DELIVERED];
      SettlementIsALife(states, n, DELIVERED);
    case Err(SettlementExhaustion) =>
      assert head + (Retries(n - 1) + [FAILED]) == head + Retries(n - 1) + [FAILED];
      SettlementIsALife(states, n, FAILED);
    case Err(RouterRaised) => InterruptedIsALife(states, n);
    case Err(NoAdapter) =>
      assert states == [INITIATED, VALIDATED, SETTLING];
  }

  lemma RoutedRequestFollowsTheDiagram(t: Transfer, c: Call, counts: map<string, nat>, result: NegotiationResult)
    requires t.state == INITIATED && WithinBudget(counts) && ReachesRouter(t, c, result)
    ensures var handled := Handle(t, c, counts);
            EndsOnPath(handled.states, |handled.submitted|, Routing(c, counts, result).answer)
            && IsLife(handled.states) && result.transfer.state == SETTLING
            && (Routing(c, counts, result).answer.Ok? ==>
                  Routing(c, counts, result).answer.value.transfer.state == DELIVERED)
  {
    hide Handle, NegotiationRun, Plan, Route, EntryResultOf, EndsOnPath, IsLife;
    HandledByRouter(t, c, counts, result);
    NegotiationFollowsTheDiagram(t, c.quotes, c.negotiation);
    RoutedStates(result.transfer, counts, c.adapters, result.proposal.value.rail, c.replies);
    SettlementStates(Handle(t, c, counts).states, Routing(c, counts, result));
  }

  /**
   Every request takes its transfer along the diagram, whether it is answered
   or something raises, from the builder of the first message to the making of
   the response: INITIATED, VALIDATED, SETTLING, at most two retries, and
   DELIVERED or FAILED; or it leaves early; or it is interrupted, after `n`
   submissions with `n - 1` retries behind it.  An answer reports the last state.
   */
  lemma EveryRequestFollowsTheDiagram(t: Transfer, c: Call, counts: map<string, nat>)
    requires t.state == INITIATED && WithinBudget(counts)
    ensures var handled := Handle(t, c, counts);
            var states, n := handled.states, |handled.submitted|;
            && IsLife(states)
            && match handled.response
               case Some(response) =>
                 && response.transferId == t.id && states[|states| - 1] == response.status
                 && (match response.outcome
                     case RailDelivered => IsSettlement(states, n, DELIVERED)
                     case RailsFailed => IsSettlement(states, n, FAILED)
                     case _ => n == 0 && IsNegotiatedPath(states))
               case None =>
                 if n == 0 then IsNegotiatedPath(states)
                 else IsInterrupted(states, n) || IsSettlement(states, n, DELIVERED) || IsSettlement(states, n, FAILED)
  {
    hide Handle, NegotiationRun, Plan, Route, EntryResultOf, IsLife, IsSettlement, IsInterrupted, ReachesRouter;
    if result :| ReachesRouter(t, c, result) {
      RouterNeedsProposal(t, c, result);
      HandledByRouter(t, c, counts, result);
      RoutedRequestFollowsTheDiagram(t, c, counts, result);
    } else {
      HandledBeforeRouter(t, c, counts);
    }
  }

  lemma RouterNeedsProposal(t: Transfer, c: Call, result: NegotiationResult)
    requires ReachesRouter(t, c, result)
    ensures result.proposal.Some?
  {
  }

  /**
   A rail was submitted to and no answer is remembered exactly when the router
   is reached and the adapter of a rail it comes to raises, or when the verdict
   cites its rules in something other than a list.
   */
  lemma SubmittedUnansweredExactlyWhen(t: Transfer, c: Call, counts: map<string, nat>, result: NegotiationResult)
    requires t.state == INITIATED && WithinBudget(counts) && ReachesRouter(t, c, result)
    ensures result.transfer.state == SETTLING
    ensures var handled, rail := Handle(t, c, counts), result.proposal.value.rail;
            handled.submitted != [] && handled.response.None?
            <==> rail in c.adapters
                 && (!result.verdict.citedRules.AsList?
                     || exists k :: RaisesAt(result.transfer, counts, c.adapters, rail, c.replies, k))
  {
    hide Handle, NegotiationRun, Plan, EntryResultOf, EndsOnPath, RaisesAt, Route, ReachesRouter;
    RouterNeedsProposal(t, c, result);
    HandledByRouter(t, c, counts, result);
    RoutedRequestFollowsTheDiagram(t, c, counts, result);
    RoutedAnswer(result.transfer, counts, c.adapters, result.proposal.value.rail, c.replies);
    if result.proposal.value.rail in c.adapters {
      RouterRaisesExactlyWhen(result.transfer, counts, c.adapters, result.proposal.value.rail, c.replies);
      var answer := Routing(c, counts, result).answer;
      assert answer.Err? ==> answer == Err(answer.error) && !answer.error.NoAdapter?;
    }
  }

  /** The router is not stopped: the approved rail has an adapter, and none that is reached raises. */
  ghost predicate RoutesThrough(c: Call, counts: map<string, nat>, result: NegotiationResult)
    requires WithinBudget(counts) && result.proposal.Some?
  {
    var rail := result.proposal.value.rail;
    rail in c.adapters && forall k :: !RaisesAt(result.transfer, counts, c.adapters, rail, c.replies, k)
  }

  /**
   A request is answered exactly when its message could be built and either the
   gate turns it away, or the quotes came in, the negotiation returned a verdict
   that lists its rules, and the router, if it is reached, is not stopped.
   */
  lemma AnsweredExactlyWhen(t: Transfer, c: Call, counts: map<string, nat>)
    requires t.state == INITIATED && WithinBudget(counts)
    ensures var ending := NegotiationRun(t, c.quotes, c.negotiation).ending;
            Handle(t, c, counts).response.Some?
            <==> !c.buildRaises
                 && (EntryResultOf(t, c).outcome == EntryGate.Passes ==>
                       && !c.quotesRaise && ending.Returns? && ending.result.verdict.citedRules.AsList?
                       && (ReachesRouter(t, c, ending.result) ==> RoutesThrough(c, counts, ending.result)))
  {
    hide NegotiationRun, Plan, Route, EntryResultOf, RaisesAt, IsSettlement, IsInterrupted, IsLife;
    if Negotiates(t, c) && NegotiationRun(t, c.quotes, c.negotiation).ending.Returns? {
      var result := NegotiationRun(t, c.quotes, c.negotiation).ending.result;
      if ReachesRouter(t, c, result) {
        HandledByRouter(t, c, counts, result);
        RoutedRequestFollowsTheDiagram(t, c, counts, result);
        RoutedAnswer(result.transfer, counts, c.adapters, result.proposal.value.rail, c.replies);
        if result.proposal.value.rail in c.adapters {
          RouterRaisesExactlyWhen(result.transfer, counts, c.adapters, result.proposal.value.rail, c.replies);
        }
      }
    }
  }

  /** The recipient has been paid, and no answer is remembered. */
  predicate PaidUnanswered(handled: Handled) {
    handled.states != [] && handled.states[|handled.states| - 1] == DELIVERED && handled.response.None?
  }

  /** This happens exactly when a rail the router comes to delivers and the rules are not a list. */
  lemma PaidUnansweredExactlyWhen(t: Transfer, c: Call, counts: map<string, nat>, result: NegotiationResult)
    requires t.state == INITIATED && WithinBudget(counts) && ReachesRouter(t, c, result)
    requires result.proposal.value.rail in c.adapters
    ensures result.transfer.state == SETTLING
    ensures PaidUnanswered(Handle(t, c, counts))
       <==> !result.verdict.citedRules.AsList?
            && exists k :: DeliversAt(result.transfer, counts, c.adapters, result.proposal.value.rail, c.replies, k)
  {
    hide Handle, NegotiationRun, Plan, EntryResultOf, IsSettlement, DeliversAt, Route, ReachesRouter;
    RouterNeedsProposal(t, c, result);
    HandledByRouter(t, c, counts, result);
    RoutedRequestFollowsTheDiagram(t, c, counts, result);
    RouterDeliversExactlyWhen(result.transfer, counts, c.adapters, result.proposal.value.rail, c.replies);
    if Routing(c, counts, result).answer == Err(RouterRaised) {
      InterruptedUndelivered(Handle(t, c, counts).states, |Handle(t, c, counts).submitted|);
    }
  }

  lemma InterruptedUndelivered(states: seq<TransferState>, n: nat)
    requires IsInterrupted(states, n)
    ensures states[|states| - 1] == SETTLING
  {
    RetriesAre();
  }

  lemma RoutedAnswer(
      t: Transfer, counts: map<string, nat>, adapters: set<SettlementRail>, preferred: SettlementRail,
      replies: nat -> AdapterReply)
    requires t.state == SETTLING && WithinBudget(counts)
    ensures var routed := Route(t, counts, adapters, preferred, replies);
            && (preferred in adapters <==> routed.tried != [])
            && (preferred in adapters <==> routed.answer != Err(NoAdapter))
  {
    hide RouteFrom, Candidates;
    if preferred in adapters {
      CandidatesAre(preferred, t.quote.corridor.papssEligible, adapters);
      RouteIsRegular(t, counts, Candidates(preferred, t.quote.corridor.papssEligible, adapters), 0, replies);
    }
  }

  lemma ReturnedIsPlanned(t: Transfer, c: Call)
    requires NegotiationRun(t, c.quotes, c.negotiation).ending.Returns?
    ensures NegotiationRun(t, c.quotes, c.negotiation).ending == Plan(t, c.quotes, c.negotiation).ending
    ensures NegotiationRun(t, c.quotes, c.negotiation).held == PlannedTrail(t, c.quotes, c.negotiation)
  {
    hide Plan;
  }

  lemma HandleKeepsBudget(t: Transfer, c: Call, counts: map<string, nat>)
    requires t.state == INITIATED && WithinBudget(counts)
    ensures WithinBudget(Handle(t, c, counts).counts)
    ensures forall id :: id != t.id ==> RetryCount(Handle(t, c, counts).counts, id) == RetryCount(counts, id)
  {
    hide Handle, NegotiationRun, Plan, Route, EntryResultOf, ReachesRouter;
    if result :| ReachesRouter(t, c, result) {
      RouterNeedsProposal(t, c, result);
      HandledByRouter(t, c, counts, result);
      RoutedRequestFollowsTheDiagram(t, c, counts, result);
      IdentityKept(t, c, result);
      RouterKeepsBudget(result.transfer, counts, c.adapters, result.proposal.value.rail, c.replies);
    } else {
      HandledBeforeRouter(t, c, counts);
    }
  }

  lemma IdentityKept(t: Transfer, c: Call, result: NegotiationResult)
    requires ReachesRouter(t, c, result)
    ensures SameIdentity(result.transfer, t)
  {
    hide NegotiationRun, Plan, EntryResultOf;
    ReturnedIsPlanned(t, c);
    ResultFitsOutcome(t, c.quotes, c.negotiation);
  }

  /**
   The transfer a rail delivers is the one requested: identity, parties, quote
   and declaration are unchanged, whatever the agents said and however many
   rails failed before; it carries the rail that delivered, and its answer
   reports that rail, its fee and its time.
   */
  lemma DeliveredIsWhatWasRequested(t: Transfer, c: Call, counts: map<string, nat>, result: NegotiationResult)
    requires t.state == INITIATED && WithinBudget(counts) && ReachesRouter(t, c, result)
    ensures var handled, routed := Handle(t, c, counts), Routing(c, counts, result);
            routed.answer.Ok? ==>
              var settled, n := routed.answer.value, |routed.tried|;
              && n > 0 && |routed.attempts| == n && settled.result == routed.attempts[n - 1]
              && settled.result.status == Delivered
              && settled.transfer == t.(state := DELIVERED, rail := Some(routed.tried[n - 1]),
                                        settlementSeconds := Some(settled.result.settlementSeconds))
              && (handled.response.Some? ==>
                    && handled.response.value.reference == t.reference
                    && handled.response.value.selectedRail == Some(routed.tried[n - 1])
                    && handled.response.value.feeMinorUnits == settled.result.fee.minorUnits
                    && handled.response.value.settlementSeconds == Some(settled.result.settlementSeconds))
  {
    hide NegotiationRun, Plan, Route, EntryResultOf, IsLife, ReachesRouter, RetryCount;
    RouterNeedsProposal(t, c, result);
    IdentityKept(t, c, result);
    RoutedRequestFollowsTheDiagram(t, c, counts, result);
    DeliveredByRouter(result.transfer, counts, c.adapters, result.proposal.value.rail, c.replies);
    AnswerOfDelivery(t, c, counts, result);
  }

  lemma DeliveredByRouter(
      t: Transfer, counts: map<string, nat>, adapters: set<SettlementRail>, preferred: SettlementRail,
      replies: nat -> AdapterReply)
    requires t.state == SETTLING && WithinBudget(counts)
    ensures var routed := Route(t, counts, adapters, preferred, replies);
            routed.answer.Ok? ==>
              var settled, n := routed.answer.value, |routed.tried|;
              && n > 0 && |routed.attempts| == n && SameIdentity(settled.transfer, t)
              && settled.result == routed.attempts[n - 1] && settled.result.status == Delivered
              && settled.transfer.rail == Some(routed.tried[n - 1])
              && settled.transfer.settlementSeconds == Some(settled.result.settlementSeconds)
  {
    hide RouteFrom, Candidates;
    if preferred in adapters {
      CandidatesAre(preferred, t.quote.corridor.papssEligible, adapters);
      RouteIsRegular(t, counts, Candidates(preferred, t.quote.corridor.papssEligible, adapters), 0, replies);
    }
  }

  lemma AnswerOfDelivery(t: Transfer, c: Call, counts: map<string, nat>, result: NegotiationResult)
    requires ReachesRouter(t, c, result)
    ensures var response, answer := Handle(t, c, counts).response, Routing(c, counts, result).answer;
            response.Some? && answer.Ok? ==>
              && response.value.reference == t.reference
              && response.value.selectedRail == answer.value.transfer.rail
              && response.value.feeMinorUnits == answer.value.result.fee.minorUnits
              && response.value.settlementSeconds == answer.value.transfer.settlementSeconds
  {
    hide NegotiationRun, Route, EntryResultOf;
  }

  /** A transfer just initiated, and what its request meets. */
  datatype Request = Request(transfer: Transfer, call: Call)

  /** The counts of the shared orchestrator after the first `n` requests. */
  function CountsAfter(requests: seq<Request>, n: nat): map<string, nat>
    requires n <= |requests|
  {
    if n == 0 then map[]
    else Handle(requests[n - 1].transfer, requests[n - 1].call, CountsAfter(requests, n - 1)).counts
  }

  /** Over any sequence of requests, transfers with the same identifier included, no retry count ever exceeds two. */
  lemma {:induction false} CountsStayWithinBudget(requests: seq<Request>, n: nat)
    requires n <= |requests| && forall i :: 0 <= i < |requests| ==> requests[i].transfer.state == INITIATED
    ensures WithinBudget(CountsAfter(requests, n))
  {
    hide Handle;
    if n > 0 {
      CountsStayWithinBudget(requests, n - 1);
      HandleKeepsBudget(requests[n - 1].transfer, requests[n - 1].call, CountsAfter(requests, n - 1));
    }
  }

  // ---------------------------------------------------------------------
  // No submission without an audited, justified settlement
  // ---------------------------------------------------------------------

  /**
   No rail adapter is called unless the entry gate passed, the sink has
   acknowledged every record of the negotiation, and the settlement rests on a
   cited pass whose rail and terms were quoted and allowed; that rail is the
   first one called.
   */
  lemma NoSubmissionUnaudited(t: Transfer, c: Call, counts: map<string, nat>)
    ensures Handle(t, c, counts).submitted != [] ==>
              && Negotiates(t, c)
              && IsAudited(t, c, Handle(t, c, counts).held)
              && exists verdict, proposal ::
                   SettlesOn(t, c.quotes, c.negotiation, verdict, proposal)
                   && proposal.rail == Handle(t, c, counts).submitted[0]
  {
    hide Handle, Plan, PlannedTrail, Route, EntryResultOf, SettlesOn, IsComplete;
    if Handle(t, c, counts).submitted != [] {
      SubmissionReachesRouter(t, c, counts);
      HandledByRouter(t, c, counts, NegotiationRun(t, c.quotes, c.negotiation).ending.result);
      ReturnsOnlyAcknowledged(t, c.quotes, c.negotiation);
      ReturnedIsPlanned(t, c);
      ReturnedTrailIsComplete(t, c.quotes, c.negotiation);
      var result := NegotiationRun(t, c.quotes, c.negotiation).ending.result;
      SettlesExactlyWhen(t, c.quotes, c.negotiation);
      var verdict, proposal :| SettlesOn(t, c.quotes, c.negotiation, verdict, proposal);
      FirstTried(result.transfer, counts, c.adapters, result.proposal.value.rail, c.replies);
    }
  }

  /** The sink has acknowledged every record of the negotiation, holds them in order, and they are complete. */
  predicate IsAudited(t: Transfer, c: Call, held: seq<AuditRecord>) {
    var trail := PlannedTrail(t, c.quotes, c.negotiation);
    && held == trail
    && (forall i :: 0 <= i < |trail| ==> c.negotiation.sink(i).Acknowledges?)
    && IsComplete(t.id, trail, SettlingOutcome)
  }

  lemma FirstTried(
      t: Transfer, counts: map<string, nat>, adapters: set<SettlementRail>, preferred: SettlementRail,
      replies: nat -> AdapterReply)
    requires Route(t, counts, adapters, preferred, replies).tried != []
    ensures Route(t, counts, adapters, preferred, replies).tried[0] == preferred
  {
    hide Candidates, RouteFrom;
    var candidates := Candidates(preferred, t.quote.corridor.papssEligible, adapters);
    CandidatesAre(preferred, t.quote.corridor.papssEligible, adapters);
    FirstTriedIsFirstCandidate(t, counts, candidates, 0, replies);
  }

  /**
   The rail the sentinel forbade can still carry the payment: after a failure
   the router falls back without looking at the verdict.  Whatever the adapters
   do, a settlement keeps off the forbidden rails exactly when none of the
   rails it could fall back to is forbidden.
   */
  lemma SettlementAvoidsForbiddenExactlyWhen(
      t: Transfer, c: Call, counts: map<string, nat>, result: NegotiationResult)
    requires t.state == INITIATED && WithinBudget(counts) && ReachesRouter(t, c, result)
    requires result.proposal.value.rail in c.adapters
    ensures var forbidden := result.verdict.constraints.forbiddenRails;
            (forall replies :: Avoids(Handle(t, c.(replies := replies), counts).submitted, forbidden))
            <==> Avoids(Reachable(result.transfer, counts, c.adapters, result.proposal.value.rail), forbidden)
  {
    hide Handle, NegotiationRun, Plan, Route, EntryGate.Evaluate, Reachable, Avoids;
    RoutedRequestFollowsTheDiagram(t, c, counts, result);
    var forbidden, rail := result.verdict.constraints.forbiddenRails, result.proposal.value.rail;
    AvoidsForbiddenExactlyWhen(result.transfer, counts, c.adapters, rail, forbidden);
    forall replies: nat -> AdapterReply
      ensures Handle(t, c.(replies := replies), counts).submitted
           == Route(result.transfer, counts, c.adapters, rail, replies).tried
    {
      HandledByRouter(t, c.(replies := replies), counts, result);
    }
  }

  // ---------------------------------------------------------------------
  // Which answers leave a complete trail
  // ---------------------------------------------------------------------

  /** The outcome the completeness check is asked about; it has no name for an escalation. */
  function OutcomeOf(response: TransferResponse): Outcome {
    match response.outcome
    case EntryRejected => RejectedOutcome
    case EntryEscalated => FailedOutcome
    case Negotiated(outcome) => outcome
    case RailDelivered => DeliveredOutcome
    case RailsFailed => FailedOutcome
  }

  /** The outcome as the response gives it. */
  function ResponseName(outcome: ResponseOutcome): string {
    match outcome
    case EntryRejected => "REJECTED"
    case EntryEscalated => "ESCALATE"
    case Negotiated(negotiated) => OutcomeName(negotiated)
    case RailDelivered => "DELIVERED"
    case RailsFailed => "FAILED"
  }

  /** The check is asked about the outcome the response names; of an escalation at the gate it asks for any record. */
  lemma CheckedAsNamed(response: TransferResponse, transferId: string, records: seq<AuditRecord>)
    ensures response.outcome != EntryEscalated ==> OutcomeName(OutcomeOf(response)) == ResponseName(response.outcome)
    ensures response.outcome == EntryEscalated ==>
              (IsComplete(transferId, records, OutcomeOf(response)) <==>
                 exists r :: r in records && r.transferId == transferId)
  {
    CompleteExactlyWhen(transferId, records, OutcomeOf(response));
  }

  /**
   The trail of an answered request is complete for its outcome exactly when
   the entry gate passed: a transfer the gate turns away leaves no record.
   */
  lemma TrailIsCompleteExactlyWhenNegotiated(t: Transfer, c: Call, counts: map<string, nat>)
    requires Handle(t, c, counts).response.Some?
    ensures IsComplete(t.id, Handle(t, c, counts).held, OutcomeOf(Handle(t, c, counts).response.value))
       <==> EntryResultOf(t, c).outcome == EntryGate.Passes
  {
    hide NegotiationRun, Plan, PlannedTrail, Route, EntryResultOf, Actors;
    if EntryResultOf(t, c).outcome == EntryGate.Passes {
      ReturnedIsPlanned(t, c);
      ReturnedTrailIsComplete(t, c.quotes, c.negotiation);
    }
  }

  // ---------------------------------------------------------------------
  // The endpoint
  // ---------------------------------------------------------------------

  class GatewayRuntime {
    const orchestrator: MasterOrchestrator
    var transfers: map<string, TransferResponse>

    constructor (orchestrator: MasterOrchestrator)
      ensures this.orchestrator == orchestrator && transfers == map[]
    {
      this.orchestrator := orchestrator;
      transfers := map[];
    }

    method Remember(response: TransferResponse)
      modifies this`transfers
      ensures transfers == old(transfers)[response.transferId := response]
    {
      transfers := transfers[response.transferId := response];
    }

    /** An exception leaves nothing remembered; every answer is the remembered one. */
    method InitiateTransfer(
        t: Transfer, call: Call, coordinator: NegotiationCoordinator, router: RailRouter)
      returns (response: Option<TransferResponse>)
      requires router.adapters == call.adapters
      modifies this`transfers, orchestrator, coordinator, coordinator.sink
      modifies coordinator.sentinel.client, coordinator.strategist.client
      ensures var c := call.(negotiation := old(coordinator.Heard(call.negotiation)));
              var handled := Handle(t, c, old(orchestrator.retryCounts));
              && response == handled.response
              && coordinator.sink.held == old(coordinator.sink.held) + handled.held
              && orchestrator.retryCounts == handled.counts
              && transfers == if response.Some? then old(transfers)[t.id := response.value] else old(transfers)
    {
      hide NegotiationRun, Route, EntryGate.Evaluate;
      if call.buildRaises {
        return None;
      }
      var entry := EntryResultOf(t, call);
      if entry.outcome != EntryGate.Passes {
        var cited := EntryRules(entry.citedRules);
        if entry.outcome == EntryGate.Refuses {
          var rejected := Transition(t, REJECTED);
          if rejected.Err? {
            return None;
          }
          response := Some(Respond(t, rejected.value.state, EntryRejected, cited));
        } else {
          response := Some(Respond(t, t.state, EntryEscalated, cited));
        }
        Remember(response.value);
        return;
      }
      if call.quotesRaise {
        return None;
      }
      var negotiated := coordinator.NegotiateAndSettle(t, call.quotes, call.negotiation);
      if negotiated.Err? {
        return None;
      }
      var result := negotiated.value;
      if result.outcome != SettlingOutcome || result.proposal.None? {
        response := AfterNegotiation(t, result);
        if response.Some? {
          Remember(response.value);
        }
        return;
      }
      response := Settle(t, call, result, router);
    }

    /** The router's turn; only what it answers or gives up on is remembered. */
    method Settle(t: Transfer, call: Call, result: NegotiationResult, router: RailRouter)
      returns (response: Option<TransferResponse>)
      requires router.adapters == call.adapters && result.proposal.Some?
      modifies this`transfers, orchestrator
      ensures var routed := Routing(call, old(orchestrator.retryCounts), result);
              && response == AfterRouting(t, result.verdict.citedRules, routed.answer)
              && orchestrator.retryCounts == routed.counts
              && transfers == if response.Some? then old(transfers)[t.id := response.value] else old(transfers)
    {
      hide Route;
      var answer, tried, attempts :=
        router.ExecuteSettlementWithRetry(result.transfer, result.proposal.value.rail, orchestrator, call.replies);
      response := AfterRouting(t, result.verdict.citedRules, answer);
      if response.Some? {
        Remember(response.value);
      }
    }
  }
}
