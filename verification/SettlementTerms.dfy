/**
 What a submitted payment rests on, down to the replies of the two models: what
 the sentinel stated binds it, and the strategist's figures are those it quotes.
 */
module SettlementTerms {
  import opened Wrappers
  import opened DomainMoney
  import opened Lifecycle
  import opened Agents
  import opened AgentReplies
  import opened Negotiation
  import opened Gateway

  /** The reply states a limit on the settlement time. */
  predicate StatesLimit(p: VerdictPayload, limit: real) {
    p.constraints.WellFormed? && p.constraints.value.maxSettlementSeconds == WellFormed(limit)
  }

  /** The reply forbids the rail by its name. */
  predicate Forbids(p: VerdictPayload, rail: SettlementRail) {
    && p.constraints.WellFormed? && p.constraints.value.forbiddenRails.WellFormed?
    && var names := p.constraints.value.forbiddenRails.value;
       exists i :: 0 <= i < |names| && names[i].WellFormed? && NamesRail(names[i].value, rail)
  }

  /** The proposal is within what this reply of the sentinel states. */
  ghost predicate Binds(p: VerdictPayload, proposal: Proposal) {
    && p.outcome == WellFormed("PASS")
    && !Forbids(p, proposal.rail)
    && forall limit :: StatesLimit(p, limit) ==> proposal.estimatedSeconds <= limit
  }

  /** The proposal is on the terms of the first quote for its rail. */
  predicate IsQuotedAt(quotes: seq<RailQuote>, proposal: Proposal) {
    exists i :: 0 <= i < |quotes| && quotes[i].rail == proposal.rail
      && (forall j :: 0 <= j < i ==> quotes[j].rail != proposal.rail)
      && quotes[i].estimatedSeconds == proposal.estimatedSeconds
      && quotes[i].feeMinorUnits <= proposal.totalCost.minorUnits
  }

  lemma OthersAreNotNamed(names: seq<Field<string>>, rails: seq<SettlementRail>, rail: SettlementRail)
    requires StatesRails(names, rails) && rail !in rails
    ensures forall i :: 0 <= i < |names| && names[i].WellFormed? ==> !NamesRail(names[i].value, rail)
  {
    assert forall i :: 0 <= i < |names| ==> rails[i] in rails;
  }

  lemma StatedBinds(p: VerdictPayload, v: Verdict, proposal: Proposal, quotes: seq<RailQuote>)
    requires States(p, v) && v.outcome == PASS && OnQuotedTerms(v, proposal, quotes)
    ensures Binds(p, proposal) && IsQuotedAt(quotes, proposal)
  {
    if p.constraints.WellFormed? && p.constraints.value.forbiddenRails.WellFormed? {
      OthersAreNotNamed(p.constraints.value.forbiddenRails.value, v.constraints.forbiddenRails, proposal.rail);
    }
    var i :| 0 <= i < |quotes| && IsFirstQuote(quotes, i) && quotes[i].rail == proposal.rail
             && quotes[i].estimatedSeconds == proposal.estimatedSeconds
             && quotes[i].feeMinorUnits <= proposal.totalCost.minorUnits;
    assert forall j :: 0 <= j < i ==> quotes[j].rail != proposal.rail;
  }

  /** The reply of the sentinel a pass rests on: the first one, or the second after an unusable one. */
  predicate RestsOn(replies: (Reply<VerdictPayload>, Reply<VerdictPayload>), p: VerdictPayload) {
    || (replies.0.Emits? && replies.0.payload == p)
    || (!replies.0.TimesOut? && replies.1.Emits? && replies.1.payload == p)
  }

  predicate RestsOnProposal(
      replies: (Reply<ProposalPayload>, Reply<ProposalPayload>), currency: CurrencyCode, proposal: Proposal)
  {
    Proposes(replies.0, currency, proposal) || (!replies.0.TimesOut? && Proposes(replies.1, currency, proposal))
  }

  /**
   A settlement rests on a reply of the sentinel that says PASS, keeps off every
   rail that reply names, takes no longer than the limit it states, and has the
   rail, cost and time of a reply of the strategist on quoted terms.
   */
  lemma SettlementIsBoundByTheReplies(
      t: Transfer, quotes: seq<RailQuote>, s: Surroundings, verdict: Verdict, proposal: Proposal)
    requires SettlesOn(t, quotes, s, verdict, proposal)
    ensures exists p :: RestsOn(s.sentinel, p) && States(p, verdict) && Binds(p, proposal)
    ensures RestsOnProposal(s.strategist, t.quote.send.currency, proposal) && IsQuotedAt(quotes, proposal)
  {
    hide States, MayBeGiven, Binds, Proposes, Assess, Propose, OnQuotedTerms, IsQuotedAt;
    PassIsAReply(s.sentinel.0, s.sentinel.1);
    var reply := if Usable(s.sentinel.0) == Some(verdict) then s.sentinel.0 else s.sentinel.1;
    assert Usable(reply) == Some(verdict) by {
      assert Assess(s.sentinel.0, s.sentinel.1).answer == Some(verdict);
    }
    GivesIsUsable(reply, verdict);
    StatedBinds(reply.payload, verdict, proposal, quotes);
    assert RestsOn(s.sentinel, reply.payload);
    ProposalRests(quotes, verdict.constraints, t.quote.send.currency, s.strategist.0, s.strategist.1, proposal);
  }

  lemma ProposalRests(
      quotes: seq<RailQuote>, constraints: Constraints, currency: CurrencyCode,
      first: Reply<ProposalPayload>, second: Reply<ProposalPayload>, proposal: Proposal)
    requires Propose(quotes, constraints, currency, first, second).answer == Some(proposal)
    ensures RestsOnProposal((first, second), currency, proposal)
  {
    hide Proposes, UsableProposal, HasEligibleQuote;
    ProposesIsUsable(first, currency, proposal);
    ProposesIsUsable(second, currency, proposal);
  }

  /** No rail is submitted to unless such replies stand behind the first one. */
  lemma SubmissionIsBoundByTheReplies(t: Transfer, c: Call, counts: map<string, nat>)
    requires Handle(t, c, counts).submitted != []
    ensures exists p, proposal ::
              RestsOn(c.negotiation.sentinel, p) && Binds(p, proposal) && IsQuotedAt(c.quotes, proposal)
              && RestsOnProposal(c.negotiation.strategist, t.quote.send.currency, proposal)
              && proposal.rail == Handle(t, c, counts).submitted[0]
  {
    hide Handle, SettlesOn, RestsOn, Binds, IsQuotedAt, RestsOnProposal, Negotiates, IsAudited;
    NoSubmissionUnaudited(t, c, counts);
    var verdict, proposal :| SettlesOn(t, c.quotes, c.negotiation, verdict, proposal)
                             && proposal.rail == Handle(t, c, counts).submitted[0];
    SettlementIsBoundByTheReplies(t, c.quotes, c.negotiation, verdict, proposal);
  }
}
