/**
 What the two agents and the exit gate make of the replies of the models, field
 by field (services/asco/src/ubunturemit_asco/agents/sentinel.py and
 strategist.py, guardrails/exit.py and models.py): nothing is added to a reply,
 and nothing it states is lost.
 */
module AgentReplies {
  import opened Wrappers
  import opened Text
  import opened DomainMoney
  import opened Lifecycle
  import opened Agents

  // ---------------------------------------------------------------------
  // Names
  // ---------------------------------------------------------------------

  predicate NamesRail(name: string, rail: SettlementRail) {
    match rail
    case RIPPLE => name == "RIPPLE"
    case SWIFT => name == "SWIFT"
    case PAPSS => name == "PAPSS"
  }

  predicate NamesOutcome(name: string, outcome: VerdictOutcome) {
    match outcome
    case PASS => name == "PASS"
    case ESCALATE => name == "ESCALATE"
    case BLOCK => name == "BLOCK"
  }

  predicate NamesCurrency(name: string, currency: CurrencyCode) {
    match currency
    case ZAR => name == "ZAR"
    case KES => name == "KES"
    case NGN => name == "NGN"
    case GHS => name == "GHS"
    case USD => name == "USD"
  }

  lemma NamesAreParsed(name: string)
    ensures forall rail :: ParseRail(name) == Some(rail) <==> NamesRail(name, rail)
    ensures forall outcome :: ParseOutcome(name) == Some(outcome) <==> NamesOutcome(name, outcome)
    ensures forall currency :: CurrencyName(currency) == name <==> NamesCurrency(name, currency)
  {
  }

  // ---------------------------------------------------------------------
  // The sentinel's reply
  // ---------------------------------------------------------------------

  /** The rails are the named ones, one for one. */
  predicate StatesRails(names: seq<Field<string>>, rails: seq<SettlementRail>) {
    |names| == |rails|
    && forall i :: 0 <= i < |names| ==> names[i].WellFormed? && NamesRail(names[i].value, rails[i])
  }

  /** Absent constraints forbid nothing and set no limit; so do absent parts of them. */
  predicate StatesConstraints(field: Field<ConstraintsPayload>, c: Constraints) {
    match field
    case Absent => c.forbiddenRails == [] && c.maxSettlementSeconds == None
    case IllFormed => false
    case WellFormed(p) =>
      && (match p.forbiddenRails
          case Absent => c.forbiddenRails == []
          case IllFormed => false
          case WellFormed(names) => StatesRails(names, c.forbiddenRails))
      && (match p.maxSettlementSeconds
          case Absent => c.maxSettlementSeconds == None
          case IllFormed => false
          case WellFormed(limit) => c.maxSettlementSeconds == Some(limit))
  }

  predicate StatesStrings(stated: seq<Field<string>>, items: seq<string>) {
    |stated| == |items| && forall i :: 0 <= i < |items| ==> stated[i] == WellFormed(items[i])
  }

  /** The rules are the stated ones, in the container they came in. */
  predicate StatesRules(field: Field<Cited<Field<string>>>, rules: Cited<string>) {
    field.WellFormed? &&
    match (field.value, rules)
    case (AsList(stated), AsList(items)) => StatesStrings(stated, items)
    case (AsText(stated), AsText(text)) => stated == text
    case (AsObject(stated), AsObject(names)) => stated == names
    case _ => false
  }

  predicate States(p: VerdictPayload, v: Verdict) {
    && p.outcome.WellFormed? && NamesOutcome(p.outcome.value, v.outcome)
    && p.riskScore == WellFormed(v.riskScore)
    && StatesRules(p.citedRules, v.citedRules)
    && p.rationale == WellFormed(v.rationale)
    && StatesConstraints(p.constraints, v.constraints)
  }

  predicate HasInk(s: string) {
    exists i :: 0 <= i < |s| && !IsSpace(s[i])
  }

  /** There is a rule, and none of them is blank. */
  predicate CitesRules(rules: Cited<string>) {
    match rules
    case AsList(items) => items != [] && forall i :: 0 <= i < |items| ==> HasInk(items[i])
    case AsText(text) => text != "" && forall i :: 0 <= i < |text| ==> !IsSpace(text[i])
    case AsObject(names) => names != [] && forall i :: 0 <= i < |names| ==> HasInk(names[i])
  }

  predicate MayBeGiven(v: Verdict) {
    0.0 <= v.riskScore <= 1.0 && CitesRules(v.citedRules) && HasInk(v.rationale) && |v.rationale| <= 600
  }

  lemma BlankIs(s: string)
    ensures IsBlank(s) <==> !HasInk(s)
  {
    StripIs(s, Strip(s));
    var left, right :| AllSpaces(left) && AllSpaces(right) && s == left + Strip(s) + right;
    if Strip(s) != "" {
      assert s[|left|] == Strip(s)[0];
    }
  }

  lemma MayBeGivenIsValid(v: Verdict)
    ensures MayBeGiven(v) <==> ValidVerdict(v)
  {
    hide IsBlank, HasInk, IsSpace;
    BlankIs(v.rationale);
    var items := Items(v.citedRules);
    forall i | 0 <= i < |items| ensures IsBlank(items[i]) <==> !HasInk(items[i]) {
      BlankIs(items[i]);
    }
    if v.citedRules.AsText? {
      forall i | 0 <= i < |items| ensures HasInk(items[i]) <==> !IsSpace(v.citedRules.text[i]) {
        OneCharacter(v.citedRules.text[i]);
      }
    }
  }

  lemma OneCharacter(c: char)
    ensures HasInk([c]) <==> !IsSpace(c)
  {
    assert [c][0] == c;
  }

  lemma {:induction false} RailsAreStated(names: seq<Field<string>>, rails: seq<SettlementRail>)
    ensures ParseRails(names) == Some(rails) <==> StatesRails(names, rails)
  {
    hide ParseRail, NamesRail;
    if names != [] {
      var rest := names[1..];
      if names[0].WellFormed? {
        NamesAreParsed(names[0].value);
      }
      if rails != [] {
        RailsAreStated(rest, rails[1..]);
        assert rails == [rails[0]] + rails[1..];
        assert StatesRails(names, rails) <==>
          names[0].WellFormed? && NamesRail(names[0].value, rails[0]) && StatesRails(rest, rails[1..]) by {
          RailsSplit(names, rails);
        }
      }
    }
  }

  lemma RailsSplit(names: seq<Field<string>>, rails: seq<SettlementRail>)
    requires names != [] && rails != []
    ensures StatesRails(names, rails)
       <==> names[0].WellFormed? && NamesRail(names[0].value, rails[0]) && StatesRails(names[1..], rails[1..])
  {
    hide NamesRail;
    if names[0].WellFormed? && NamesRail(names[0].value, rails[0]) && StatesRails(names[1..], rails[1..]) {
      forall i | 0 <= i < |names| ensures names[i].WellFormed? && NamesRail(names[i].value, rails[i]) {
        if i > 0 {
          assert names[1..][i - 1] == names[i] && rails[1..][i - 1] == rails[i];
        }
      }
    }
  }

  lemma {:induction false} StringsAreStated(stated: seq<Field<string>>, items: seq<string>)
    ensures ParseStrings(stated) == Some(items) <==> StatesStrings(stated, items)
  {
    if stated != [] && items != [] {
      StringsAreStated(stated[1..], items[1..]);
      StringsSplit(stated, items);
      assert items == [items[0]] + items[1..];
    }
  }

  lemma StringsSplit(stated: seq<Field<string>>, items: seq<string>)
    requires stated != [] && items != []
    ensures StatesStrings(stated, items)
       <==> stated[0] == WellFormed(items[0]) && StatesStrings(stated[1..], items[1..])
  {
    if stated[0] == WellFormed(items[0]) && StatesStrings(stated[1..], items[1..]) {
      forall i | 0 <= i < |items| ensures stated[i] == WellFormed(items[i]) {
        if i > 0 {
          assert stated[1..][i - 1] == stated[i] && items[1..][i - 1] == items[i];
        }
      }
    }
  }

  lemma RulesAreStated(stated: Cited<Field<string>>, rules: Cited<string>)
    ensures ParseCited(stated) == Some(rules) <==> StatesRules(WellFormed(stated), rules)
  {
    if stated.AsList? && rules.AsList? {
      StringsAreStated(stated.items, rules.items);
    }
  }

  lemma ConstraintsAreStated(field: Field<ConstraintsPayload>, c: Constraints)
    ensures ParseConstraints(field) == Some(c) <==> StatesConstraints(field, c)
  {
    hide ParseRails, StatesRails;
    if field.WellFormed? && field.value.forbiddenRails.WellFormed? {
      RailsAreStated(field.value.forbiddenRails.value, c.forbiddenRails);
      RailsParsed(field.value.forbiddenRails.value);
    }
  }

  /** What parses is stated. */
  lemma RailsParsed(names: seq<Field<string>>)
    ensures ParseRails(names).Some? ==> StatesRails(names, ParseRails(names).value)
  {
    if ParseRails(names).Some? {
      RailsAreStated(names, ParseRails(names).value);
    }
  }

  /** A payload gives a verdict exactly when that verdict is what it states, and one that may be given. */
  lemma VerdictExactlyWhen(p: VerdictPayload, v: Verdict)
    ensures ParseVerdict(p) == Some(v) <==> States(p, v) && MayBeGiven(v)
  {
    hide ParseOutcome, NamesOutcome, ParseConstraints, StatesConstraints, ParseCited, StatesRules, ValidVerdict,
         MayBeGiven;
    MayBeGivenIsValid(v);
    ConstraintsAreStated(p.constraints, v.constraints);
    if p.outcome.WellFormed? {
      NamesAreParsed(p.outcome.value);
    }
    if p.citedRules.WellFormed? {
      RulesAreStated(p.citedRules.value, v.citedRules);
    } else {
      NoRules(p.citedRules, v.citedRules);
    }
  }

  lemma NoRules(field: Field<Cited<Field<string>>>, rules: Cited<string>)
    requires !field.WellFormed?
    ensures !StatesRules(field, rules)
  {
  }

  /** The reply gives this verdict. */
  predicate Gives(reply: Reply<VerdictPayload>, v: Verdict) {
    reply.Emits? && States(reply.payload, v) && MayBeGiven(v)
  }

  lemma GivesIsUsable(reply: Reply<VerdictPayload>, v: Verdict)
    ensures Usable(reply) == Some(v) <==> Gives(reply, v)
  {
    if reply.Emits? {
      VerdictExactlyWhen(reply.payload, v);
    }
  }

  /**
   The sentinel's answer in the replies alone: the first usable one of two; an
   escalation after a timeout of the first call, or after two unusable replies,
   unless the complaint about the second is too long to be quoted.
   */
  lemma AssessExactlyWhen(first: Reply<VerdictPayload>, second: Reply<VerdictPayload>)
    ensures var asked := Assess(first, second);
            && (forall v :: Gives(first, v) ==> asked.answer == Some(v) && asked.calls == 1)
            && ((forall v :: !Gives(first, v)) ==>
                  && (first.TimesOut? ==>
                        asked.calls == 1
                        && asked.answer == Some(Verdict(
                             ESCALATE, 0.5, AsList(["INFERENCE_TIMEOUT_FAIL_CLOSED"]),
                             "Compliance Sentinel inference timed out. Escalating to human queue.",
                             Constraints([], None))))
                  && (!first.TimesOut? ==>
                        && asked.calls == 2
                        && (forall v :: Gives(second, v) ==> asked.answer == Some(v))
                        && ((forall v :: !Gives(second, v)) ==>
                              asked.answer == if |second.complaint| > 528 then None
                                              else Some(Verdict(
                                                ESCALATE, 0.5, AsList(["MALFORMED_OUTPUT_ESCALATE"]),
                                                "Sentinel emitted unparseable output twice (" + second.complaint
                                                + "). Escalating to human queue.", Constraints([], None))))))
  {
    hide Usable, Gives, ValidVerdict;
    forall v
      ensures Usable(first) == Some(v) <==> Gives(first, v)
      ensures Usable(second) == Some(v) <==> Gives(second, v)
    {
      GivesIsUsable(first, v);
      GivesIsUsable(second, v);
    }
    MalformedIsValidExactlyWhen(second.complaint);
    if Usable(first).Some? {
      assert Gives(first, Usable(first).value);
    }
    if Usable(second).Some? {
      assert Gives(second, Usable(second).value);
    }
  }

  // ---------------------------------------------------------------------
  // The strategist's reply
  // ---------------------------------------------------------------------

  predicate Proposes(reply: Reply<ProposalPayload>, currency: CurrencyCode, proposal: Proposal) {
    reply.Emits?
    && var p := reply.payload;
       && p.rail.WellFormed? && NamesRail(p.rail.value, proposal.rail)
       && p.costMinorUnits == WellFormed(proposal.totalCost.minorUnits) && proposal.totalCost.currency == currency
       && p.costCurrency.WellFormed? && NamesCurrency(p.costCurrency.value, currency)
       && p.estimatedSeconds == WellFormed(proposal.estimatedSeconds) && proposal.estimatedSeconds > 0.0
       && p.rationale == WellFormed(proposal.rationale) && HasInk(proposal.rationale)
       && |proposal.rationale| <= 400
  }

  lemma ProposesIsUsable(reply: Reply<ProposalPayload>, currency: CurrencyCode, proposal: Proposal)
    ensures UsableProposal(reply, currency) == Some(proposal) <==> Proposes(reply, currency, proposal)
  {
    hide ParseRail, NamesRail, NamesCurrency, CurrencyName, IsBlank, HasInk;
    if reply.Emits? {
      BlankIs(proposal.rationale);
      if reply.payload.rail.WellFormed? {
        NamesAreParsed(reply.payload.rail.value);
      }
      if reply.payload.costCurrency.WellFormed? {
        NamesAreParsed(reply.payload.costCurrency.value);
      }
    }
  }

  /**
   The strategist's answer in the replies and the quotes alone: without a quote
   for a rail that is not forbidden there is none and no call; otherwise it is
   the first usable reply of two, and there is none after a timeout of the first.
   */
  lemma ProposalExactlyWhen(
      quotes: seq<RailQuote>, constraints: Constraints, currency: CurrencyCode,
      first: Reply<ProposalPayload>, second: Reply<ProposalPayload>)
    ensures var asked := Propose(quotes, constraints, currency, first, second);
            if forall i :: 0 <= i < |quotes| ==> quotes[i].rail in constraints.forbiddenRails
            then asked == Asked(None, 0)
            else
              && (forall p :: Proposes(first, currency, p) ==> asked == Asked(Some(p), 1))
              && ((forall p :: !Proposes(first, currency, p)) ==>
                    if first.TimesOut? then asked == Asked(None, 1)
                    else asked.calls == 2 && forall p :: asked.answer == Some(p) <==> Proposes(second, currency, p))
  {
    hide UsableProposal, Proposes;
    forall p
      ensures UsableProposal(first, currency) == Some(p) <==> Proposes(first, currency, p)
      ensures UsableProposal(second, currency) == Some(p) <==> Proposes(second, currency, p)
    {
      ProposesIsUsable(first, currency, p);
      ProposesIsUsable(second, currency, p);
    }
    if UsableProposal(first, currency).Some? {
      assert Proposes(first, currency, UsableProposal(first, currency).value);
    }
  }

  // ---------------------------------------------------------------------
  // The exit gate
  // ---------------------------------------------------------------------

  /** The rail and its terms, by the first quote for the rail: the first objection decides. */
  predicate Objects(verdict: Verdict, proposal: Proposal, quotes: seq<RailQuote>, reason: ExitReason) {
    if forall i :: 0 <= i < |quotes| ==> quotes[i].rail != proposal.rail then reason == FabricatedRail
    else
      exists i :: 0 <= i < |quotes| && quotes[i].rail == proposal.rail &&
        (forall j :: 0 <= j < i ==> quotes[j].rail != proposal.rail) &&
        var limit := verdict.constraints.maxSettlementSeconds;
        match reason
        case LatencyDiffersFromQuote => quotes[i].estimatedSeconds != proposal.estimatedSeconds
        case CostBelowQuotedFee =>
          quotes[i].estimatedSeconds == proposal.estimatedSeconds
          && proposal.totalCost.minorUnits < quotes[i].feeMinorUnits
        case ForbiddenRail =>
          quotes[i].estimatedSeconds == proposal.estimatedSeconds
          && proposal.totalCost.minorUnits >= quotes[i].feeMinorUnits
          && proposal.rail in verdict.constraints.forbiddenRails
        case TooSlow =>
          quotes[i].estimatedSeconds == proposal.estimatedSeconds
          && proposal.totalCost.minorUnits >= quotes[i].feeMinorUnits
          && proposal.rail !in verdict.constraints.forbiddenRails
          && limit.Some? && proposal.estimatedSeconds > limit.value
        case _ => false
  }

  lemma ObjectsIsTheObjection(verdict: Verdict, proposal: Proposal, quotes: seq<RailQuote>, reason: ExitReason)
    ensures RailObjection(verdict, proposal, quotes) == Some(reason) <==> Objects(verdict, proposal, quotes, reason)
  {
    if IsQuoted(quotes, proposal.rail) {
      var chosen := FirstQuote(quotes, proposal.rail);
      assert chosen.rail == proposal.rail;
      var i :| 0 <= i < |quotes| && quotes[i] == chosen && IsFirstQuote(quotes, i);
      forall j | 0 <= j < |quotes| && quotes[j].rail == proposal.rail && IsFirstQuote(quotes, j)
        ensures quotes[j] == quotes[i]
      {
        FirstQuoteIsUnique(quotes, j);
      }
      assert forall j :: 0 <= j < |quotes| && quotes[j].rail == proposal.rail ==>
        (IsFirstQuote(quotes, j) <==> forall k :: 0 <= k < j ==> quotes[k].rail != proposal.rail);
    }
  }

  /** Which check of the gate refuses, why, and whether it overrules the agents. */
  lemma GateRefusesExactlyWhen(
      verdict: Verdict, proposal: Proposal, quotes: seq<RailQuote>, pacs008: string, schemaAccepts: string -> bool)
    requires MayBeGiven(verdict)
    ensures var result := Validate(verdict, Some(proposal), quotes, Some(pacs008), schemaAccepts);
            match verdict.outcome
            case BLOCK => result == ExitResult(false, CITATION_CHECK, false, Blocked)
            case ESCALATE => result == ExitResult(false, CITATION_CHECK, false, Escalated)
            case PASS =>
              && (forall reason :: Objects(verdict, proposal, quotes, reason) ==>
                    result == ExitResult(false, RAIL_ELIGIBILITY, true, reason))
              && ((forall reason :: !Objects(verdict, proposal, quotes, reason)) ==>
                    result == if schemaAccepts(pacs008) then ExitResult(true, CLEAR, false, AllChecksPassed)
                              else ExitResult(false, ISO20022_SCHEMA, true, SchemaRefuses))
  {
    hide Objects, RailObjection, MayBeGiven;
    forall reason
      ensures RailObjection(verdict, proposal, quotes) == Some(reason) <==> Objects(verdict, proposal, quotes, reason)
    {
      ObjectsIsTheObjection(verdict, proposal, quotes, reason);
    }
    MayBeGivenIsValid(verdict);
    var objection := RailObjection(verdict, proposal, quotes);
    if objection.Some? {
      assert Objects(verdict, proposal, quotes, objection.value);
    }
  }
}
