/**
 The transfer aggregate and its lifecycle (libs/domain/src/ubunturemit_domain/transfer.py)
 and the orchestrator that counts retries
 (services/asco/src/ubunturemit_asco/orchestrator/master.py).
 */
module Lifecycle {
  import opened Wrappers
  import opened DomainMoney

  datatype SettlementRail = RIPPLE | SWIFT | PAPSS

  datatype TransferState = INITIATED | VALIDATED | SETTLING | DELIVERED | REJECTED | FAILED

  datatype Party = Party(fullName: string, accountNumber: string, bic: string, country: string)

  datatype PaymentPurpose = FAMILY_SUPPORT | BUSINESS_INVESTMENT | GOODS_OR_SERVICES | EDUCATION | MEDICAL

  datatype SourceOfFunds = EMPLOYMENT_SALARY | BUSINESS_REVENUE | SAVINGS

  datatype Declaration = Declaration(purpose: PaymentPurpose, sourceOfFunds: SourceOfFunds)

  datatype Corridor = Corridor(source: CurrencyCode, target: CurrencyCode, papssEligible: bool)

  datatype TransferQuote = TransferQuote(send: Money, fee: Money, recipientReceives: Money, corridor: Corridor)

  datatype Transfer = Transfer(
    id: string,
    reference: string,
    sender: Party,
    recipient: Party,
    quote: TransferQuote,
    declaration: Declaration,
    createdAt: int,
    state: TransferState,
    rail: Option<SettlementRail>,
    settlementSeconds: Option<real>)

  /** What no step may change: everything but the state, the rail and the settlement time. */
  predicate SameIdentity(a: Transfer, b: Transfer) {
    a.id == b.id && a.reference == b.reference && a.sender == b.sender && a.recipient == b.recipient
    && a.quote == b.quote && a.declaration == b.declaration && a.createdAt == b.createdAt
  }

  const LEGAL_TRANSITIONS: set<(TransferState, TransferState)> :=
    {(INITIATED, VALIDATED), (INITIATED, REJECTED), (VALIDATED, SETTLING), (VALIDATED, REJECTED),
     (SETTLING, DELIVERED), (SETTLING, FAILED), (FAILED, SETTLING)}

  datatype TransitionError = IllegalTransition

  function TransitionTo(t: Transfer, state: TransferState): Result<Transfer, TransitionError> {
    if (t.state, state) in LEGAL_TRANSITIONS then Ok(t.(state := state)) else Err(IllegalTransition)
  }

  // ---------------------------------------------------------------------
  // Which lives a transfer can have
  // ---------------------------------------------------------------------

  /** A life of a transfer: it starts at INITIATED and every step is a legal transition. */
  predicate IsLife(path: seq<TransferState>) {
    path != [] && path[0] == INITIATED
    && forall i :: 0 <= i < |path| - 1 ==> (path[i], path[i + 1]) in LEGAL_TRANSITIONS
  }

  /** The state of a life that was not rejected, by its place in it: settling at even places from the second on. */
  predicate AtPlace(path: seq<TransferState>, i: nat)
    requires i < |path|
  {
    if i == 0 then path[i] == INITIATED
    else if i == 1 then path[i] == VALIDATED
    else if i % 2 == 0 then path[i] == SETTLING
    else path[i] == FAILED || (path[i] == DELIVERED && i == |path| - 1)
  }

  /** A life that ends in a rejection at its second or third place, and is regular before that. */
  predicate IsRejectedLife(path: seq<TransferState>) {
    path == [INITIATED, REJECTED] || path == [INITIATED, VALIDATED, REJECTED]
  }

  /** Rejection is only possible before settlement; after that settling and failing alternate until delivery. */
  lemma {:induction false} LivesAreRegular(path: seq<TransferState>)
    requires IsLife(path)
    ensures IsRejectedLife(path) || forall i :: 0 <= i < |path| ==> AtPlace(path, i)
  {
    if |path| > 1 {
      var before, last := path[..|path| - 1], path[|path| - 1];
      LivesAreRegular(before);
      assert (before[|before| - 1], last) in LEGAL_TRANSITIONS by {
        assert (path[|path| - 2], path[|path| - 2 + 1]) in LEGAL_TRANSITIONS;
      }
      if !IsRejectedLife(before) {
        assert AtPlace(before, |before| - 1);
        RegularLast(path, before, last);
      }
    }
  }

  lemma RegularLast(path: seq<TransferState>, before: seq<TransferState>, last: TransferState)
    requires path == before + [last] && before != []
    requires forall i :: 0 <= i < |before| ==> AtPlace(before, i)
    requires (before[|before| - 1], last) in LEGAL_TRANSITIONS
    ensures IsRejectedLife(path) || forall i :: 0 <= i < |path| ==> AtPlace(path, i)
  {
    assert AtPlace(before, |before| - 1) && AtPlace(before, 0);
    if last == REJECTED {
      if |before| == 2 {
        assert AtPlace(before, 1);
      }
    } else {
      forall i | 0 <= i < |path| ensures AtPlace(path, i) {
        if i < |before| {
          assert AtPlace(before, i);
        }
      }
    }
  }

  /** The lives of a transfer are exactly the two rejected ones and the regular ones. */
  lemma LivesAreExactlyTheRegularOnes(path: seq<TransferState>)
    requires path != []
    ensures IsLife(path) <==> IsRejectedLife(path) || forall i :: 0 <= i < |path| ==> AtPlace(path, i)
  {
    if IsLife(path) {
      LivesAreRegular(path);
    } else if !IsRejectedLife(path) && forall i :: 0 <= i < |path| ==> AtPlace(path, i) {
      assert AtPlace(path, 0);
      forall i | 0 <= i < |path| - 1 ensures (path[i], path[i + 1]) in LEGAL_TRANSITIONS {
        assert AtPlace(path, i) && AtPlace(path, i + 1);
      }
    }
  }

  // ---------------------------------------------------------------------
  // The orchestrator
  // ---------------------------------------------------------------------

  const MAX_SETTLEMENT_RETRIES: nat := 2

  datatype OrchestratorError = OrchestratorStateError | RetryBudgetExceeded

  /** The retries counted for a transfer. */
  function RetryCount(counts: map<string, nat>, id: string): nat {
    if id in counts then counts[id] else 0
  }

  function Transition(t: Transfer, state: TransferState): Result<Transfer, OrchestratorError> {
    match TransitionTo(t, state)
    case Ok(moved) => Ok(moved)
    case Err(_) => Err(OrchestratorStateError)
  }

  function RetrySettlement(counts: map<string, nat>, t: Transfer, rail: SettlementRail):
      Result<Transfer, OrchestratorError>
  {
    if t.state != FAILED then Err(OrchestratorStateError)
    else if RetryCount(counts, t.id) >= MAX_SETTLEMENT_RETRIES then Err(RetryBudgetExceeded)
    else Ok(t.(state := SETTLING, rail := Some(rail)))
  }

  function CountsAfterRetry(counts: map<string, nat>, t: Transfer, rail: SettlementRail): map<string, nat> {
    if RetrySettlement(counts, t, rail).Ok? then counts[t.id := RetryCount(counts, t.id) + 1] else counts
  }

  /** A transition changes the state and nothing else, and only along these seven edges. */
  lemma MovesExactlyWhen(t: Transfer, state: TransferState, moved: Transfer)
    ensures Transition(t, state) == Ok(moved) <==>
      moved == t.(state := state)
      && match t.state
         case INITIATED => state == VALIDATED || state == REJECTED
         case VALIDATED => state == SETTLING || state == REJECTED
         case SETTLING => state == DELIVERED || state == FAILED
         case FAILED => state == SETTLING
         case DELIVERED => false
         case REJECTED => false
  {
  }

  /** A retry is granted exactly from FAILED with fewer than two retries counted; it alone is counted. */
  lemma RetriedExactlyWhen(counts: map<string, nat>, t: Transfer, rail: SettlementRail, retried: Transfer)
    ensures var used := if t.id in counts then counts[t.id] else 0;
            && (RetrySettlement(counts, t, rail) == Ok(retried) <==>
                  t.state == FAILED && used < 2 && retried == t.(state := SETTLING, rail := Some(rail)))
            && (RetrySettlement(counts, t, rail) == Err(RetryBudgetExceeded) <==> t.state == FAILED && used >= 2)
            && CountsAfterRetry(counts, t, rail)
               == if t.state == FAILED && used < 2 then counts[t.id := used + 1] else counts
  {
  }

  /** What the retry budget promises of every count. */
  predicate WithinBudget(counts: map<string, nat>) {
    forall id :: id in counts ==> counts[id] <= MAX_SETTLEMENT_RETRIES
  }

  class MasterOrchestrator {
    var retryCounts: map<string, nat>

    constructor ()
      ensures retryCounts == map[]
    {
      retryCounts := map[];
    }

    function GetRetryCount(id: string): nat
      reads this
    {
      RetryCount(retryCounts, id)
    }

    /** Counts the retry before it moves the transfer; a refused retry counts nothing. */
    method Retry(t: Transfer, rail: SettlementRail) returns (answer: Result<Transfer, OrchestratorError>)
      modifies this
      ensures answer == RetrySettlement(old(retryCounts), t, rail)
      ensures retryCounts == CountsAfterRetry(old(retryCounts), t, rail)
      ensures old(WithinBudget(retryCounts)) ==> WithinBudget(retryCounts)
    {
      if t.state != FAILED {
        return Err(OrchestratorStateError);
      }
      var currentRetries := GetRetryCount(t.id);
      if currentRetries >= MAX_SETTLEMENT_RETRIES {
        return Err(RetryBudgetExceeded);
      }
      retryCounts := retryCounts[t.id := currentRetries + 1];
      var updated := TransitionTo(t, SETTLING);
      return Ok(updated.value.(rail := Some(rail)));
    }
  }
}
