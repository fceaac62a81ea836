/**
 The completeness check of an audit trail
 (services/audit/src/ubunturemit_audit/verifier.py).
 */
module AuditVerifier {
  import opened AuditStore

  const SENTINEL := "compliance_sentinel"
  const STRATEGIST := "liquidity_strategist"
  const EXIT_GATE := "exit_validator"
  const ORCHESTRATOR := "orchestrator"

  /** The outcomes the check distinguishes; it asks nothing of any other. */
  datatype Outcome = SettlingOutcome | DeliveredOutcome | PendingReview | RejectedOutcome | FailedOutcome

  /** The actors with a record for a transfer. */
  function Actors(records: seq<AuditRecord>, transferId: string): set<string> {
    set r | r in records && r.transferId == transferId :: r.actor
  }

  function Required(outcome: Outcome): set<string> {
    match outcome
    case SettlingOutcome => {SENTINEL, STRATEGIST, EXIT_GATE, ORCHESTRATOR}
    case DeliveredOutcome => {SENTINEL, STRATEGIST, EXIT_GATE, ORCHESTRATOR}
    case PendingReview => {SENTINEL, ORCHESTRATOR}
    case RejectedOutcome => {ORCHESTRATOR}
    case FailedOutcome => {}
  }

  /** `verify_audit_completeness`: a transfer without any record is never complete. */
  predicate IsComplete(transferId: string, records: seq<AuditRecord>, outcome: Outcome) {
    (exists r :: r in records && r.transferId == transferId)
    && Required(outcome) <= Actors(records, transferId)
  }

  /** The outcome as the check is given it. */
  function OutcomeName(outcome: Outcome): string {
    match outcome
    case SettlingOutcome => "SETTLING"
    case DeliveredOutcome => "DELIVERED"
    case PendingReview => "PENDING_REVIEW"
    case RejectedOutcome => "REJECTED"
    case FailedOutcome => "FAILED"
  }

  /** There is a record of this actor for the transfer. */
  predicate Speaks(transferId: string, records: seq<AuditRecord>, actor: string) {
    exists r :: r in records && r.transferId == transferId && r.actor == actor
  }

  /** What the check asks of each outcome, in the records alone. */
  lemma CompleteExactlyWhen(transferId: string, records: seq<AuditRecord>, outcome: Outcome)
    ensures IsComplete(transferId, records, outcome) <==>
      match outcome
      case SettlingOutcome =>
        Speaks(transferId, records, "compliance_sentinel") && Speaks(transferId, records, "liquidity_strategist")
        && Speaks(transferId, records, "exit_validator") && Speaks(transferId, records, "orchestrator")
      case DeliveredOutcome =>
        Speaks(transferId, records, "compliance_sentinel") && Speaks(transferId, records, "liquidity_strategist")
        && Speaks(transferId, records, "exit_validator") && Speaks(transferId, records, "orchestrator")
      case PendingReview =>
        Speaks(transferId, records, "compliance_sentinel") && Speaks(transferId, records, "orchestrator")
      case RejectedOutcome => Speaks(transferId, records, "orchestrator")
      case FailedOutcome => exists r :: r in records && r.transferId == transferId
  {
    forall actor ensures actor in Actors(records, transferId) <==> Speaks(transferId, records, actor) {
      if r :| r in records && r.transferId == transferId && r.actor == actor {
        assert r.actor in Actors(records, transferId);
      }
    }
    if Speaks(transferId, records, "orchestrator") {
      assert exists r :: r in records && r.transferId == transferId;
    }
  }

  /** More records never make a complete trail incomplete. */
  lemma MoreRecordsStayComplete(
      transferId: string, some: seq<AuditRecord>, more: seq<AuditRecord>, outcome: Outcome)
    requires IsComplete(transferId, some, outcome)
    requires forall r :: r in some && r.transferId == transferId ==> r in more
    ensures IsComplete(transferId, more, outcome)
  {
    forall actor | actor in Required(outcome) ensures actor in Actors(more, transferId) {
      assert actor in Actors(some, transferId);
      var r :| r in some && r.transferId == transferId && r.actor == actor;
    }
  }

  /** A trail that holds a record of each of these actors. */
  predicate HasActors(transferId: string, records: seq<AuditRecord>, actors: seq<string>) {
    |actors| <= |records|
    && forall i :: 0 <= i < |actors| ==> records[i].transferId == transferId && records[i].actor == actors[i]
  }

  lemma ActorsAreThere(transferId: string, records: seq<AuditRecord>, actors: seq<string>, i: nat)
    requires HasActors(transferId, records, actors) && i < |actors|
    ensures actors[i] in Actors(records, transferId)
  {
    assert records[i] in records;
  }
}
