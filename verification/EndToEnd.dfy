/**
 From the gateway to the audit table.  The coordinator's sink is the Kafka
 logger; once the consumer has stored what that logger published, the
 completeness check holds of `get_records`, and the records stored for the
 transfer are the sink's, in order.
 */
module EndToEnd {
  import opened Wrappers
  import opened AuditStore
  import opened AuditPipeline
  import opened AuditGuarantees
  import opened AuditConsumer
  import opened AuditVerifier
  import opened Lifecycle
  import opened Gateway
  import EntryGate
  import Negotiation

  // ---------------------------------------------------------------------
  // The logger as the coordinator's sink
  // ---------------------------------------------------------------------

  /** What becomes of a send, as the coordinator sees it. */
  function AsSinkAnswer(delivery: Delivery): Negotiation.SinkAnswer {
    if delivery.Acknowledged? then Negotiation.Acknowledges
    else if IsKept(delivery) then Negotiation.RaisesWith
    else Negotiation.RaisesWithout
  }

  /** The sink of the run is the logger, whose sends go this way. */
  ghost predicate SinkIsLogger(c: Call, deliveries: nat -> Delivery) {
    forall k :: c.negotiation.sink(k) == AsSinkAnswer(deliveries(k))
  }

  /** The pipeline steps of the logger for a trail: one call for each record, until one raises. */
  function LoggerSteps(trail: seq<AuditRecord>, deliveries: nat -> Delivery, i: nat): seq<Step>
    requires i <= |trail|
    decreases |trail| - i
  {
    if i == |trail| then []
    else
      LogSteps(trail[i], deliveries(i))
      + if deliveries(i).Acknowledged? then LoggerSteps(trail, deliveries, i + 1) else []
  }

  function Publishes(records: seq<AuditRecord>): (steps: seq<Step>)
    ensures |steps| == |records|
  {
    seq(|records|, i requires 0 <= i < |records| => Publish(records[i]))
  }

  lemma PublishesJoin(a: seq<AuditRecord>, b: seq<AuditRecord>)
    ensures Publishes(a + b) == Publishes(a) + Publishes(b)
  {
  }

  /** The last record the logger takes in, if it is the one that was not acknowledged. */
  function LastKept(trail: seq<AuditRecord>, deliveries: nat -> Delivery, k: nat): seq<AuditRecord>
    requires k <= |trail|
  {
    if k < |trail| && IsKept(deliveries(k)) then [trail[k]] else []
  }

  /** From record `i` on, the logger publishes the acknowledged records and what it kept of the next one. */
  lemma {:induction false} LoggerKeepsFrom(trail: seq<AuditRecord>, deliveries: nat -> Delivery, i: nat, k: nat)
    requires i <= k <= |trail|
    requires forall j :: 0 <= j < k ==> deliveries(j).Acknowledged?
    requires k < |trail| ==> !deliveries(k).Acknowledged?
    ensures LoggerSteps(trail, deliveries, i) == Publishes(trail[i..k] + LastKept(trail, deliveries, k))
    decreases |trail| - i
  {
    if i < k {
      LoggerKeepsFrom(trail, deliveries, i + 1, k);
      var rest := trail[i + 1..k] + LastKept(trail, deliveries, k);
      assert trail[i..k] + LastKept(trail, deliveries, k) == [trail[i]] + rest;
      PublishesJoin([trail[i]], rest);
      assert LogSteps(trail[i], deliveries(i)) == Publishes([trail[i]]);
    } else {
      assert trail[i..k] + LastKept(trail, deliveries, k) == LastKept(trail, deliveries, k);
      assert k < |trail| ==> LogSteps(trail[i], deliveries(i)) == Publishes(LastKept(trail, deliveries, k));
    }
  }

  /** The records this request leaves in the sink are the ones its logger has published. */
  lemma LoggerPublishesHeld(t: Transfer, c: Call, deliveries: nat -> Delivery)
    requires SinkIsLogger(c, deliveries)
    ensures LoggerSteps(Negotiation.PlannedTrail(t, c.quotes, c.negotiation), deliveries, 0)
         == Publishes(Negotiation.NegotiationRun(t, c.quotes, c.negotiation).held)
  {
    hide Negotiation.Plan;
    var trail := Negotiation.PlannedTrail(t, c.quotes, c.negotiation);
    var k := Negotiation.FirstRefusal(c.negotiation.sink, |trail|);
    forall j: nat ensures c.negotiation.sink(j).Acknowledges? <==> deliveries(j).Acknowledged? {
      assert c.negotiation.sink(j) == AsSinkAnswer(deliveries(j));
    }
    LoggerKeepsFrom(trail, deliveries, 0, k);
    assert c.negotiation.sink(k) == AsSinkAnswer(deliveries(k));
    var held := Negotiation.NegotiationRun(t, c.quotes, c.negotiation).held;
    assert held == trail[0..k] + LastKept(trail, deliveries, k);
  }

  /** The steps of the logger for this request are among the steps of the pipeline. */
  ghost predicate LoggerTakesPart(t: Transfer, c: Call, deliveries: nat -> Delivery, steps: seq<Step>) {
    && SinkIsLogger(c, deliveries)
    && forall step :: step in LoggerSteps(Negotiation.PlannedTrail(t, c.quotes, c.negotiation), deliveries, 0) ==>
         step in steps
  }

  lemma HeldArePublished(
      t: Transfer, c: Call, counts: map<string, nat>, deliveries: nat -> Delivery, steps: seq<Step>, r: AuditRecord)
    requires LoggerTakesPart(t, c, deliveries, steps) && r in Handle(t, c, counts).held
    ensures Publish(r) in steps
  {
    hide Handle, Negotiation.NegotiationRun, Negotiation.PlannedTrail;
    LoggerPublishesHeld(t, c, deliveries);
    HeldOfHandled(t, c, counts);
    var held := Negotiation.NegotiationRun(t, c.quotes, c.negotiation).held;
    var i :| 0 <= i < |held| && held[i] == r;
    assert Publishes(held)[i] == Publish(r);
    assert Publishes(held)[i] in Publishes(held);
  }

  lemma HeldOfHandled(t: Transfer, c: Call, counts: map<string, nat>)
    ensures var handled := Handle(t, c, counts);
            if Negotiates(t, c)
            then handled.held == Negotiation.NegotiationRun(t, c.quotes, c.negotiation).held
            else handled.held == []
  {
    hide Negotiation.NegotiationRun, EntryResultOf;
  }

  // ---------------------------------------------------------------------
  // What is published is read
  // ---------------------------------------------------------------------

  lemma {:induction false} PublishedStays(w: World, steps: seq<Step>, record: AuditRecord)
    requires |w.committed| == |w.logs| > 0
    ensures record in w.published || Publish(record) in steps ==> record in Run(w, steps).published
  {
    if steps != [] {
      var before, last := steps[..|steps| - 1], steps[|steps| - 1];
      assert steps == before + [last];
      PublishedStays(w, before, record);
      PublishedGrows(Run(w, before), last, record);
    }
  }

  lemma PublishedGrows(w: World, step: Step, record: AuditRecord)
    requires |w.committed| == |w.logs| > 0
    ensures record in w.published || step == Publish(record) ==> record in Next(w, step).published
  {
  }

  lemma {:induction false} PublishedForHas(records: seq<AuditRecord>, record: AuditRecord)
    requires record in records
    ensures record in PublishedFor(records, record.transferId)
  {
    var before, last := records[..|records| - 1], records[|records| - 1];
    assert records == before + [last];
    if record in before {
      PublishedForHas(before, record);
    }
  }

  lemma {:induction false} BusRecordsAreRecords(rows: seq<Row>, transferId: string, record: AuditRecord)
    requires record in BusRecords(rows, transferId)
    ensures record in RecordsOf(rows, transferId)
  {
    if rows != [] {
      var before := rows[..|rows| - 1];
      if record in BusRecords(before, transferId) {
        BusRecordsAreRecords(before, transferId, record);
      }
    }
  }

  /** A published record of a transfer is in `get_records` once its partition is stored to the end. */
  lemma StoredRecordIsRead(
      partitioner: string -> nat, partitions: nat, steps: seq<Step>, record: AuditRecord)
    requires partitions > 0 && RaisingEndsTheConsumer(steps) && Publish(record) in steps
    requires var w := Reached(partitioner, partitions, steps);
             var p := PartitionOf(w, record.transferId);
             Stored(w, p) == |w.logs[p]|
    ensures record in RecordsOf(Reached(partitioner, partitions, steps).rows, record.transferId)
  {
    hide BusRecords, RecordsOf, PublishedFor, Run, Stored;
    var w := Reached(partitioner, partitions, steps);
    PublishedStays(Init(partitioner, partitions), steps, record);
    PublishedForHas(w.published, record);
    TransferRecordsArePrefix(partitioner, partitions, steps, record.transferId);
    BusRecordsAreRecords(w.rows, record.transferId, record);
  }

  /**
   For every request that is negotiated and answered over the Kafka logger, and
   every run of the pipeline in which that logger takes part: once the
   transfer's partition is stored to the end, the completeness check holds of
   what `get_records` returns, for the outcome that was answered, DELIVERED and
   FAILED included.
   */
  lemma StoredTrailIsComplete(
      t: Transfer, c: Call, counts: map<string, nat>, deliveries: nat -> Delivery,
      partitioner: string -> nat, partitions: nat, steps: seq<Step>)
    requires partitions > 0 && RaisingEndsTheConsumer(steps)
    requires var w := Reached(partitioner, partitions, steps);
             var p := PartitionOf(w, t.id);
             Stored(w, p) == |w.logs[p]|
    ensures var handled := Handle(t, c, counts);
            handled.response.Some? && EntryResultOf(t, c).outcome == EntryGate.Passes
            && LoggerTakesPart(t, c, deliveries, steps) ==>
              IsComplete(t.id, RecordsOf(Reached(partitioner, partitions, steps).rows, t.id),
                         OutcomeOf(handled.response.value))
  {
    hide Handle, RecordsOf, Run, Stored, EntryResultOf, IsComplete, LoggerTakesPart;
    var handled := Handle(t, c, counts);
    if handled.response.None? || EntryResultOf(t, c).outcome != EntryGate.Passes
       || !LoggerTakesPart(t, c, deliveries, steps) {
      return;
    }
    TrailIsCompleteExactlyWhenNegotiated(t, c, counts);
    var records := RecordsOf(Reached(partitioner, partitions, steps).rows, t.id);
    forall r | r in handled.held && r.transferId == t.id ensures r in records {
      HeldArePublished(t, c, counts, deliveries, steps, r);
      StoredRecordIsRead(partitioner, partitions, steps, r);
    }
    MoreRecordsStayComplete(t.id, handled.held, records, OutcomeOf(handled.response.value));
  }

  /** What `get_records` then holds for a payment that was delivered, or that no rail delivered: all four voices. */
  lemma SubmittedRequestIsOnRecord(
      t: Transfer, c: Call, counts: map<string, nat>, deliveries: nat -> Delivery,
      partitioner: string -> nat, partitions: nat, steps: seq<Step>)
    requires partitions > 0 && RaisingEndsTheConsumer(steps)
    requires var w := Reached(partitioner, partitions, steps);
             var p := PartitionOf(w, t.id);
             Stored(w, p) == |w.logs[p]|
    requires LoggerTakesPart(t, c, deliveries, steps) && Handle(t, c, counts).submitted != []
    ensures var records := RecordsOf(Reached(partitioner, partitions, steps).rows, t.id);
            Speaks(t.id, records, "compliance_sentinel") && Speaks(t.id, records, "orchestrator")
            && Speaks(t.id, records, "liquidity_strategist") && Speaks(t.id, records, "exit_validator")
  {
    hide Handle, RecordsOf, Run, Stored, IsComplete, LoggerTakesPart, Speaks, Negotiates, Negotiation.PlannedTrail;
    NoSubmissionUnaudited(t, c, counts);
    var held := Handle(t, c, counts).held;
    var records := RecordsOf(Reached(partitioner, partitions, steps).rows, t.id);
    forall r | r in held && r.transferId == t.id ensures r in records {
      HeldArePublished(t, c, counts, deliveries, steps, r);
      StoredRecordIsRead(partitioner, partitions, steps, r);
    }
    MoreRecordsStayComplete(t.id, held, records, SettlingOutcome);
    CompleteExactlyWhen(t.id, records, SettlingOutcome);
  }

  // ---------------------------------------------------------------------
  // What is stored is the trail
  // ---------------------------------------------------------------------

  /** The publishing steps for a transfer, in order. */
  function PublishesFor(steps: seq<Step>, transferId: string): seq<Step> {
    if steps == [] then []
    else
      var last := steps[|steps| - 1];
      PublishesFor(steps[..|steps| - 1], transferId)
      + if last.Publish? && last.record.transferId == transferId then [last] else []
  }

  lemma {:induction false} PublishedAreTheSteps(w: World, steps: seq<Step>, transferId: string)
    requires |w.committed| == |w.logs| > 0 && w.published == []
    ensures Publishes(PublishedFor(Run(w, steps).published, transferId)) == PublishesFor(steps, transferId)
  {
    hide PublishedFor;
    if steps == [] {
      assert PublishedFor([], transferId) == [] by {
        NothingPublished(transferId);
      }
    } else {
      var before, last := steps[..|steps| - 1], steps[|steps| - 1];
      PublishedAreTheSteps(w, before, transferId);
      var published := Run(w, before).published;
      PublishedByStep(Run(w, before), last);
      if last.Publish? {
        PublishedAfterAppend(published, last.record, transferId);
        PublishesJoin(PublishedFor(published, transferId), [last.record]);
        assert PublishedFor(published, transferId) + [] == PublishedFor(published, transferId);
      }
    }
  }

  lemma NothingPublished(transferId: string)
    ensures PublishedFor([], transferId) == []
  {
  }

  lemma PublishedByStep(w: World, step: Step)
    requires |w.committed| == |w.logs| > 0
    ensures Next(w, step).published == if step.Publish? then w.published + [step.record] else w.published
  {
  }

  lemma PublishesAreInjective(a: seq<AuditRecord>, b: seq<AuditRecord>)
    requires Publishes(a) == Publishes(b)
    ensures a == b
  {
    forall i | 0 <= i < |a| ensures a[i] == b[i] {
      assert Publishes(a)[i] == Publishes(b)[i];
    }
  }

  /**
   If the logger of the request is the only one to publish for the transfer,
   the stored records of the transfer are a prefix of what its sink was left
   with, in order, and all of it once the partition is stored to the end; also
   when the run ended in an exception.
   */
  lemma StoredRecordsAreTheSinks(
      t: Transfer, c: Call, deliveries: nat -> Delivery,
      partitioner: string -> nat, partitions: nat, steps: seq<Step>)
    requires partitions > 0 && RaisingEndsTheConsumer(steps) && SinkIsLogger(c, deliveries)
    requires PublishesFor(steps, t.id)
          == LoggerSteps(Negotiation.PlannedTrail(t, c.quotes, c.negotiation), deliveries, 0)
    ensures var w := Reached(partitioner, partitions, steps);
            var p, held := PartitionOf(w, t.id), Negotiation.NegotiationRun(t, c.quotes, c.negotiation).held;
            && BusRecords(w.rows, t.id) <= held
            && (Stored(w, p) == |w.logs[p]| ==> BusRecords(w.rows, t.id) == held)
  {
    hide Run, BusRecords, PublishedFor, PublishesFor, Stored, Negotiation.NegotiationRun, Negotiation.PlannedTrail;
    var w := Reached(partitioner, partitions, steps);
    LoggerPublishesHeld(t, c, deliveries);
    PublishedAreTheSteps(Init(partitioner, partitions), steps, t.id);
    PublishesAreInjective(PublishedFor(w.published, t.id),
                          Negotiation.NegotiationRun(t, c.quotes, c.negotiation).held);
    TransferRecordsArePrefix(partitioner, partitions, steps, t.id);
  }
}
