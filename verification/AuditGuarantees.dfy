/**
 What the audit pipeline guarantees, for every run of its steps: at least once
 delivered, stored once, in order
 (services/audit/src/ubunturemit_audit/kafka.py and postgres_store.py).
 */
module AuditGuarantees {
  import opened Wrappers
  import opened AuditStore
  import opened AuditPipeline

  /** The state after a run that starts on an empty topic and an empty table. */
  function Reached(partitioner: string -> nat, partitions: nat, steps: seq<Step>): (w: World)
    requires partitions > 0
    ensures |w.committed| == |w.logs| == partitions && w.partitioner == partitioner
  {
    Run(Init(partitioner, partitions), steps)
  }

  // ---------------------------------------------------------------------
  // Stored once, in order; never committed past what is stored
  // ---------------------------------------------------------------------

  lemma ReachedInv(partitioner: string -> nat, partitions: nat, steps: seq<Step>)
    requires partitions > 0 && RaisingEndsTheConsumer(steps)
    ensures Inv(Reached(partitioner, partitions, steps))
  {
    InitInv(partitioner, partitions);
    RunKeepsInv(Init(partitioner, partitions), steps, false);
  }

  /**
   In every reachable state the stored rows of a partition are, in id order, a
   prefix of its log, and the committed offset passes neither the end of that
   prefix nor a message that is unreadable or that the table refuses.
   */
  lemma StoredRowsArePrefixOfLog(partitioner: string -> nat, partitions: nat, steps: seq<Step>, p: nat)
    requires p < partitions && RaisingEndsTheConsumer(steps)
    ensures var w := Reached(partitioner, partitions, steps);
            && IsPrefixOfLog(BusRows(w.rows, p), w.logs[p], p)
            && w.committed[p] <= Stored(w, p)
            && forall o :: 0 <= o < w.committed[p] ==> CanStore(w.logs[p][o])
  {
    ReachedInv(partitioner, partitions, steps);
    var w := Reached(partitioner, partitions, steps);
    assert PartitionInv(w, p);
  }

  /** A message that cannot be stored stops its partition for good: nothing behind it is stored, or it committed. */
  lemma NothingPassesARefusedMessage(
      partitioner: string -> nat, partitions: nat, steps: seq<Step>, p: nat, o: nat)
    requires p < partitions && RaisingEndsTheConsumer(steps)
    ensures var w := Reached(partitioner, partitions, steps);
            o < |w.logs[p]| && !CanStore(w.logs[p][o]) ==> w.committed[p] <= Stored(w, p) <= o
  {
    hide BusRows, Run, CanStore;
    StoredRowsArePrefixOfLog(partitioner, partitions, steps, p);
  }

  /**
   The insert of `poll_once` never meets a conflict: unless a column refuses the
   record it adds the next row of the log or finds its own record.
   */
  lemma InsertNeverConflicts(partitioner: string -> nat, partitions: nat, steps: seq<Step>, id: nat)
    requires partitions > 0 && RaisingEndsTheConsumer(steps)
    requires var w := Reached(partitioner, partitions, steps);
             id in w.consumers && w.consumers[id].phase.Polled?
    ensures var w := Reached(partitioner, partitions, steps);
            var p, o := w.consumers[id].phase.partition, w.consumers[id].phase.offset;
            && Holds(w, p, o)
            && AppendTo(w.rows, w.logs[p][o].record, Some(At(p, o))).answer
               == if CanStore(w.logs[p][o]) then Ok(o == Stored(w, p)) else Err(TextRefused)
  {
    hide BusRows, Run, IsStorable;
    ReachedInv(partitioner, partitions, steps);
    var w := Reached(partitioner, partitions, steps);
    ConsumersAreBounded(w, id, false);
    var p, o := w.consumers[id].phase.partition, w.consumers[id].phase.offset;
    assert PartitionInv(w, p);
    if CanStore(w.logs[p][o]) {
      InsertedRows(w, p, o);
    }
  }

  // ---------------------------------------------------------------------
  // At least once: a consumer left alone stores everything
  // ---------------------------------------------------------------------

  /** What `k` undisturbed calls of `poll_once` do on one partition. */
  function PollRounds(id: nat, p: nat, k: nat): seq<Step> {
    if k == 0 then [] else PollRounds(id, p, k - 1) + [Poll(id, p), Insert(id), Commit(id)]
  }

  /** A consumer between two calls of `poll_once` that reads partition `p` from `offset`. */
  predicate ReadsFrom(w: World, id: nat, p: nat, offset: nat) {
    id in w.consumers && w.consumers[id].phase.Idle? && p in w.consumers[id].positions
    && w.consumers[id].positions[p] == offset
  }

  /** One undisturbed call moves the consumer and the committed offset past one message that can be stored. */
  lemma OneRound(w: World, id: nat, p: nat, offset: nat)
    requires Inv(w) && p < |w.logs| && ReadsFrom(w, id, p, offset)
    requires offset < |w.logs[p]| && CanStore(w.logs[p][offset])
    ensures var w' := Next(Next(Next(w, Poll(id, p)), Insert(id)), Commit(id));
            && Inv(w') && w'.logs == w.logs
            && ReadsFrom(w', id, p, offset + 1)
            && w'.committed[p] == offset + 1
  {
    hide BusRows, PartitionInv, ConsumerInv, AppendTo, IsStorable;
    var polled := Next(w, Poll(id, p));
    NextKeepsInv(w, Poll(id, p), false);
    ConsumersAreBounded(polled, id, false);
    assert PartitionInv(polled, p);
    PhaseOf(polled, id);
    InsertedRows(polled, p, offset);
    NextKeepsInv(polled, Insert(id), false);
    NextKeepsInv(Next(polled, Insert(id)), Commit(id), false);
  }

  lemma PhaseOf(w: World, id: nat)
    requires Inv(w) && id in w.consumers
    ensures PhaseInv(w, w.consumers[id].phase, false)
  {
    hide BusRows;
    ConsumersAreBounded(w, id, false);
  }

  /** One round more. */
  lemma RoundsThen(w: World, id: nat, p: nat, k: nat)
    requires |w.committed| == |w.logs| > 0
    ensures Run(w, PollRounds(id, p, k + 1))
         == Next(Next(Next(Run(w, PollRounds(id, p, k)), Poll(id, p)), Insert(id)), Commit(id))
  {
    hide Next;
    var rounds := PollRounds(id, p, k);
    RunThen(w, rounds, Poll(id, p));
    RunThen(w, rounds + [Poll(id, p)], Insert(id));
    RunThen(w, rounds + [Poll(id, p)] + [Insert(id)], Commit(id));
    assert PollRounds(id, p, k + 1) == rounds + [Poll(id, p)] + [Insert(id)] + [Commit(id)];
  }

  lemma {:induction false} RoundsAdvance(w: World, id: nat, p: nat, offset: nat, k: nat)
    requires Inv(w) && p < |w.logs| && ReadsFrom(w, id, p, offset) && offset + k <= |w.logs[p]|
    requires forall o :: offset <= o < offset + k ==> CanStore(w.logs[p][o])
    ensures var w' := Run(w, PollRounds(id, p, k));
            && Inv(w') && w'.logs == w.logs
            && ReadsFrom(w', id, p, offset + k)
            && (k > 0 ==> w'.committed[p] == offset + k)
  {
    hide PartitionInv, LenientInv, Next, BusRows, CanStore;
    ConsumersAreBounded(w, id, false);
    if k > 0 {
      RoundsAdvance(w, id, p, offset, k - 1);
      RoundsThen(w, id, p, k - 1);
      OneRound(Run(w, PollRounds(id, p, k - 1)), id, p, offset + k - 1);
    }
  }

  /** A consumer does not write to the topic. */
  lemma ConsumersOnlyRead(w: World, step: Step)
    requires |w.committed| == |w.logs| > 0 && (step.Poll? || step.Insert? || step.Commit?)
    ensures Next(w, step).logs == w.logs
  {
    hide AppendTo;
  }

  lemma {:induction false} RoundsOnlyRead(w: World, id: nat, p: nat, k: nat)
    requires |w.committed| == |w.logs| > 0
    ensures Run(w, PollRounds(id, p, k)).logs == w.logs && RaisingEndsTheConsumer(PollRounds(id, p, k))
  {
    hide Next;
    if k > 0 {
      RoundsOnlyRead(w, id, p, k - 1);
      RoundsThen(w, id, p, k - 1);
      var before := Run(w, PollRounds(id, p, k - 1));
      ConsumersOnlyRead(before, Poll(id, p));
      ConsumersOnlyRead(Next(before, Poll(id, p)), Insert(id));
      ConsumersOnlyRead(Next(Next(before, Poll(id, p)), Insert(id)), Commit(id));
    }
  }

  /**
   From any reachable state, a consumer that is left alone on a partition
   stores all of it, whatever crashes and rebalances came before, exactly when
   every message still ahead of it is readable and has texts the columns take.
   */
  lemma ConsumerCatchesUp(partitioner: string -> nat, partitions: nat, steps: seq<Step>, id: nat, p: nat)
    requires p < partitions && RaisingEndsTheConsumer(steps)
    requires var w := Reached(partitioner, partitions, steps);
             id in w.consumers && w.consumers[id].phase.Idle? && p in w.consumers[id].positions
    ensures var w := Reached(partitioner, partitions, steps);
            var offset := w.consumers[id].positions[p];
            offset <= |w.logs[p]|
            && var w' := Run(w, PollRounds(id, p, |w.logs[p]| - offset));
               && w'.logs == w.logs
               && (Stored(w', p) == |w'.logs[p]|
                   <==> forall o :: offset <= o < |w.logs[p]| ==> CanStore(w.logs[p][o]))
  {
    hide BusRows, Run, IsStorable, CanStore;
    ReachedInv(partitioner, partitions, steps);
    var w := Reached(partitioner, partitions, steps);
    var offset := w.consumers[id].positions[p];
    ConsumersAreBounded(w, id, false);
    assert PartitionInv(w, p) && PositionInv(w, w.consumers[id], p, false);
    StoredIsInLog(w, p);
    var k := |w.logs[p]| - offset;
    var w' := Run(w, PollRounds(id, p, k));
    RoundsOnlyRead(w, id, p, k);
    RunKeepsInv(w, PollRounds(id, p, k), false);
    assert PartitionInv(w', p);
    if forall o :: offset <= o < |w.logs[p]| ==> CanStore(w.logs[p][o]) {
      RoundsAdvance(w, id, p, offset, k);
      StoredIsInLog(w', p);
      if k == 0 {
        EmptyRun(w);
      }
    }
  }

  // ---------------------------------------------------------------------
  // The order within a transfer
  // ---------------------------------------------------------------------

  /** The records of a transfer among the published ones, in publication order. */
  function PublishedFor(records: seq<AuditRecord>, transferId: string): seq<AuditRecord> {
    if records == [] then []
    else
      var last := records[|records| - 1];
      PublishedFor(records[..|records| - 1], transferId) + if last.transferId == transferId then [last] else []
  }

  /** The records of a transfer on one partition, in log order. */
  function LoggedFor(log: seq<Message>, transferId: string): seq<AuditRecord> {
    if log == [] then []
    else
      var last := log[|log| - 1];
      LoggedFor(log[..|log| - 1], transferId)
      + if last.Readable? && last.record.transferId == transferId then [last.record] else []
  }

  /** The rows that came off the bus. */
  predicate FromBus(row: Row) {
    row.position.Some? && row.position.value.topic == AUDIT_TOPIC
  }

  /** What `get_records` returns of the rows that came off the bus. */
  function BusRecords(rows: seq<Row>, transferId: string): seq<AuditRecord> {
    if rows == [] then []
    else
      var row := rows[|rows| - 1];
      BusRecords(rows[..|rows| - 1], transferId)
      + if FromBus(row) && row.record.transferId == transferId then [row.record] else []
  }

  lemma {:induction false} AllFromBus(rows: seq<Row>, transferId: string)
    requires forall row :: row in rows && row.record.transferId == transferId ==> FromBus(row)
    ensures BusRecords(rows, transferId) == RecordsOf(rows, transferId)
  {
    if rows != [] {
      AllFromBus(rows[..|rows| - 1], transferId);
    }
  }

  predicate LogsAreKeyed(w: World)
    requires |w.logs| > 0
  {
    forall p, o :: 0 <= p < |w.logs| && 0 <= o < |w.logs[p]| && w.logs[p][o].Readable? ==>
      PartitionOf(w, w.logs[p][o].record.transferId) == p
  }

  predicate RowsAreKeyed(w: World)
    requires |w.logs| > 0
  {
    forall row :: row in w.rows && FromBus(row) ==>
      PartitionOf(w, row.record.transferId) == row.position.value.partition
  }

  /** Every record of a transfer is on the partition its key selects, in publication order. */
  ghost predicate KeyedInv(w: World) {
    && |w.committed| == |w.logs| > 0
    && LogsAreKeyed(w)
    && RowsAreKeyed(w)
    && forall transferId :: LoggedFor(w.logs[PartitionOf(w, transferId)], transferId)
                         == PublishedFor(w.published, transferId)
  }

  lemma LoggedAfterAppend(log: seq<Message>, message: Message, transferId: string)
    ensures LoggedFor(log + [message], transferId)
         == LoggedFor(log, transferId)
            + if message.Readable? && message.record.transferId == transferId then [message.record] else []
  {
    assert (log + [message])[..|log|] == log;
  }

  lemma PublishKeepsKeys(w: World, record: AuditRecord)
    requires KeyedInv(w)
    ensures KeyedInv(Next(w, Publish(record)))
  {
    hide LoggedFor, PublishedFor;
    var w', p := Next(w, Publish(record)), PartitionOf(w, record.transferId);
    forall transferId: string
      ensures LoggedFor(w'.logs[PartitionOf(w', transferId)], transferId) == PublishedFor(w'.published, transferId)
    {
      assert LoggedFor(w.logs[PartitionOf(w, transferId)], transferId) == PublishedFor(w.published, transferId);
      LoggedAfterAppend(w.logs[p], Readable(record), transferId);
      PublishedAfterAppend(w.published, record, transferId);
    }
  }

  lemma PublishedAfterAppend(records: seq<AuditRecord>, record: AuditRecord, transferId: string)
    ensures PublishedFor(records + [record], transferId)
         == PublishedFor(records, transferId) + if record.transferId == transferId then [record] else []
  {
    assert (records + [record])[..|records|] == records;
  }

  lemma UnreadableKeepsKeys(w: World, p: nat)
    requires KeyedInv(w)
    ensures KeyedInv(Next(w, PublishUnreadable(p)))
  {
    hide LoggedFor, PublishedFor;
    if p < |w.logs| {
      var w' := Next(w, PublishUnreadable(p));
      forall transferId: string
        ensures LoggedFor(w'.logs[PartitionOf(w', transferId)], transferId) == PublishedFor(w'.published, transferId)
      {
        assert LoggedFor(w.logs[PartitionOf(w, transferId)], transferId) == PublishedFor(w.published, transferId);
        LoggedAfterAppend(w.logs[p], Unreadable, transferId);
      }
    }
  }

  /** A step that publishes nothing and stores at most one row, keyed like the log it came from. */
  lemma SameLogsKeepKeys(w: World, w': World)
    requires KeyedInv(w) && w'.logs == w.logs && w'.published == w.published && w'.partitioner == w.partitioner
    requires |w'.committed| == |w.committed| && RowsAreKeyed(w')
    ensures KeyedInv(w')
  {
    hide LoggedFor, PublishedFor;
    forall transferId: string
      ensures LoggedFor(w'.logs[PartitionOf(w', transferId)], transferId) == PublishedFor(w'.published, transferId)
    {
      assert LoggedFor(w.logs[PartitionOf(w, transferId)], transferId) == PublishedFor(w.published, transferId);
    }
  }

  lemma NextKeepsKeys(w: World, step: Step)
    requires KeyedInv(w)
    ensures KeyedInv(Next(w, step))
  {
    hide KeyedInv, LoggedFor, PublishedFor;
    match step
    case Publish(record) => PublishKeepsKeys(w, record);
    case PublishUnreadable(p) => UnreadableKeepsKeys(w, p);
    case _ =>
      OtherStepsKeepLogs(w, step);
      SameLogsKeepKeys(w, Next(w, step));
  }

  lemma OtherStepsKeepLogs(w: World, step: Step)
    requires KeyedInv(w) && !step.Publish? && !step.PublishUnreadable?
    ensures var w' := Next(w, step);
            && |w.committed| == |w.logs| > 0
            && w'.logs == w.logs && w'.published == w.published && w'.partitioner == w.partitioner
            && |w'.committed| == |w.committed| && RowsAreKeyed(w')
  {
    hide LoggedFor, PublishedFor, Find;
  }

  lemma {:induction false} RunKeepsKeys(w: World, steps: seq<Step>)
    requires KeyedInv(w)
    ensures KeyedInv(Run(w, steps))
  {
    hide LoggedFor, PublishedFor, LogsAreKeyed, RowsAreKeyed, Next;
    if steps != [] {
      RunKeepsKeys(w, steps[..|steps| - 1]);
      NextKeepsKeys(Run(w, steps[..|steps| - 1]), steps[|steps| - 1]);
    }
  }

  lemma {:induction false} BusRecordsOfPartition(rows: seq<Row>, p: nat, transferId: string)
    requires forall row :: row in rows && FromBus(row) && row.record.transferId == transferId ==> IsBusRow(row, p)
    ensures BusRecords(rows, transferId) == RecordsOf(BusRows(rows, p), transferId)
  {
    if rows != [] {
      var before, row := rows[..|rows| - 1], rows[|rows| - 1];
      assert rows == before + [row];
      BusRecordsOfPartition(before, p, transferId);
      RecordsAfterAppend(BusRows(before, p), row, transferId);
      assert BusRows(before, p) + [] == BusRows(before, p);
    }
  }

  lemma {:induction false} PrefixRecords(rows: seq<Row>, log: seq<Message>, p: nat, transferId: string)
    requires IsPrefixOfLog(rows, log, p)
    ensures RecordsOf(rows, transferId) == LoggedFor(log[..|rows|], transferId)
  {
    if rows != [] {
      var n := |rows| - 1;
      PrefixRecords(rows[..n], log, p, transferId);
      assert log[..n + 1] == log[..n] + [log[n]];
      LoggedAfterAppend(log[..n], log[n], transferId);
    }
  }

  lemma {:induction false} LoggedPrefix(log: seq<Message>, n: nat, transferId: string)
    requires n <= |log|
    ensures LoggedFor(log[..n], transferId) <= LoggedFor(log, transferId)
  {
    if n == |log| {
      assert log[..n] == log;
    } else {
      LoggedPrefix(log[..|log| - 1], n, transferId);
      assert log[..|log| - 1][..n] == log[..n];
    }
  }

  lemma InitKeyed(partitioner: string -> nat, partitions: nat)
    requires partitions > 0
    ensures KeyedInv(Init(partitioner, partitions))
  {
  }

  /**
   In every reachable state the rows of a transfer that came off the bus are,
   in the order `get_records` returns them, a prefix of the records published
   for it; all of them once its partition is stored to the end.
   */
  lemma TransferRecordsArePrefix(
      partitioner: string -> nat, partitions: nat, steps: seq<Step>, transferId: string)
    requires partitions > 0 && RaisingEndsTheConsumer(steps)
    ensures var w := Reached(partitioner, partitions, steps);
            var p := PartitionOf(w, transferId);
            && BusRecords(w.rows, transferId) <= PublishedFor(w.published, transferId)
            && (Stored(w, p) == |w.logs[p]| ==>
                  BusRecords(w.rows, transferId) == PublishedFor(w.published, transferId))
  {
    hide BusRows, BusRecords, RecordsOf, LoggedFor, PublishedFor, Run;
    var w := Reached(partitioner, partitions, steps);
    var p := PartitionOf(w, transferId);
    StoredRowsArePrefixOfLog(partitioner, partitions, steps, p);
    InitKeyed(partitioner, partitions);
    RunKeepsKeys(Init(partitioner, partitions), steps);
    BusRecordsOfPartition(w.rows, p, transferId);
    PrefixRecords(BusRows(w.rows, p), w.logs[p], p, transferId);
    LoggedPrefix(w.logs[p], Stored(w, p), transferId);
    assert w.logs[p][..|w.logs[p]|] == w.logs[p];
    assert LoggedFor(w.logs[p], transferId) == PublishedFor(w.published, transferId);
  }
}
