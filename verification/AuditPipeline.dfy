/**
 The audit pipeline as a protocol of steps
 (services/audit/src/ubunturemit_audit/kafka.py over postgres_store.py).

 A step is the publication of a record, one of the three parts of `poll_once`
 (poll, insert, commit) on one consumer, or something that happens to a
 consumer: it starts, crashes, or gains and loses partitions in a rebalance.
 Any number of consumers take steps in any order, also two of them on the same
 partition.  The invariant says that the rows of every partition are, in id
 order, a prefix of the partition's log, whatever the order of the steps was.
 */
module AuditPipeline {
  import opened Wrappers
  import opened AuditStore

  const AUDIT_TOPIC := "asco.audit"

  /** A message that does not parse as an audit record is unreadable. */
  datatype Message = Readable(record: AuditRecord) | Unreadable

  /** A message that can be read, and whose record the table can hold. */
  predicate CanStore(message: Message) {
    message.Readable? && IsStorable(message.record)
  }

  /** Where a consumer is inside `poll_once`; one that raised is dead. */
  datatype Phase =
    | Idle
    | Polled(partition: nat, offset: nat)
    | Inserted(partition: nat, offset: nat)
    | Dead

  /** The next offset to fetch of every assigned partition. */
  datatype Consumer = Consumer(positions: map<nat, nat>, phase: Phase)

  /** The broker (logs, committed offsets), the table, and the consumers of the group. */
  datatype World = World(
    partitioner: string -> nat,
    logs: seq<seq<Message>>,
    published: seq<AuditRecord>,
    committed: seq<nat>,
    rows: seq<Row>,
    consumers: map<nat, Consumer>)

  datatype Step =
    | Publish(record: AuditRecord)
    | PublishUnreadable(partition: nat)
    | AppendElsewhere(record: AuditRecord, position: Option<LogPosition>)
    | Start(id: nat)
    | Crash(id: nat)
    | Assign(id: nat, partition: nat)
    | Revoke(id: nat, partition: nat)
    | Poll(id: nat, partition: nat)
    | Insert(id: nat)
    | Commit(id: nat)
    | Raise(id: nat)
    | Resume(id: nat)

  /** Records are keyed by transfer id, so every record of a transfer goes to one partition. */
  function PartitionOf(w: World, transferId: string): (p: nat)
    requires |w.logs| > 0
    ensures p < |w.logs|
  {
    w.partitioner(transferId) % |w.logs|
  }

  function Extend(w: World, p: nat, message: Message): World
    requires p < |w.logs|
  {
    w.(logs := w.logs[p := w.logs[p] + [message]])
  }

  function Become(w: World, id: nat, consumer: Consumer): World {
    w.(consumers := w.consumers[id := consumer])
  }

  function At(p: nat, offset: nat): LogPosition {
    LogPosition(AUDIT_TOPIC, p, offset)
  }

  /** The log position a consumer in the middle of `poll_once` holds a readable message of. */
  predicate Holds(w: World, p: nat, offset: nat) {
    p < |w.logs| && offset < |w.logs[p]| && w.logs[p][offset].Readable?
  }

  /** The store call of `poll_once`; a conflict or a refused text raises. */
  function InsertHeld(w: World, id: nat, consumer: Consumer, p: nat, offset: nat): World
    requires Holds(w, p, offset)
  {
    var append := AppendTo(w.rows, w.logs[p][offset].record, Some(At(p, offset)));
    Become(w.(rows := append.rows), id,
           consumer.(phase := if append.answer.Ok? then Inserted(p, offset) else Dead))
  }

  /** The fetch of `poll_once`: the position moves on even when the message turns out to be unreadable. */
  function Fetch(w: World, id: nat, consumer: Consumer, p: nat, offset: nat): World
    requires p < |w.logs| && offset < |w.logs[p]|
  {
    Become(w, id, Consumer(consumer.positions[p := offset + 1],
                           if w.logs[p][offset].Readable? then Polled(p, offset) else Dead))
  }

  /** One step; a step that is not enabled changes nothing. */
  function Next(w: World, step: Step): (w': World)
    requires |w.committed| == |w.logs| > 0
    ensures |w'.committed| == |w'.logs| == |w.logs| && w'.partitioner == w.partitioner
  {
    match step
    case Publish(record) =>
      Extend(w, PartitionOf(w, record.transferId), Readable(record)).(published := w.published + [record])
    case PublishUnreadable(p) =>
      if p < |w.logs| then Extend(w, p, Unreadable) else w
    case AppendElsewhere(record, position) =>
      if position.Some? && position.value.topic == AUDIT_TOPIC then w
      else w.(rows := AppendTo(w.rows, record, position).rows)
    case Start(id) =>
      if id in w.consumers then w else Become(w, id, Consumer(map[], Idle))
    case Crash(id) =>
      w.(consumers := w.consumers - {id})
    case _ =>
      if step.id !in w.consumers then w else ConsumerNext(w, step, w.consumers[step.id])
  }

  /** The steps of a consumer that exists. */
  function ConsumerNext(w: World, step: Step, consumer: Consumer): (w': World)
    requires |w.committed| == |w.logs| > 0
    requires step.Assign? || step.Revoke? || step.Poll? || step.Insert? || step.Commit?
             || step.Raise? || step.Resume?
    ensures |w'.committed| == |w'.logs| == |w.logs| && w'.partitioner == w.partitioner
  {
    match step
    case Assign(id, p) =>
      // `auto.offset.reset` is earliest: without a commit the partition is read from its start.
      if p < |w.logs| then Become(w, id, consumer.(positions := consumer.positions[p := w.committed[p]])) else w
    case Revoke(id, p) =>
      Become(w, id, consumer.(positions := consumer.positions - {p}))
    case Poll(id, p) =>
      if consumer.phase.Idle? && p in consumer.positions && p < |w.logs| && consumer.positions[p] < |w.logs[p]|
      then Fetch(w, id, consumer, p, consumer.positions[p]) else w
    case Insert(id) =>
      if consumer.phase.Polled? && Holds(w, consumer.phase.partition, consumer.phase.offset)
      then InsertHeld(w, id, consumer, consumer.phase.partition, consumer.phase.offset) else w
    case Commit(id) =>
      if consumer.phase.Inserted? && consumer.phase.partition < |w.logs|
      then Become(w.(committed := w.committed[consumer.phase.partition := consumer.phase.offset + 1]), id,
                  consumer.(phase := Idle))
      else w
    case Raise(id) =>
      // An exception of the broker or of the database, at any point of `poll_once`.
      Become(w, id, consumer.(phase := Dead))
    case Resume(id) =>
      // Calling `poll_once` again on an instance that raised.
      if consumer.phase.Dead? then Become(w, id, consumer.(phase := Idle)) else w
  }

  /** An empty topic of `partitions` partitions, an empty table, no consumer yet. */
  function Init(partitioner: string -> nat, partitions: nat): World {
    World(partitioner, seq(partitions, _ => []), [], seq(partitions, _ => 0), [], map[])
  }

  function Run(w: World, steps: seq<Step>): (w': World)
    requires |w.committed| == |w.logs| > 0
    ensures |w'.committed| == |w'.logs| == |w.logs| && w'.partitioner == w.partitioner
  {
    if steps == [] then w
    else
      var before := Run(w, steps[..|steps| - 1]);
      Next(before, steps[|steps| - 1])
  }

  /** An exception out of `poll_once` ends the consumer: nothing calls it again. */
  predicate RaisingEndsTheConsumer(steps: seq<Step>) {
    forall i :: 0 <= i < |steps| ==> !steps[i].Resume?
  }

  // ---------------------------------------------------------------------
  // The invariant
  // ---------------------------------------------------------------------

  predicate IsBusRow(row: Row, p: nat) {
    row.position.Some? && row.position.value.topic == AUDIT_TOPIC && row.position.value.partition == p
  }

  /** The rows of a partition, in id order. */
  function BusRows(rows: seq<Row>, p: nat): seq<Row> {
    if rows == [] then []
    else BusRows(rows[..|rows| - 1], p) + if IsBusRow(rows[|rows| - 1], p) then [rows[|rows| - 1]] else []
  }

  /** The rows are a prefix of the log: no gap, no duplicate, nothing out of order. */
  predicate IsPrefixOfLog(rows: seq<Row>, log: seq<Message>, p: nat) {
    && |rows| <= |log|
    && forall o :: 0 <= o < |rows| ==>
         log[o] == Readable(rows[o].record) && CanStore(log[o]) && rows[o].position == Some(At(p, o))
  }

  function Stored(w: World, p: nat): nat {
    |BusRows(w.rows, p)|
  }

  predicate PartitionInv(w: World, p: nat)
    requires p < |w.logs| == |w.committed|
  {
    IsPrefixOfLog(BusRows(w.rows, p), w.logs[p], p) && w.committed[p] <= Stored(w, p)
  }

  /** Some record the table can hold is sent to this partition: some key without a NUL is. */
  ghost predicate CanReceive(w: World, p: nat)
    requires |w.logs| > 0
  {
    exists key :: '\0' !in key && PartitionOf(w, key) == p
  }

  /** A fetch at this offset can only bring a message that is not stored. */
  ghost predicate OnlyRaisesAt(w: World, p: nat, offset: nat)
    requires p < |w.logs|
  {
    if offset < |w.logs[p]| then !CanStore(w.logs[p][offset]) else !CanReceive(w, p)
  }

  /** Every position of a consumer is on an assigned log or at its end. */
  predicate InLog(w: World, consumer: Consumer) {
    forall p :: p in consumer.positions ==> p < |w.logs| && consumer.positions[p] <= |w.logs[p]|
  }

  /**
   A consumer is at most one message ahead of the table, and then it holds that
   message.  The lenient form also lets it be further ahead where it can only raise.
   */
  ghost predicate PositionInv(w: World, consumer: Consumer, p: nat, lenient: bool)
    requires p in consumer.positions && InLog(w, consumer)
  {
    consumer.positions[p] <= Stored(w, p)
    || (consumer.phase.Polled? && consumer.phase.partition == p && consumer.positions[p] <= consumer.phase.offset + 1)
    || (lenient && OnlyRaisesAt(w, p, consumer.positions[p]))
  }

  predicate PhaseInv(w: World, phase: Phase, lenient: bool) {
    match phase
    case Polled(p, o) => Holds(w, p, o) && (o <= Stored(w, p) || (lenient && !CanStore(w.logs[p][o])))
    case Inserted(p, o) => p < |w.logs| && o < Stored(w, p)
    case _ => true
  }

  ghost predicate ConsumerInv(w: World, consumer: Consumer, lenient: bool) {
    && InLog(w, consumer)
    && (consumer.phase.Dead?
        || (PhaseInv(w, consumer.phase, lenient)
            && forall p :: p in consumer.positions ==> PositionInv(w, consumer, p, lenient)))
  }

  ghost predicate LenientInv(w: World, lenient: bool) {
    && |w.committed| == |w.logs| > 0
    && (forall p :: 0 <= p < |w.logs| ==> PartitionInv(w, p))
    && (forall id :: id in w.consumers ==> ConsumerInv(w, w.consumers[id], lenient))
  }

  /** The invariant of every run in which an exception ends its consumer. */
  ghost predicate Inv(w: World) {
    LenientInv(w, false)
  }

  /** Logs and stored rows only ever grow, and a message that can be stored only where a key is sent. */
  ghost predicate Grows(w: World, w': World) {
    && |w'.logs| == |w.logs| > 0 && w'.partitioner == w.partitioner
    && (forall p :: 0 <= p < |w.logs| ==> LogGrows(w, w', p))
    && (forall p :: Stored(w, p) <= Stored(w', p))
  }

  ghost predicate LogGrows(w: World, w': World, p: nat)
    requires p < |w.logs| == |w'.logs|
  {
    && w.logs[p] <= w'.logs[p]
    && forall o :: |w.logs[p]| <= o < |w'.logs[p]| && CanStore(w'.logs[p][o]) ==> CanReceive(w, p)
  }

  /** A consumer may move on to another phase once the table has what it polled. */
  lemma PositionInvAdvances(w: World, w': World, consumer: Consumer, phase: Phase, p: nat, lenient: bool)
    requires Grows(w, w') && p in consumer.positions && InLog(w, consumer) && InLog(w', consumer)
    requires PositionInv(w, consumer, p, lenient)
    requires phase == consumer.phase || !consumer.phase.Polled? || consumer.phase.partition != p
             || consumer.phase.offset < Stored(w', p)
    ensures PositionInv(w', consumer.(phase := phase), p, lenient)
  {
    hide BusRows;
    assert Stored(w, p) <= Stored(w', p) && LogGrows(w, w', p);
    assert CanReceive(w', p) ==> CanReceive(w, p) by {
      if key :| '\0' !in key && PartitionOf(w', key) == p {
        assert PartitionOf(w, key) == p;
      }
    }
  }

  lemma ConsumerInvGrows(w: World, w': World, consumer: Consumer, lenient: bool)
    requires Grows(w, w') && ConsumerInv(w, consumer, lenient)
    ensures ConsumerInv(w', consumer, lenient)
  {
    hide BusRows, PositionInv;
    forall p | p in consumer.positions ensures p < |w'.logs| && consumer.positions[p] <= |w'.logs[p]| {
      assert LogGrows(w, w', p);
    }
    if !consumer.phase.Dead? {
      forall p | p in consumer.positions ensures PositionInv(w', consumer, p, lenient) {
        PositionInvAdvances(w, w', consumer, consumer.phase, p, lenient);
      }
      if consumer.phase.Polled? || consumer.phase.Inserted? {
        assert LogGrows(w, w', consumer.phase.partition);
        assert Stored(w, consumer.phase.partition) <= Stored(w', consumer.phase.partition);
      }
    }
  }

  /** What a step has to show: partitions stay right, and so does the one consumer it touches. */
  lemma InvFromParts(w: World, w': World, touched: set<nat>, lenient: bool)
    requires LenientInv(w, lenient) && Grows(w, w') && |w'.committed| == |w'.logs|
    requires forall p :: 0 <= p < |w'.logs| ==> PartitionInv(w', p)
    requires forall id :: id in w'.consumers && id !in touched ==>
               id in w.consumers && w'.consumers[id] == w.consumers[id]
    requires forall id :: id in w'.consumers && id in touched ==> ConsumerInv(w', w'.consumers[id], lenient)
    ensures LenientInv(w', lenient)
  {
    hide PartitionInv, ConsumerInv, BusRows;
    forall id | id in w'.consumers ensures ConsumerInv(w', w'.consumers[id], lenient) {
      if id !in touched {
        ConsumerInvGrows(w, w', w'.consumers[id], lenient);
      }
    }
  }

  // ---------------------------------------------------------------------
  // Rows of one partition
  // ---------------------------------------------------------------------

  lemma BusRowsAfterAppend(rows: seq<Row>, row: Row, p: nat)
    ensures BusRows(rows + [row], p) == BusRows(rows, p) + if IsBusRow(row, p) then [row] else []
  {
    assert (rows + [row])[..|rows|] == rows;
  }

  lemma {:induction false} BusRowsAreTheRows(rows: seq<Row>, p: nat, row: Row)
    requires IsBusRow(row, p)
    ensures row in BusRows(rows, p) <==> row in rows
  {
    if rows != [] {
      BusRowsAreTheRows(rows[..|rows| - 1], p, row);
      assert rows == rows[..|rows| - 1] + [rows[|rows| - 1]];
    }
  }

  /** A position of a partition that is a prefix of its log is taken exactly below the stored count, and by its
    * own record. */
  lemma FindInPrefix(w: World, p: nat, o: nat)
    requires p < |w.logs| == |w.committed| && PartitionInv(w, p)
    ensures Find(w.rows, At(p, o)) == if o < Stored(w, p) then Some(w.logs[p][o].record) else None
  {
    hide BusRows, Find;
    var rows := BusRows(w.rows, p);
    if o < |rows| {
      BusRowsAreTheRows(w.rows, p, rows[o]);
    }
    if Find(w.rows, At(p, o)).Some? {
      var row := Row(Find(w.rows, At(p, o)).value, Some(At(p, o)));
      BusRowsAreTheRows(w.rows, p, row);
      var i :| 0 <= i < |rows| && rows[i] == row;
    }
  }

  // ---------------------------------------------------------------------
  // Every step keeps the invariant
  // ---------------------------------------------------------------------

  lemma ExtendKeepsInv(w: World, w': World, p: nat, message: Message, lenient: bool)
    requires LenientInv(w, lenient) && p < |w.logs|
    requires w'.logs == Extend(w, p, message).logs && w'.partitioner == w.partitioner
    requires CanStore(message) ==> CanReceive(w, p)
    requires w'.rows == w.rows && w'.committed == w.committed && w'.consumers == w.consumers
    ensures LenientInv(w', lenient)
  {
    hide BusRows, CanReceive, ConsumerInv;
    forall q | 0 <= q < |w'.logs| ensures PartitionInv(w', q) && LogGrows(w, w', q) {
      assert PartitionInv(w, q);
    }
    InvFromParts(w, w', {}, lenient);
  }

  lemma ElsewhereKeepsInv(w: World, record: AuditRecord, position: Option<LogPosition>, lenient: bool)
    requires LenientInv(w, lenient) && (position.Some? ==> position.value.topic != AUDIT_TOPIC)
    ensures LenientInv(w.(rows := AppendTo(w.rows, record, position).rows), lenient)
  {
    hide BusRows, PartitionInv;
    var w' := w.(rows := AppendTo(w.rows, record, position).rows);
    forall p: nat ensures BusRows(w'.rows, p) == BusRows(w.rows, p) {
      BusRowsAfterAppend(w.rows, Row(record, position), p);
    }
    forall p | 0 <= p < |w.logs| ensures PartitionInv(w', p) {
      SameRowsSameInv(w, w', p);
    }
    InvFromParts(w, w', {}, lenient);
  }

  lemma SameRowsSameInv(w: World, w': World, p: nat)
    requires |w'.logs| == |w.logs| == |w.committed| && w'.committed == w.committed && p < |w.logs|
    requires PartitionInv(w, p) && w'.logs == w.logs && BusRows(w'.rows, p) == BusRows(w.rows, p)
    ensures PartitionInv(w', p)
  {
  }

  /** A step that only changes one consumer. */
  lemma BecomeKeepsInv(w: World, id: nat, consumer: Consumer, lenient: bool)
    requires LenientInv(w, lenient) && ConsumerInv(w, consumer, lenient)
    ensures LenientInv(Become(w, id, consumer), lenient)
  {
    hide BusRows, PartitionInv, IsPrefixOfLog;
    var w' := Become(w, id, consumer);
    forall p | 0 <= p < |w.logs| ensures PartitionInv(w', p) {
      assert PartitionInv(w, p);
      SameRowsSameInv(w, w', p);
    }
    assert ConsumerInv(w', consumer, lenient) by {
      ConsumerInvGrows(w, w', consumer, lenient);
    }
    InvFromParts(w, w', {id}, lenient);
  }

  lemma FetchedInv(w: World, consumer: Consumer, p: nat, lenient: bool)
    requires LenientInv(w, lenient) && ConsumerInv(w, consumer, lenient) && consumer.phase.Idle?
    requires p in consumer.positions && p < |w.logs| && consumer.positions[p] < |w.logs[p]|
    ensures var o := consumer.positions[p];
            ConsumerInv(w, Consumer(consumer.positions[p := o + 1],
                                    if w.logs[p][o].Readable? then Polled(p, o) else Dead), lenient)
  {
    hide BusRows, PartitionInv, CanReceive;
    var o := consumer.positions[p];
    assert PositionInv(w, consumer, p, lenient);
    var fetched := Consumer(consumer.positions[p := o + 1], Polled(p, o));
    if w.logs[p][o].Unreadable? {
      return;
    }
    forall q | q in fetched.positions ensures PositionInv(w, fetched, q, lenient) {
      if q != p {
        assert PositionInv(w, consumer, q, lenient);
      }
    }
  }

  /** The table after an insert that the invariant allows: one more row at the end of the prefix, or the same rows. */
  lemma InsertedRows(w: World, p: nat, o: nat)
    requires p < |w.logs| == |w.committed| && PartitionInv(w, p) && Holds(w, p, o) && o <= Stored(w, p)
    requires CanStore(w.logs[p][o])
    ensures var append := AppendTo(w.rows, w.logs[p][o].record, Some(At(p, o)));
            && append.answer == Ok(o == Stored(w, p))
            && append.rows == if o < Stored(w, p) then w.rows
                              else w.rows + [Row(w.logs[p][o].record, Some(At(p, o)))]
  {
    hide BusRows, Find, PartitionInv;
    FindInPrefix(w, p, o);
  }

  lemma InsertGrows(w: World, p: nat, o: nat, q: nat)
    requires p < |w.logs| == |w.committed| && PartitionInv(w, p) && Holds(w, p, o) && o <= Stored(w, p)
    requires CanStore(w.logs[p][o])
    requires q < |w.logs| ==> PartitionInv(w, q)
    ensures var w' := w.(rows := AppendTo(w.rows, w.logs[p][o].record, Some(At(p, o))).rows);
            && Stored(w', q) == (if q == p && o == Stored(w, p) then o + 1 else Stored(w, q))
            && (q < |w.logs| ==> PartitionInv(w', q))
  {
    hide BusRows, Find;
    InsertedRows(w, p, o);
    if o == Stored(w, p) {
      BusRowsAfterAppend(w.rows, Row(w.logs[p][o].record, Some(At(p, o))), q);
    }
  }

  /** A record the columns refuse ends the consumer and leaves the table alone. */
  lemma RefusedInsert(w: World, id: nat, consumer: Consumer)
    requires consumer.phase.Polled? && Holds(w, consumer.phase.partition, consumer.phase.offset)
    requires !CanStore(w.logs[consumer.phase.partition][consumer.phase.offset])
    ensures InsertHeld(w, id, consumer, consumer.phase.partition, consumer.phase.offset)
         == Become(w, id, consumer.(phase := Dead))
  {
    hide IsStorable;
  }

  lemma InsertKeepsInv(w: World, id: nat, consumer: Consumer, lenient: bool)
    requires LenientInv(w, lenient) && ConsumerInv(w, consumer, lenient) && consumer.phase.Polled?
    ensures LenientInv(InsertHeld(w, id, consumer, consumer.phase.partition, consumer.phase.offset), lenient)
  {
    hide BusRows, Find, PartitionInv, AppendTo, PositionInv, CanReceive, IsStorable;
    var p, o := consumer.phase.partition, consumer.phase.offset;
    if !CanStore(w.logs[p][o]) {
      RefusedInsert(w, id, consumer);
      DyingIsBounded(w, consumer, lenient);
      BecomeKeepsInv(w, id, consumer.(phase := Dead), lenient);
      return;
    }
    var w' := InsertHeld(w, id, consumer, p, o);
    assert PartitionInv(w, p);
    InsertedRows(w, p, o);
    forall q: nat ensures Stored(w', q) == (if q == p && o == Stored(w, p) then o + 1 else Stored(w, q))
    {
      InsertGrows(w, p, o, q);
    }
    forall q | 0 <= q < |w.logs| ensures PartitionInv(w', q) {
      assert PartitionInv(w, q);
      InsertGrows(w, p, o, q);
      var only := w.(rows := w'.rows);
      SameRowsSameInv(only, w', q);
    }
    var inserted := consumer.(phase := Inserted(p, o));
    forall q | q in inserted.positions ensures PositionInv(w', inserted, q, lenient) {
      PositionInvAdvances(w, w', consumer, Inserted(p, o), q, lenient);
    }
    InvFromParts(w, w', {id}, lenient);
  }

  lemma CommitKeepsInv(w: World, id: nat, consumer: Consumer, lenient: bool)
    requires LenientInv(w, lenient) && ConsumerInv(w, consumer, lenient) && consumer.phase.Inserted?
    ensures var p, o := consumer.phase.partition, consumer.phase.offset;
            LenientInv(Become(w.(committed := w.committed[p := o + 1]), id, consumer.(phase := Idle)), lenient)
  {
    hide BusRows, IsPrefixOfLog, PositionInv, CanReceive;
    var p, o := consumer.phase.partition, consumer.phase.offset;
    var w' := Become(w.(committed := w.committed[p := o + 1]), id, consumer.(phase := Idle));
    forall q | 0 <= q < |w.logs| ensures PartitionInv(w', q) {
      assert PartitionInv(w, q);
    }
    var idle := consumer.(phase := Idle);
    forall q | q in idle.positions ensures PositionInv(w', idle, q, lenient) {
      PositionInvAdvances(w, w', consumer, Idle, q, lenient);
    }
    InvFromParts(w, w', {id}, lenient);
  }

  lemma RemovalKeepsInv(w: World, id: nat, lenient: bool)
    requires LenientInv(w, lenient)
    ensures LenientInv(w.(consumers := w.consumers - {id}), lenient)
  {
    hide BusRows, PartitionInv, ConsumerInv;
    var w' := w.(consumers := w.consumers - {id});
    forall p | 0 <= p < |w.logs| ensures PartitionInv(w', p) {
      assert PartitionInv(w, p);
      SameRowsSameInv(w, w', p);
    }
    InvFromParts(w, w', {}, lenient);
  }

  lemma StoredIsInLog(w: World, p: nat)
    requires p < |w.logs| == |w.committed| && PartitionInv(w, p)
    ensures w.committed[p] <= Stored(w, p) <= |w.logs[p]|
  {
    hide BusRows;
  }

  lemma AssignKeepsInv(w: World, id: nat, consumer: Consumer, p: nat, lenient: bool)
    requires LenientInv(w, lenient) && ConsumerInv(w, consumer, lenient) && p < |w.logs|
    ensures LenientInv(Become(w, id, consumer.(positions := consumer.positions[p := w.committed[p]])), lenient)
  {
    hide BusRows, IsPrefixOfLog;
    var given := consumer.(positions := consumer.positions[p := w.committed[p]]);
    assert PartitionInv(w, p) && w.committed[p] <= |w.logs[p]| by {
      assert PartitionInv(w, p);
      StoredIsInLog(w, p);
    }
    assert InLog(w, given);
    if !consumer.phase.Dead? {
      forall q | q in given.positions ensures PositionInv(w, given, q, lenient) {
        if q != p {
          assert PositionInv(w, consumer, q, lenient);
        }
      }
    }
    BecomeKeepsInv(w, id, given, lenient);
  }

  lemma RevokeKeepsInv(w: World, id: nat, consumer: Consumer, p: nat, lenient: bool)
    requires LenientInv(w, lenient) && ConsumerInv(w, consumer, lenient)
    ensures LenientInv(Become(w, id, consumer.(positions := consumer.positions - {p})), lenient)
  {
    hide BusRows, PartitionInv;
    var revoked := consumer.(positions := consumer.positions - {p});
    if !consumer.phase.Dead? {
      forall q | q in revoked.positions ensures PositionInv(w, revoked, q, lenient) {
        assert PositionInv(w, consumer, q, lenient);
      }
    }
    BecomeKeepsInv(w, id, revoked, lenient);
  }

  /** The steps that belong to a consumer that exists. */
  predicate IsConsumerStep(step: Step) {
    step.Assign? || step.Revoke? || step.Poll? || step.Insert? || step.Commit? || step.Raise?
  }

  lemma ConsumerStepKeepsInv(w: World, step: Step, lenient: bool)
    requires LenientInv(w, lenient) && IsConsumerStep(step) && step.id in w.consumers
    ensures LenientInv(ConsumerNext(w, step, w.consumers[step.id]), lenient)
  {
    hide PartitionInv, Inv, ConsumerInv, InsertHeld, BusRows;
    var consumer := w.consumers[step.id];
    assert ConsumerInv(w, consumer, lenient) && |w.committed| == |w.logs| by {
      ConsumersAreBounded(w, step.id, lenient);
    }
    match step
    case Assign(id, p) =>
      if p < |w.logs| {
        AssignKeepsInv(w, id, consumer, p, lenient);
      }
    case Revoke(id, p) =>
      RevokeKeepsInv(w, id, consumer, p, lenient);
    case Poll(id, p) =>
      if consumer.phase.Idle? && p in consumer.positions && p < |w.logs| && consumer.positions[p] < |w.logs[p]| {
        FetchedInv(w, consumer, p, lenient);
        BecomeKeepsInv(w, id, Consumer(consumer.positions[p := consumer.positions[p] + 1],
          if w.logs[p][consumer.positions[p]].Readable? then Polled(p, consumer.positions[p]) else Dead), lenient);
      }
    case Insert(id) =>
      if consumer.phase.Polled? && Holds(w, consumer.phase.partition, consumer.phase.offset) {
        InsertKeepsInv(w, id, consumer, lenient);
      }
    case Commit(id) =>
      if consumer.phase.Inserted? && consumer.phase.partition < |w.logs| {
        CommitKeepsInv(w, id, consumer, lenient);
      }
    case Raise(id) =>
      DyingIsBounded(w, consumer, lenient);
      BecomeKeepsInv(w, id, consumer.(phase := Dead), lenient);
  }

  lemma ConsumersAreBounded(w: World, id: nat, lenient: bool)
    requires LenientInv(w, lenient) && id in w.consumers
    ensures ConsumerInv(w, w.consumers[id], lenient) && |w.committed| == |w.logs| > 0
  {
  }

  /** No step can break the invariant. */
  lemma NextKeepsInv(w: World, step: Step, lenient: bool)
    requires LenientInv(w, lenient) && !step.Resume?
    ensures LenientInv(Next(w, step), lenient)
  {
    hide PartitionInv, ConsumerInv, BusRows, AppendTo;
    if IsConsumerStep(step) {
      if step.id in w.consumers {
        ConsumerStepKeepsInv(w, step, lenient);
      }
      return;
    }
    match step
    case Publish(record) =>
      assert IsStorable(record) ==> CanReceive(w, PartitionOf(w, record.transferId));
      ExtendKeepsInv(w, Next(w, step), PartitionOf(w, record.transferId), Readable(record), lenient);
    case PublishUnreadable(p) =>
      if p < |w.logs| {
        ExtendKeepsInv(w, Next(w, step), p, Unreadable, lenient);
      }
    case AppendElsewhere(record, position) =>
      if position.None? || position.value.topic != AUDIT_TOPIC {
        ElsewhereKeepsInv(w, record, position, lenient);
      }
    case Start(id) =>
      if id !in w.consumers {
        assert ConsumerInv(w, Consumer(map[], Idle), lenient) by {
          FreshConsumer(w, lenient);
        }
        BecomeKeepsInv(w, id, Consumer(map[], Idle), lenient);
      }
    case Crash(id) =>
      RemovalKeepsInv(w, id, lenient);
    case _ =>
  }

  lemma DyingIsBounded(w: World, consumer: Consumer, lenient: bool)
    requires ConsumerInv(w, consumer, lenient)
    ensures ConsumerInv(w, consumer.(phase := Dead), lenient)
  {
    hide PositionInv;
  }

  lemma FreshConsumer(w: World, lenient: bool)
    ensures ConsumerInv(w, Consumer(map[], Idle), lenient)
  {
  }

  lemma InitInv(partitioner: string -> nat, partitions: nat)
    requires partitions > 0
    ensures Inv(Init(partitioner, partitions))
  {
  }

  /**
   However the steps are interleaved, and over any number of consumers, the
   invariant holds at every point of every run.
   */
  lemma {:induction false} RunKeepsInv(w: World, steps: seq<Step>, lenient: bool)
    requires LenientInv(w, lenient) && RaisingEndsTheConsumer(steps)
    ensures LenientInv(Run(w, steps), lenient)
  {
    hide PartitionInv, ConsumerInv, Next;
    if steps != [] {
      RunKeepsInv(w, steps[..|steps| - 1], lenient);
      NextKeepsInv(Run(w, steps[..|steps| - 1]), steps[|steps| - 1], lenient);
    }
  }

  lemma EmptyRun(w: World)
    requires |w.committed| == |w.logs| > 0
    ensures Run(w, []) == w
  {
  }

  lemma RunThen(w: World, steps: seq<Step>, step: Step)
    requires |w.committed| == |w.logs| > 0
    ensures Run(w, steps + [step]) == Next(Run(w, steps), step)
  {
    assert (steps + [step])[..|steps|] == steps;
  }

  lemma {:induction false} RunJoins(w: World, first: seq<Step>, second: seq<Step>)
    requires |w.committed| == |w.logs| > 0
    ensures Run(w, first + second) == Run(Run(w, first), second)
    decreases second
  {
    if second == [] {
      assert first + second == first;
    } else {
      RunJoins(w, first, second[..|second| - 1]);
      assert (first + second)[..|first + second| - 1] == first + second[..|second| - 1];
    }
  }
}
