/**
 The two ends of the audit topic (services/audit/src/ubunturemit_audit/kafka.py):
 the logger that publishes a record and the consumer that moves records into
 the store.  Each call is proved to be a sequence of steps of the pipeline, so
 the guarantees of the pipeline are guarantees of these methods.

 What the broker and the database answer is a parameter of each call.
 */
module AuditConsumer {
  import opened Wrappers
  import opened AuditStore
  import opened AuditPipeline
  import opened AuditResume

  /** The audit topic and the committed offsets of the consumer group. */
  class Broker {
    const partitioner: string -> nat
    var logs: seq<seq<Message>>
    var published: seq<AuditRecord>
    var committed: seq<nat>

    ghost predicate Valid()
      reads this
    {
      |committed| == |logs| > 0
    }

    constructor (partitioner: string -> nat, partitions: nat)
      requires partitions > 0
      ensures Valid() && this.partitioner == partitioner
      ensures logs == seq(partitions, _ => []) && published == [] && committed == seq(partitions, _ => 0)
    {
      this.partitioner := partitioner;
      logs := seq(partitions, _ => []);
      published := [];
      committed := seq(partitions, _ => 0);
    }

    /** The broker beside a table and the consumers of the group, as a state of the pipeline. */
    ghost function View(rows: seq<Row>, consumers: map<nat, Consumer>): (w: World)
      requires Valid()
      reads this
      ensures |w.committed| == |w.logs| > 0
    {
      World(partitioner, logs, published, committed, rows, consumers)
    }

    function Partition(transferId: string): (p: nat)
      requires Valid()
      reads this
      ensures p < |logs|
    {
      partitioner(transferId) % |logs|
    }

    method Append(record: AuditRecord)
      requires Valid()
      modifies this
      ensures Valid() && committed == old(committed)
      ensures published == old(published) + [record]
      ensures var p := old(Partition(record.transferId));
              logs == old(logs)[p := old(logs)[p] + [Readable(record)]]
    {
      var p := Partition(record.transferId);
      logs := logs[p := logs[p] + [Readable(record)]];
      published := published + [record];
    }
  }

  // ---------------------------------------------------------------------
  // The logger
  // ---------------------------------------------------------------------

  /** What becomes of one send; an unacknowledged one may still be in the log. */
  datatype Delivery =
    | ProduceRaises
    | Acknowledged
    | RejectedByBroker
    | Unacknowledged(inLog: bool)

  datatype LoggerError = AuditLogUnavailable

  /** The record is in the log, whether or not the logger got to know. */
  predicate IsKept(delivery: Delivery) {
    delivery.Acknowledged? || delivery == Unacknowledged(true)
  }

  /** One call of `log_record` as steps of the pipeline. */
  function LogSteps(record: AuditRecord, delivery: Delivery): seq<Step> {
    if IsKept(delivery) then [Publish(record)] else []
  }

  lemma LoggedRun(w: World, record: AuditRecord, delivery: Delivery)
    requires |w.committed| == |w.logs| > 0
    ensures Run(w, LogSteps(record, delivery)) == if IsKept(delivery) then Next(w, Publish(record)) else w
  {
    EmptyRun(w);
    RunThen(w, [], Publish(record));
    assert [] + [Publish(record)] == [Publish(record)];
  }

  class KafkaAuditLogger {
    const broker: Broker

    constructor (broker: Broker)
      ensures this.broker == broker
    {
      this.broker := broker;
    }

    /**
     Returns only for an acknowledged record, which is then the last message of
     its transfer's partition; raises otherwise, and leaves at most this record.
     Beside any table and any consumers this is a publishing step or none.
     */
    method LogRecord(
        record: AuditRecord, delivery: Delivery, ghost rows: seq<Row>, ghost consumers: map<nat, Consumer>)
      returns (answer: Result<(), LoggerError>)
      requires broker.Valid()
      modifies broker
      ensures broker.Valid() && (answer.Ok? <==> delivery.Acknowledged?)
      ensures broker.View(rows, consumers) == Run(old(broker.View(rows, consumers)), LogSteps(record, delivery))
      ensures broker.published
           == old(broker.published)
              + if delivery == Acknowledged || delivery == Unacknowledged(true) then [record] else []
      ensures answer.Ok? ==>
                var log := broker.logs[old(broker.Partition(record.transferId))];
                log != [] && log[|log| - 1] == Readable(record)
    {
      LoggedRun(broker.View(rows, consumers), record, delivery);
      var errors: seq<Delivery> := [];
      if delivery.ProduceRaises? {
        return Err(AuditLogUnavailable);
      }
      // The flush waits for the delivery report.
      var unflushed := 0;
      match delivery {
        case Acknowledged => broker.Append(record);
        case RejectedByBroker => errors := errors + [delivery];
        case Unacknowledged(inLog) =>
          if inLog {
            broker.Append(record);
          }
          unflushed := 1;
      }
      if unflushed > 0 {
        return Err(AuditLogUnavailable);
      }
      if errors != [] {
        return Err(AuditLogUnavailable);
      }
      return Ok(());
    }
  }

  // ---------------------------------------------------------------------
  // The consumer
  // ---------------------------------------------------------------------

  /** What the poll brings: nothing in time, an error, or the next message of an assigned partition. */
  datatype Arrival = NothingInTime | ErrorEvent | NextOf(partition: nat)

  /** Whether a call to the database or the broker goes through; one that raises may have taken effect. */
  datatype Effect = Works | RaisesBefore | RaisesAfter

  datatype Surroundings = Surroundings(arrival: Arrival, insert: Effect, commit: Effect)

  datatype ConsumerError = KafkaException | MalformedAuditMessage | StoreFailure

  predicate HasRaised(w: World, id: nat) {
    id in w.consumers && w.consumers[id].phase.Dead?
  }

  /** The poll finds a message. */
  predicate HasNext(w: World, id: nat, arrival: Arrival) {
    arrival.NextOf? && arrival.partition < |w.logs| && id in w.consumers
    && arrival.partition in w.consumers[id].positions
    && w.consumers[id].positions[arrival.partition] < |w.logs[arrival.partition]|
  }

  /** One call of `poll_once` as steps of the pipeline. */
  function AfterPollOnce(w: World, id: nat, s: Surroundings): (w': World)
    requires |w.committed| == |w.logs| > 0
    ensures |w'.committed| == |w'.logs| > 0
  {
    if HasNext(w, id, s.arrival) then AfterPoll(Next(w, Poll(id, s.arrival.partition)), id, s)
    else if s.arrival.ErrorEvent? then Next(w, Raise(id))
    else w
  }

  function AfterPoll(polled: World, id: nat, s: Surroundings): (w': World)
    requires |polled.committed| == |polled.logs| > 0
    ensures |w'.committed| == |w'.logs| > 0
  {
    if HasRaised(polled, id) then polled
    else if s.insert.RaisesBefore? then Next(polled, Raise(id))
    else AfterInsert(Next(polled, Insert(id)), id, s)
  }

  function AfterInsert(inserted: World, id: nat, s: Surroundings): (w': World)
    requires |inserted.committed| == |inserted.logs| > 0
    ensures |w'.committed| == |w'.logs| > 0
  {
    if HasRaised(inserted, id) then inserted
    else if s.insert.RaisesAfter? || s.commit.RaisesBefore? then Next(inserted, Raise(id))
    else if s.commit.RaisesAfter? then Next(Next(inserted, Commit(id)), Raise(id))
    else Next(inserted, Commit(id))
  }

  /** Whatever the broker and the database answer, a call of `poll_once` keeps the invariant of the pipeline. */
  lemma PollOnceKeepsInv(w: World, id: nat, s: Surroundings, lenient: bool)
    requires LenientInv(w, lenient)
    ensures LenientInv(AfterPollOnce(w, id, s), lenient)
  {
    hide PartitionInv, ConsumerInv, Next;
    NextKeepsInv(w, Raise(id), lenient);
    if HasNext(w, id, s.arrival) {
      var polled := Next(w, Poll(id, s.arrival.partition));
      NextKeepsInv(w, Poll(id, s.arrival.partition), lenient);
      NextKeepsInv(polled, Raise(id), lenient);
      NextKeepsInv(polled, Insert(id), lenient);
      var inserted := Next(polled, Insert(id));
      NextKeepsInv(inserted, Raise(id), lenient);
      NextKeepsInv(inserted, Commit(id), lenient);
      NextKeepsInv(Next(inserted, Commit(id)), Raise(id), lenient);
    }
  }

  /** A call on a consumer that may have raised: it is between two calls again. */
  function AfterCall(w: World, id: nat, s: Surroundings): (w': World)
    requires |w.committed| == |w.logs| > 0
    ensures |w'.committed| == |w'.logs| > 0
  {
    AfterPollOnce(Next(w, Resume(id)), id, s)
  }

  /** A call leaves every guarantee standing unless it is made after an exception where that is not safe. */
  lemma CallKeepsGuarantees(w: World, id: nat, s: Surroundings)
    requires LenientInv(w, true)
    requires HasRaised(w, id) ==> SafeToResume(w, w.consumers[id])
    ensures LenientInv(AfterCall(w, id, s), true) && Guaranteed(AfterCall(w, id, s))
  {
    hide AfterPollOnce, Guaranteed, SafeToResume, PartitionInv, ConsumerInv;
    if HasRaised(w, id) {
      SafeResumeKeepsInv(w, true, id);
    }
    PollOnceKeepsInv(Next(w, Resume(id)), id, s, true);
    InvGuarantees(AfterCall(w, id, s), true);
  }

  /** What a call that finds a message leaves, all at once. */
  function Effects(w: World, id: nat, p: nat, s: Surroundings): World
    requires HasNext(w, id, NextOf(p)) && |w.committed| == |w.logs|
  {
    var offset := w.consumers[id].positions[p];
    var positions := w.consumers[id].positions[p := offset + 1];
    if w.logs[p][offset].Unreadable? || s.insert.RaisesBefore? then Become(w, id, Consumer(positions, Dead))
    else
      var append := AppendTo(w.rows, w.logs[p][offset].record, Some(At(p, offset)));
      if append.answer.Err? || s.insert.RaisesAfter? || s.commit.RaisesBefore? then
        Become(w.(rows := append.rows), id, Consumer(positions, Dead))
      else
        Become(w.(rows := append.rows, committed := w.committed[p := offset + 1]), id,
               Consumer(positions, if s.commit.RaisesAfter? then Dead else Idle))
  }

  /** What the call returns or raises. */
  function Answer(w: World, id: nat, s: Surroundings): Result<Option<AuditRecord>, ConsumerError> {
    if !HasNext(w, id, s.arrival) then if s.arrival.ErrorEvent? then Err(KafkaException) else Ok(None)
    else
      var p, offset := s.arrival.partition, w.consumers[id].positions[s.arrival.partition];
      if w.logs[p][offset].Unreadable? then Err(MalformedAuditMessage)
      else if s.insert.RaisesBefore? || s.insert.RaisesAfter?
              || AppendTo(w.rows, w.logs[p][offset].record, Some(At(p, offset))).answer.Err? then Err(StoreFailure)
      else if !s.commit.Works? then Err(KafkaException)
      else Ok(Some(w.logs[p][offset].record))
  }

  /** A message is at the position of the consumer on this partition. */
  predicate IsAhead(w: World, id: nat, arrival: Arrival, p: nat, offset: nat) {
    arrival == NextOf(p) && p < |w.logs| && id in w.consumers && p in w.consumers[id].positions
    && offset == w.consumers[id].positions[p] < |w.logs[p]|
  }

  /** What a call that finds a message answers, by the message and what the database and the broker do. */
  lemma AnswersExactlyWhen(w: World, id: nat, s: Surroundings, p: nat, offset: nat)
    requires IsAhead(w, id, s.arrival, p, offset)
    ensures var answer, message := Answer(w, id, s), w.logs[p][offset];
            var held := Find(w.rows, At(p, offset));
            var stores := message.Readable? && IsStorable(message.record) && s.insert.Works?
                          && (held.None? || held == Some(message.record));
            && (answer == Err(MalformedAuditMessage) <==> message.Unreadable?)
            && (answer == Err(StoreFailure) <==> message.Readable? && !stores)
            && (answer == Err(KafkaException) <==> stores && !s.commit.Works?)
            && (answer.Ok? <==> stores && s.commit.Works?)
            && (answer.Ok? ==> answer.value == Some(message.record))
  {
    hide IsStorable, Find;
  }

  /** And without one. */
  lemma AnswersWithoutAMessage(w: World, id: nat, s: Surroundings)
    requires forall p, offset :: !IsAhead(w, id, s.arrival, p, offset)
    ensures Answer(w, id, s) == if s.arrival.ErrorEvent? then Err(KafkaException) else Ok(None)
  {
    assert HasNext(w, id, s.arrival) ==>
      IsAhead(w, id, s.arrival, s.arrival.partition, w.consumers[id].positions[s.arrival.partition]);
  }

  lemma UpdateTwice<K, V>(m: map<K, V>, key: K, first: V, second: V)
    ensures m[key := first][key := second] == m[key := second]
  {
  }

  lemma BecomeTwice(w: World, id: nat, first: Consumer, second: Consumer)
    ensures Become(Become(w, id, first), id, second) == Become(w, id, second)
  {
    UpdateTwice(w.consumers, id, first, second);
  }

  lemma EffectsAreSteps(w: World, id: nat, p: nat, s: Surroundings)
    requires HasNext(w, id, NextOf(p)) && |w.committed| == |w.logs| && w.consumers[id].phase.Idle?
    ensures s.arrival == NextOf(p) ==> AfterPollOnce(w, id, s) == Effects(w, id, p, s)
  {
    hide AppendTo;
    var offset := w.consumers[id].positions[p];
    var positions := w.consumers[id].positions[p := offset + 1];
    var polled := Next(w, Poll(id, p));
    if w.logs[p][offset].Readable? {
      assert polled == Become(w, id, Consumer(positions, Polled(p, offset)));
      BecomeTwice(w, id, Consumer(positions, Polled(p, offset)), Consumer(positions, Dead));
      InsertEffects(w, polled, id, Consumer(positions, Polled(p, offset)), p, offset, s,
                    AppendTo(w.rows, w.logs[p][offset].record, Some(At(p, offset))));
    }
  }

  lemma InsertEffects(
      w: World, polled: World, id: nat, consumer: Consumer, p: nat, offset: nat, s: Surroundings, append: Append)
    requires |w.committed| == |w.logs| && Holds(w, p, offset) && consumer.phase == Polled(p, offset)
    requires polled == Become(w, id, consumer)
    requires append == AppendTo(w.rows, w.logs[p][offset].record, Some(At(p, offset)))
    ensures AfterInsert(Next(polled, Insert(id)), id, s)
         == if append.answer.Err? || s.insert.RaisesAfter? || s.commit.RaisesBefore? then
              Become(w.(rows := append.rows), id, Consumer(consumer.positions, Dead))
            else
              Become(w.(rows := append.rows, committed := w.committed[p := offset + 1]), id,
                     Consumer(consumer.positions, if s.commit.RaisesAfter? then Dead else Idle))
  {
    hide AppendTo;
    var phase := if append.answer.Ok? then Inserted(p, offset) else Dead;
    var inserted := Next(polled, Insert(id));
    var stored := w.(rows := append.rows);
    BecomeTwice(stored, id, consumer, consumer.(phase := phase));
    assert inserted == Become(stored, id, consumer.(phase := phase));
    CommitEffects(stored, inserted, id, consumer.(phase := phase), s);
  }

  lemma CommitEffects(stored: World, inserted: World, id: nat, consumer: Consumer, s: Surroundings)
    requires |stored.committed| == |stored.logs| > 0
    requires consumer.phase.Dead? || (consumer.phase.Inserted? && consumer.phase.partition < |stored.logs|)
    requires inserted == Become(stored, id, consumer)
    ensures AfterInsert(inserted, id, s)
         == if consumer.phase.Dead? || s.insert.RaisesAfter? || s.commit.RaisesBefore? then
              Become(stored, id, Consumer(consumer.positions, Dead))
            else
              Become(stored.(committed := stored.committed[consumer.phase.partition := consumer.phase.offset + 1]),
                     id, Consumer(consumer.positions, if s.commit.RaisesAfter? then Dead else Idle))
  {
    BecomeTwice(stored, id, consumer, consumer.(phase := Dead));
    if consumer.phase.Inserted? {
      var idle := consumer.(phase := Idle);
      var committed :=
        stored.(committed := stored.committed[consumer.phase.partition := consumer.phase.offset + 1]);
      BecomeTwice(committed, id, consumer, idle);
      BecomeTwice(committed, id, idle, consumer.(phase := Dead));
      assert Next(inserted, Commit(id)) == Become(committed, id, idle);
    }
  }

  lemma NothingArrives(w: World, id: nat, s: Surroundings)
    requires |w.committed| == |w.logs| > 0 && id in w.consumers && !HasNext(w, id, s.arrival)
    ensures AfterPollOnce(w, id, s)
         == if s.arrival.ErrorEvent? then Become(w, id, w.consumers[id].(phase := Dead)) else w
  {
  }

  /**
   A call returns a record only when it is stored at its position and its
   offset is committed; it returns nothing only when nothing changed, and
   while the commit is not reached the committed offsets stay.
   */
  lemma ReturnedRecordIsStoredAndCommitted(w: World, id: nat, s: Surroundings)
    requires |w.committed| == |w.logs| > 0 && id in w.consumers && w.consumers[id].phase.Idle?
    ensures var w', answer := AfterPollOnce(w, id, s), Answer(w, id, s);
            && (answer.Ok? && answer.value.Some? ==>
                  HasNext(w, id, s.arrival)
                  && var p, o := s.arrival.partition, w.consumers[id].positions[s.arrival.partition];
                     && w.logs[p][o] == Readable(answer.value.value)
                     && Find(w'.rows, At(p, o)) == answer.value
                     && w'.committed == w.committed[p := o + 1])
            && (answer == Ok(None) ==> w' == w)
            && (answer.Err? && !s.commit.RaisesAfter? ==> w'.committed == w.committed)
  {
    hide AfterPollOnce;
    if HasNext(w, id, s.arrival) {
      hide AppendTo;
      var p, o := s.arrival.partition, w.consumers[id].positions[s.arrival.partition];
      EffectsAreSteps(w, id, p, s);
      if w.logs[p][o].Readable? {
        StoredAfterReturn(w.rows, w.logs[p][o].record, At(p, o));
      }
    } else {
      NothingArrives(w, id, s);
    }
  }

  lemma StoredAfterReturn(rows: seq<Row>, record: AuditRecord, position: LogPosition)
    ensures var append := AppendTo(rows, record, Some(position));
            append.answer.Ok? ==> Find(append.rows, position) == Some(record)
  {
    FindAfterAppendTo(rows, record, Some(position), position);
  }

  /** The first `n` calls of the loop of `run`, which a call that raises ends. */
  function AfterRun(w: World, id: nat, calls: seq<Surroundings>, n: nat): (w': World)
    requires |w.committed| == |w.logs| > 0 && n <= |calls|
    ensures |w'.committed| == |w'.logs| > 0
  {
    if n == 0 then w
    else
      var before := AfterRun(w, id, calls, n - 1);
      if n > 1 && HasRaised(before, id) then before else AfterCall(before, id, calls[n - 1])
  }

  /** The first `k` calls, each made whatever the ones before it did. */
  function AfterCalls(w: World, id: nat, calls: seq<Surroundings>, k: nat): (w': World)
    requires |w.committed| == |w.logs| > 0 && k <= |calls|
    ensures |w'.committed| == |w'.logs| > 0
  {
    if k == 0 then w else AfterCall(AfterCalls(w, id, calls, k - 1), id, calls[k - 1])
  }

  /** The loop makes its calls up to and with the first one that raises, and always the first. */
  lemma {:induction false} RunEndsAtTheFirstException(w: World, id: nat, calls: seq<Surroundings>, n: nat)
      returns (k: nat)
    requires |w.committed| == |w.logs| > 0 && n <= |calls|
    ensures k <= n && AfterRun(w, id, calls, n) == AfterCalls(w, id, calls, k)
    ensures forall i :: 0 < i < k ==> !HasRaised(AfterCalls(w, id, calls, i), id)
    ensures k < n ==> k > 0 && HasRaised(AfterCalls(w, id, calls, k), id)
  {
    hide AfterCall, HasRaised;
    k := 0;
    if n > 0 {
      k := RunEndsAtTheFirstException(w, id, calls, n - 1);
      if k == n - 1 && (n == 1 || !HasRaised(AfterRun(w, id, calls, n - 1), id)) {
        k := n;
      }
    }
  }

  lemma {:induction false} StaysRaised(w: World, id: nat, calls: seq<Surroundings>, i: nat, n: nat)
    requires |w.committed| == |w.logs| > 0 && 0 < i <= n <= |calls| && HasRaised(AfterRun(w, id, calls, i), id)
    ensures AfterRun(w, id, calls, n) == AfterRun(w, id, calls, i)
  {
    hide AfterCall;
    if i < n {
      StaysRaised(w, id, calls, i, n - 1);
    }
  }

  lemma {:induction false} CallsKeepInv(w: World, id: nat, calls: seq<Surroundings>, n: nat)
    requires |w.committed| == |w.logs| > 0 && n <= |calls|
    ensures Inv(w) && !HasRaised(w, id) ==> Inv(AfterRun(w, id, calls, n))
  {
    hide LenientInv, AfterPollOnce;
    if n > 0 && Inv(w) && !HasRaised(w, id) {
      CallsKeepInv(w, id, calls, n - 1);
      PollOnceKeepsInv(AfterRun(w, id, calls, n - 1), id, calls[n - 1], false);
    }
  }

  class KafkaAuditConsumer {
    const id: nat
    const broker: Broker
    const store: PostgresAuditStore
    var positions: map<nat, nat>
    var raised: bool

    ghost predicate Valid()
      reads this, broker, store
    {
      broker.Valid() && store.Valid()
    }

    /** The consumer between two calls, as a state of the pipeline beside the other consumers of the group. */
    ghost function View(others: map<nat, Consumer>): (w: World)
      requires broker.Valid()
      reads this, broker, store
      ensures |w.committed| == |w.logs| > 0
    {
      World(broker.partitioner, broker.logs, broker.published, broker.committed, store.rows,
            others[id := Consumer(positions, if raised then Dead else Idle)])
    }

    constructor (id: nat, broker: Broker, store: PostgresAuditStore)
      ensures this.id == id && this.broker == broker && this.store == store
      ensures positions == map[] && !raised
    {
      this.id := id;
      this.broker := broker;
      this.store := store;
      positions := map[];
      raised := false;
    }

    /** One call: exactly the steps of the pipeline, a resumption first if the last call raised. */
    method PollOnce(s: Surroundings, ghost others: map<nat, Consumer>)
      returns (answer: Result<Option<AuditRecord>, ConsumerError>)
      requires Valid()
      modifies this, broker, store
      ensures Valid() && (raised <==> answer.Err?)
      ensures answer == Answer(Next(old(View(others)), Resume(id)), id, s)
      ensures View(others) == AfterCall(old(View(others)), id, s)
    {
      hide AfterPollOnce, AppendTo;
      UpdateTwice(others, id, Consumer(positions, Dead), Consumer(positions, Idle));
      raised := false;
      ghost var w := View(others);
      assert w == Next(old(View(others)), Resume(id));
      UpdateTwice(others, id, w.consumers[id], Consumer(positions, Dead));
      if !HasNext(w, id, s.arrival) {
        NothingArrives(w, id, s);
      } else {
        EffectsAreSteps(w, id, s.arrival.partition, s);
        ghost var moved := positions[s.arrival.partition := positions[s.arrival.partition] + 1];
        UpdateTwice(others, id, w.consumers[id], Consumer(moved, Dead));
        UpdateTwice(others, id, w.consumers[id], Consumer(moved, Idle));
      }
      if s.arrival.ErrorEvent? {
        raised := true;
        return Err(KafkaException);
      }
      if s.arrival.NothingInTime? || s.arrival.partition >= |broker.logs| || s.arrival.partition !in positions
         || positions[s.arrival.partition] >= |broker.logs[s.arrival.partition]| {
        return Ok(None);
      }
      var p := s.arrival.partition;
      var offset := positions[p];
      positions := positions[p := offset + 1];
      if broker.logs[p][offset].Unreadable? {
        raised := true;
        return Err(MalformedAuditMessage);
      }
      answer := StoreAndCommit(broker.logs[p][offset].record, p, offset, s);
    }

    /** The row first, then the offset: a crash in between redelivers the message. */
    method StoreAndCommit(record: AuditRecord, p: nat, offset: nat, s: Surroundings)
      returns (answer: Result<Option<AuditRecord>, ConsumerError>)
      requires Valid() && !raised && p < |broker.logs|
      modifies this`raised, broker`committed, store
      ensures Valid() && (raised <==> answer.Err?)
      ensures var append := AppendTo(old(store.rows), record, Some(At(p, offset)));
              if s.insert.RaisesBefore? then
                answer == Err(StoreFailure) && store.rows == old(store.rows)
                && broker.committed == old(broker.committed)
              else if append.answer.Err? || s.insert.RaisesAfter? then
                answer == Err(StoreFailure) && store.rows == append.rows && broker.committed == old(broker.committed)
              else if s.commit.RaisesBefore? then
                answer == Err(KafkaException) && store.rows == append.rows
                && broker.committed == old(broker.committed)
              else
                answer == (if s.commit.RaisesAfter? then Err(KafkaException) else Ok(Some(record)))
                && store.rows == append.rows && broker.committed == old(broker.committed)[p := offset + 1]
    {
      hide AppendTo;
      if s.insert.RaisesBefore? {
        raised := true;
        return Err(StoreFailure);
      }
      var appended := store.AppendFromLog(record, Some(LogPosition(AUDIT_TOPIC, p, offset)));
      if appended.Err? || s.insert.RaisesAfter? {
        raised := true;
        return Err(StoreFailure);
      }
      if s.commit.RaisesBefore? {
        raised := true;
        return Err(KafkaException);
      }
      broker.committed := broker.committed[p := offset + 1];
      if s.commit.RaisesAfter? {
        raised := true;
        return Err(KafkaException);
      }
      return Ok(Some(record));
    }

    /**
     The loop of `run`: one call after another until it is told to stop or a
     call raises; `calls[i]` is what surrounds call `i`.
     */
    method Run(calls: seq<Surroundings>, ghost others: map<nat, Consumer>)
      returns (answer: Result<(), ConsumerError>)
      requires Valid()
      modifies this, broker, store
      ensures Valid() && (answer.Err? <==> calls != [] && raised)
      ensures View(others) == AfterRun(old(View(others)), id, calls, |calls|)
      ensures Inv(old(View(others))) && !old(raised) ==> Inv(View(others))
    {
      hide AfterCall, Inv;
      ghost var w := View(others);
      for i := 0 to |calls|
        invariant Valid() && (i > 0 ==> !raised)
        invariant View(others) == AfterRun(w, id, calls, i)
      {
        var polled := PollOnce(calls[i], others);
        if polled.Err? {
          StaysRaised(w, id, calls, i + 1, |calls|);
          CallsKeepInv(w, id, calls, |calls|);
          return Err(polled.error);
        }
      }
      CallsKeepInv(w, id, calls, |calls|);
      return Ok(());
    }
  }
}
