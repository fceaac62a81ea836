/**
 Polling a consumer again after an exception
 (services/audit/src/ubunturemit_audit/kafka.py): when it breaks the guarantees
 of the pipeline, and exactly when it cannot.
 */
module AuditResume {
  import opened Wrappers
  import opened AuditStore
  import opened AuditPipeline
  import opened AuditGuarantees

  // ---------------------------------------------------------------------
  // A run that breaks the guarantees
  // ---------------------------------------------------------------------

  /** An unreadable message, a record behind it, and a consumer about to read them. */
  function BeforeTheUnreadable(partitioner: string -> nat, record: AuditRecord): World {
    World(partitioner, [[Unreadable, Readable(record)]], [record], [0], [], map[7 := Consumer(map[0 := 0], Idle)])
  }

  /** The consumer polls, raises, is polled again all the same, and stores what comes next. */
  function PolledAfterRaising(): seq<Step> {
    [Poll(7, 0)] + [Resume(7)] + [Poll(7, 0)] + [Insert(7)] + [Commit(7)]
  }

  lemma BeforeTheUnreadableIsReached(partitioner: string -> nat, record: AuditRecord)
    ensures Reached(partitioner, 1, [PublishUnreadable(0)] + [Publish(record)] + [Start(7)] + [Assign(7, 0)])
         == BeforeTheUnreadable(partitioner, record)
  {
    hide Run;
    var w := Init(partitioner, 1);
    assert w.logs == [[]] && w.committed == [0];
    EmptyRun(w);
    assert [] + [PublishUnreadable(0)] == [PublishUnreadable(0)];
    RunThen(w, [], PublishUnreadable(0));
    var w1 := Run(w, [PublishUnreadable(0)]);
    assert [] + [Unreadable] == [Unreadable] && w1.logs == [[Unreadable]];
    RunThen(w, [PublishUnreadable(0)], Publish(record));
    var w2 := Run(w, [PublishUnreadable(0)] + [Publish(record)]);
    assert [Unreadable] + [Readable(record)] == [Unreadable, Readable(record)];
    assert [] + [record] == [record];
    assert w2 == w.(logs := [[Unreadable, Readable(record)]], published := [record]);
    RunThen(w, [PublishUnreadable(0)] + [Publish(record)], Start(7));
    RunThen(w, [PublishUnreadable(0)] + [Publish(record)] + [Start(7)], Assign(7, 0));
  }

  /**
   Polling again after an exception breaks both guarantees: the table has a
   gap where the unreadable message is, and the committed offset has passed it.
   */
  lemma PollingAfterRaisingSkips(partitioner: string -> nat, record: AuditRecord)
    requires IsStorable(record)
    ensures var w := Run(BeforeTheUnreadable(partitioner, record), PolledAfterRaising());
            && w.rows == [Row(record, Some(At(0, 1)))]
            && w.committed == [2] && w.logs == [[Unreadable, Readable(record)]]
            && !IsPrefixOfLog(BusRows(w.rows, 0), w.logs[0], 0)
  {
    hide Run;
    var w := BeforeTheUnreadable(partitioner, record);
    EmptyRun(w);
    assert [] + [Poll(7, 0)] == [Poll(7, 0)];
    RunThen(w, [], Poll(7, 0));
    RunThen(w, [Poll(7, 0)], Resume(7));
    RunThen(w, [Poll(7, 0)] + [Resume(7)], Poll(7, 0));
    var held := w.(consumers := map[7 := Consumer(map[0 := 2], Polled(0, 1))]);
    var raised := w.(consumers := map[7 := Consumer(map[0 := 1], Dead)]);
    assert map[0 := 0][0 := 1] == map[0 := 1] && map[0 := 1][0 := 2] == map[0 := 2];
    assert Run(w, [Poll(7, 0)]) == raised by {
      assert Run(w, [Poll(7, 0)]).consumers == raised.consumers;
    }
    var resumed := w.(consumers := map[7 := Consumer(map[0 := 1], Idle)]);
    assert Run(w, [Poll(7, 0)] + [Resume(7)]) == resumed by {
      assert Run(w, [Poll(7, 0)] + [Resume(7)]).consumers == resumed.consumers;
    }
    assert Run(w, [Poll(7, 0)] + [Resume(7)] + [Poll(7, 0)]).consumers == held.consumers;
    RunThen(w, [Poll(7, 0)] + [Resume(7)] + [Poll(7, 0)], Insert(7));
    RunThen(w, [Poll(7, 0)] + [Resume(7)] + [Poll(7, 0)] + [Insert(7)], Commit(7));
    StoresTheSecond(held, record);
  }

  lemma NoBusRows()
    ensures BusRows([], 0) == []
  {
  }

  lemma StoresTheSecond(held: World, record: AuditRecord)
    requires held.logs == [[Unreadable, Readable(record)]] && held.rows == [] && held.committed == [0]
    requires held.consumers == map[7 := Consumer(map[0 := 2], Polled(0, 1))] && IsStorable(record)
    ensures var w := Next(Next(held, Insert(7)), Commit(7));
            && w.rows == [Row(record, Some(At(0, 1)))] && w.committed == [2] && w.logs == held.logs
            && !IsPrefixOfLog(BusRows(w.rows, 0), w.logs[0], 0)
  {
    hide Find, IsStorable, BusRows;
    assert Find([], At(0, 1)).None?;
    BusRowsAfterAppend([], Row(record, Some(At(0, 1))), 0);
    NoBusRows();
    assert [] + [Row(record, Some(At(0, 1)))] == [Row(record, Some(At(0, 1)))];
    var w := Next(Next(held, Insert(7)), Commit(7));
    assert BusRows(w.rows, 0) == [Row(record, Some(At(0, 1)))];
    assert BusRows(w.rows, 0)[0].position != Some(At(0, 0));
  }

  // ---------------------------------------------------------------------
  // Exactly when it is safe
  // ---------------------------------------------------------------------

  /** What the pipeline promises of a state. */
  predicate Guaranteed(w: World) {
    && |w.committed| == |w.logs|
    && forall p :: 0 <= p < |w.logs| ==>
         && IsPrefixOfLog(BusRows(w.rows, p), w.logs[p], p)
         && w.committed[p] <= Stored(w, p)
         && forall o :: 0 <= o < w.committed[p] ==> CanStore(w.logs[p][o])
  }

  lemma InvGuarantees(w: World, lenient: bool)
    requires LenientInv(w, lenient)
    ensures Guaranteed(w)
  {
    hide BusRows, ConsumerInv;
    forall p | 0 <= p < |w.logs|
      ensures IsPrefixOfLog(BusRows(w.rows, p), w.logs[p], p) && w.committed[p] <= Stored(w, p)
    {
      assert PartitionInv(w, p);
    }
  }

  /**
   What a caller has to see before it polls a consumer again: each position is
   within the stored rows, or a call there can only raise once more, because
   the message is unreadable or refused by the table, or because the log ends
   there and no record the table could hold is sent to the partition.
   */
  ghost predicate SafeToResume(w: World, consumer: Consumer)
    requires |w.logs| > 0
  {
    forall p :: p in consumer.positions && p < |w.logs| ==>
      consumer.positions[p] <= Stored(w, p) || OnlyRaisesAt(w, p, consumer.positions[p])
  }

  /** The next poll fetches a record past the stored rows: storing it leaves a gap. */
  lemma PolledPastTheRows(w: World, id: nat, p: nat)
    requires |w.committed| == |w.logs| && p < |w.logs| && PartitionInv(w, p)
    requires id in w.consumers && w.consumers[id].phase.Idle? && p in w.consumers[id].positions
    requires Stored(w, p) < w.consumers[id].positions[p] < |w.logs[p]|
    requires CanStore(w.logs[p][w.consumers[id].positions[p]])
    ensures !Guaranteed(Next(Next(w, Poll(id, p)), Insert(id)))
  {
    hide BusRows, Find;
    var o := w.consumers[id].positions[p];
    var polled := Next(w, Poll(id, p));
    FindInPrefix(w, p, o);
    var row := Row(w.logs[p][o].record, Some(At(p, o)));
    BusRowsAfterAppend(w.rows, row, p);
    var after := Next(polled, Insert(id));
    assert after.rows == w.rows + [row] && after.logs == w.logs;
    assert BusRows(after.rows, p)[Stored(w, p)] == row;
  }

  /** A record for a key that is sent to the partition. */
  function RecordFor(key: string): AuditRecord {
    AuditRecord(key, "", "", "", "", "", false)
  }

  /** Where the condition fails, some continuation breaks the guarantees. */
  lemma UnsafeResumeBreaks(w: World, lenient: bool, id: nat, p: nat) returns (steps: seq<Step>)
    requires LenientInv(w, lenient) && id in w.consumers && w.consumers[id].phase.Dead?
    requires p in w.consumers[id].positions && p < |w.logs|
    requires Stored(w, p) < w.consumers[id].positions[p] && !OnlyRaisesAt(w, p, w.consumers[id].positions[p])
    ensures RaisingEndsTheConsumer(steps) && !Guaranteed(Run(Next(w, Resume(id)), steps))
  {
    hide BusRows, Run, PositionInv;
    var resumed := Next(w, Resume(id));
    var o := w.consumers[id].positions[p];
    ConsumersAreBounded(w, id, lenient);
    assert PartitionInv(w, p);
    EmptyRun(resumed);
    if o < |w.logs[p]| {
      PolledPastTheRows(resumed, id, p);
      steps := [] + [Poll(id, p)] + [Insert(id)];
      RunThen(resumed, [], Poll(id, p));
      RunThen(resumed, [] + [Poll(id, p)], Insert(id));
    } else {
      var key :| '\0' !in key && PartitionOf(w, key) == p;
      var publish := Publish(RecordFor(key));
      var published := Next(resumed, publish);
      assert published.logs[p] == w.logs[p] + [Readable(RecordFor(key))];
      assert PartitionInv(published, p);
      PolledPastTheRows(published, id, p);
      steps := [] + [publish] + [Poll(id, p)] + [Insert(id)];
      RunThen(resumed, [], publish);
      RunThen(resumed, [] + [publish], Poll(id, p));
      RunThen(resumed, [] + [publish] + [Poll(id, p)], Insert(id));
    }
  }

  /** Where it holds, the resumed consumer is covered by the lenient invariant. */
  lemma SafeResumeKeepsInv(w: World, lenient: bool, id: nat)
    requires LenientInv(w, lenient) && id in w.consumers && w.consumers[id].phase.Dead?
    requires SafeToResume(w, w.consumers[id])
    ensures LenientInv(Next(w, Resume(id)), true)
  {
    hide BusRows, PartitionInv, OnlyRaisesAt;
    ConsumersAreBounded(w, id, lenient);
    StrictIsLenient(w, lenient);
    var consumer := w.consumers[id].(phase := Idle);
    forall p | p in consumer.positions ensures PositionInv(w, consumer, p, true) {
    }
    BecomeKeepsInv(w, id, consumer, true);
  }

  lemma StrictIsLenient(w: World, lenient: bool)
    requires LenientInv(w, lenient)
    ensures LenientInv(w, true)
  {
    hide BusRows, PartitionInv, OnlyRaisesAt, IsStorable, InLog;
    forall id | id in w.consumers ensures ConsumerInv(w, w.consumers[id], true) {
      assert ConsumerInv(w, w.consumers[id], lenient);
      if !w.consumers[id].phase.Dead? {
        forall p | p in w.consumers[id].positions ensures PositionInv(w, w.consumers[id], p, true) {
          assert PositionInv(w, w.consumers[id], p, lenient);
        }
      }
    }
  }

  /**
   A consumer that raised may be polled again, and every continuation in which
   nothing else is keeps the guarantees, exactly when its positions allow it.
   */
  lemma ResumeIsSafeExactlyWhen(
      partitioner: string -> nat, partitions: nat, before: seq<Step>, id: nat)
    requires partitions > 0 && RaisingEndsTheConsumer(before)
    requires var w := Reached(partitioner, partitions, before); id in w.consumers && w.consumers[id].phase.Dead?
    ensures var w := Reached(partitioner, partitions, before);
            (forall steps :: RaisingEndsTheConsumer(steps) ==> Guaranteed(Run(Next(w, Resume(id)), steps)))
            <==> SafeToResume(w, w.consumers[id])
  {
    hide Run, Guaranteed, LenientInv;
    ReachedInv(partitioner, partitions, before);
    ResumeIsSafeFrom(Reached(partitioner, partitions, before), false, id);
  }

  /** The same from any state the lenient invariant covers, so also after earlier safe resumptions. */
  lemma ResumeIsSafeFrom(w: World, lenient: bool, id: nat)
    requires LenientInv(w, lenient) && id in w.consumers && w.consumers[id].phase.Dead?
    ensures (forall steps :: RaisingEndsTheConsumer(steps) ==> Guaranteed(Run(Next(w, Resume(id)), steps)))
       <==> SafeToResume(w, w.consumers[id])
  {
    hide Run, Guaranteed, BusRows, PartitionInv, ConsumerInv, OnlyRaisesAt;
    var resumed := Next(w, Resume(id));
    if SafeToResume(w, w.consumers[id]) {
      SafeResumeKeepsInv(w, lenient, id);
      forall steps | RaisingEndsTheConsumer(steps) ensures Guaranteed(Run(resumed, steps)) {
        RunKeepsInv(resumed, steps, true);
        InvGuarantees(Run(resumed, steps), true);
      }
    } else {
      var p :| p in w.consumers[id].positions && p < |w.logs|
               && Stored(w, p) < w.consumers[id].positions[p] && !OnlyRaisesAt(w, p, w.consumers[id].positions[p]);
      var steps := UnsafeResumeBreaks(w, lenient, id, p);
    }
  }

  // ---------------------------------------------------------------------
  // Runs in which consumers are polled again
  // ---------------------------------------------------------------------

  /** Every resumption in the run of a consumer that raised is a safe one. */
  ghost predicate ResumesSafely(w: World, steps: seq<Step>)
    requires |w.committed| == |w.logs| > 0
  {
    steps == []
    || var before, last := steps[..|steps| - 1], steps[|steps| - 1];
       ResumesSafely(w, before)
       && (last.Resume? && last.id in Run(w, before).consumers ==>
             SafeToResume(Run(w, before), Run(w, before).consumers[last.id]))
  }

  lemma {:induction false} SafeResumesKeepInv(w: World, steps: seq<Step>)
    requires LenientInv(w, true) && ResumesSafely(w, steps)
    ensures LenientInv(Run(w, steps), true)
  {
    hide PartitionInv, ConsumerInv, Next, SafeToResume;
    if steps != [] {
      var before, last := steps[..|steps| - 1], steps[|steps| - 1];
      SafeResumesKeepInv(w, before);
      if !last.Resume? {
        NextKeepsInv(Run(w, before), last, true);
      } else {
        ResumedInv(Run(w, before), last.id);
      }
    }
  }

  lemma ResumedInv(w: World, id: nat)
    requires LenientInv(w, true) && (id in w.consumers ==> SafeToResume(w, w.consumers[id]))
    ensures LenientInv(Next(w, Resume(id)), true)
  {
    hide LenientInv, SafeToResume;
    if id in w.consumers && w.consumers[id].phase.Dead? {
      SafeResumeKeepsInv(w, true, id);
    }
  }

  /** The guarantees hold after every run from an empty topic in which consumers are resumed only where it is safe. */
  lemma SafelyResumedRunsKeepGuarantees(partitioner: string -> nat, partitions: nat, steps: seq<Step>)
    requires partitions > 0 && ResumesSafely(Init(partitioner, partitions), steps)
    ensures Guaranteed(Reached(partitioner, partitions, steps))
  {
    hide Run, Guaranteed, BusRows, PartitionInv, ConsumerInv;
    InitInv(partitioner, partitions);
    StrictIsLenient(Init(partitioner, partitions), false);
    SafeResumesKeepInv(Init(partitioner, partitions), steps);
    InvGuarantees(Reached(partitioner, partitions, steps), true);
  }
}
