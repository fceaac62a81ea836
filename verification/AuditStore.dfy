/**
 The append-only audit table
 (services/audit/src/ubunturemit_audit/postgres_store.py and schema.py).

 A row carries a record and, if it came off the bus, its position there.  The
 table holds every position at most once; `AppendFromLog` inserts with
 ON CONFLICT DO NOTHING and then tells a redelivery from a collision.
 */
module AuditStore {
  import opened Wrappers

  datatype AuditRecord = AuditRecord(
    transferId: string,
    actor: string,
    thought: string,
    action: string,
    observation: string,
    recordedAt: string,
    deterministicOverride: bool)

  datatype LogPosition = LogPosition(topic: string, partition: nat, offset: nat)

  /** The row id is the index in the table: rows are only ever added at the end. */
  datatype Row = Row(record: AuditRecord, position: Option<LogPosition>)

  /** A different record already sits at this bus position, or a text the column type refuses. */
  datatype StoreError = AuditPositionConflict | TextRefused

  /** A TEXT column holds any text without a NUL; JSON can carry one. */
  predicate IsStorable(record: AuditRecord) {
    '\0' !in record.transferId && '\0' !in record.actor && '\0' !in record.thought && '\0' !in record.action
    && '\0' !in record.observation && '\0' !in record.recordedAt
  }

  /** What the unique constraint keeps; a missing position never conflicts. */
  predicate UniquePositions(rows: seq<Row>) {
    forall i, j :: 0 <= i < j < |rows| && rows[i].position.Some? ==> rows[i].position != rows[j].position
  }

  /** The record stored at a position. */
  function Find(rows: seq<Row>, position: LogPosition): (found: Option<AuditRecord>)
    ensures found.Some? ==> Row(found.value, Some(position)) in rows
    ensures found.None? ==> forall row :: row in rows ==> row.position != Some(position)
  {
    if rows == [] then None
    else if rows[|rows| - 1].position == Some(position) then Some(rows[|rows| - 1].record)
    else Find(rows[..|rows| - 1], position)
  }

  lemma FindAfterAppend(rows: seq<Row>, row: Row, position: LogPosition)
    ensures Find(rows + [row], position)
         == if row.position == Some(position) then Some(row.record) else Find(rows, position)
  {
    assert (rows + [row])[..|rows|] == rows;
  }

  /** What one append answers, and the table it leaves. */
  datatype Append = Append(rows: seq<Row>, answer: Result<bool, StoreError>)

  function AppendTo(rows: seq<Row>, record: AuditRecord, position: Option<LogPosition>): Append {
    if !IsStorable(record) then Append(rows, Err(TextRefused))
    else if position.None? || Find(rows, position.value).None? then
      Append(rows + [Row(record, position)], Ok(true))
    else if Find(rows, position.value) == Some(record) then Append(rows, Ok(false))
    else Append(rows, Err(AuditPositionConflict))
  }

  /** A record is refused for its texts exactly when one of them has a NUL, whatever the table holds. */
  lemma RefusedExactlyWhen(rows: seq<Row>, record: AuditRecord, position: Option<LogPosition>)
    ensures AppendTo(rows, record, position).answer == Err(TextRefused) <==>
              exists text :: text in [record.transferId, record.actor, record.thought, record.action,
                                      record.observation, record.recordedAt] && '\0' in text
  {
    var texts := [record.transferId, record.actor, record.thought, record.action,
                  record.observation, record.recordedAt];
    assert texts[0] in texts && texts[1] in texts && texts[2] in texts && texts[3] in texts && texts[4] in texts
           && texts[5] in texts;
  }

  lemma AppendKeepsUnique(rows: seq<Row>, record: AuditRecord, position: Option<LogPosition>)
    requires UniquePositions(rows)
    ensures UniquePositions(AppendTo(rows, record, position).rows)
  {
  }

  /** An append that is not refused fills its own position if that was free, and touches no other. */
  lemma FindAfterAppendTo(rows: seq<Row>, record: AuditRecord, at: Option<LogPosition>, position: LogPosition)
    ensures Find(AppendTo(rows, record, at).rows, position)
         == if Find(rows, position).None? && at == Some(position) && IsStorable(record) then Some(record)
            else Find(rows, position)
  {
    FindAfterAppend(rows, Row(record, at), position);
  }

  // ---------------------------------------------------------------------
  // Any history of appends
  // ---------------------------------------------------------------------

  /** One call of `append_from_log`. */
  datatype Request = Request(record: AuditRecord, position: Option<LogPosition>)

  /** The table after the first `n` requests, starting from `rows`. */
  function TableAfter(rows: seq<Row>, history: seq<Request>, n: nat): seq<Row>
    requires n <= |history|
  {
    if n == 0 then rows
    else AppendTo(TableAfter(rows, history, n - 1), history[n - 1].record, history[n - 1].position).rows
  }

  /** The answer to request `i`. */
  function AnswerTo(rows: seq<Row>, history: seq<Request>, i: nat): Result<bool, StoreError>
    requires i < |history|
  {
    AppendTo(TableAfter(rows, history, i), history[i].record, history[i].position).answer
  }

  lemma {:induction false} RowsOnlyGrow(rows: seq<Row>, history: seq<Request>, i: nat, j: nat)
    requires i <= j <= |history|
    ensures TableAfter(rows, history, i) <= TableAfter(rows, history, j)
  {
    if i < j {
      RowsOnlyGrow(rows, history, i, j - 1);
    }
  }

  lemma {:induction false} HistoryKeepsUnique(rows: seq<Row>, history: seq<Request>, n: nat)
    requires n <= |history| && UniquePositions(rows)
    ensures UniquePositions(TableAfter(rows, history, n))
  {
    if n > 0 {
      HistoryKeepsUnique(rows, history, n - 1);
      AppendKeepsUnique(TableAfter(rows, history, n - 1), history[n - 1].record, history[n - 1].position);
    }
  }

  /** A request for this position that the columns take. */
  predicate IsFor(request: Request, position: LogPosition) {
    request.position == Some(position) && IsStorable(request.record)
  }

  /** The first of the first `n` requests for a position that the columns take. */
  function FirstAt(history: seq<Request>, n: nat, position: LogPosition): (first: Option<nat>)
    requires n <= |history|
    ensures first.Some? ==>
      && first.value < n && IsFor(history[first.value], position)
      && forall k :: 0 <= k < first.value ==> !IsFor(history[k], position)
    ensures first.None? ==> forall k :: 0 <= k < n ==> !IsFor(history[k], position)
  {
    if n == 0 then None
    else
      var before := FirstAt(history, n - 1, position);
      if before.Some? then before
      else if IsFor(history[n - 1], position) then Some(n - 1)
      else None
  }

  /** A position holds what it held at the start or else the first record appended there: nothing later replaces it. */
  lemma {:induction false} FirstRecordStays(rows: seq<Row>, history: seq<Request>, n: nat, position: LogPosition)
    requires n <= |history|
    ensures Find(TableAfter(rows, history, n), position)
         == if Find(rows, position).Some? then Find(rows, position)
            else match FirstAt(history, n, position)
                 case Some(first) => Some(history[first].record)
                 case None => None
  {
    hide AppendTo, Find, IsStorable;
    if n > 0 {
      FirstRecordStays(rows, history, n - 1, position);
      FindAfterAppendTo(TableAfter(rows, history, n - 1), history[n - 1].record, history[n - 1].position, position);
    }
  }

  /**
   The answer to every request of every history that starts on an empty table,
   positions reused by a recreated topic included: a record the columns refuse
   is raised; of the others the first one for a position is stored, an identical
   one later is a redelivery, and a different one is raised rather than dropped.
   */
  lemma EveryAnswerIsDecidedByTheFirst(history: seq<Request>, i: nat, position: LogPosition)
    requires i < |history| && history[i].position == Some(position)
    ensures AnswerTo([], history, i)
         == if !IsStorable(history[i].record) then Err(TextRefused)
            else match FirstAt(history, i, position)
                 case None => Ok(true)
                 case Some(first) =>
                   if history[first].record == history[i].record then Ok(false) else Err(AuditPositionConflict)
  {
    hide IsStorable;
    FirstRecordStays([], history, i, position);
  }

  /**
   Whenever an append returns, from then on the table holds exactly its record
   at its position; when it raises, the table is the one before, and either the
   columns refuse the record or another record is there.
   */
  lemma ReturnedAppendIsStored(rows: seq<Row>, history: seq<Request>, i: nat, n: nat)
    requires i < n <= |history| && UniquePositions(rows) && history[i].position.Some?
    ensures var position := history[i].position.value;
            if AnswerTo(rows, history, i).Ok?
            then Find(TableAfter(rows, history, n), position) == Some(history[i].record)
                 && Row(history[i].record, Some(position)) in TableAfter(rows, history, i + 1)
            else TableAfter(rows, history, i + 1) == TableAfter(rows, history, i)
                 && if AnswerTo(rows, history, i) == Err(TextRefused) then !IsStorable(history[i].record)
                    else Find(TableAfter(rows, history, n), position).Some?
                         && Find(TableAfter(rows, history, n), position) != Some(history[i].record)
  {
    hide IsStorable;
    var position := history[i].position.value;
    var at := TableAfter(rows, history, i);
    FindAfterAppend(at, Row(history[i].record, Some(position)), position);
    if Find(TableAfter(rows, history, i + 1), position).Some? {
      StoredStays(rows, history, i + 1, n, position);
    }
  }

  lemma {:induction false} StoredStays(rows: seq<Row>, history: seq<Request>, i: nat, n: nat, position: LogPosition)
    requires i <= n <= |history| && Find(TableAfter(rows, history, i), position).Some?
    ensures Find(TableAfter(rows, history, n), position) == Find(TableAfter(rows, history, i), position)
  {
    hide AppendTo, Find, IsStorable;
    if i < n {
      StoredStays(rows, history, i, n - 1, position);
      FindAfterAppendTo(TableAfter(rows, history, n - 1), history[n - 1].record, history[n - 1].position, position);
    }
  }

  // ---------------------------------------------------------------------
  // Reading back
  // ---------------------------------------------------------------------

  /** The records of a transfer in row order. */
  function RecordsOf(rows: seq<Row>, transferId: string): seq<AuditRecord> {
    if rows == [] then []
    else
      var row := rows[|rows| - 1];
      RecordsOf(rows[..|rows| - 1], transferId) + if row.record.transferId == transferId then [row.record] else []
  }

  lemma RecordsAfterAppend(rows: seq<Row>, row: Row, transferId: string)
    ensures RecordsOf(rows + [row], transferId)
         == RecordsOf(rows, transferId) + if row.record.transferId == transferId then [row.record] else []
  {
    assert (rows + [row])[..|rows|] == rows;
  }

  // ---------------------------------------------------------------------
  // The store
  // ---------------------------------------------------------------------

  class PostgresAuditStore {
    var rows: seq<Row>

    ghost predicate Valid()
      reads this
    {
      UniquePositions(rows)
    }

    constructor ()
      ensures Valid() && rows == []
    {
      rows := [];
    }

    /** INSERT ... ON CONFLICT DO NOTHING: the number of rows inserted, unless a column refuses its text. */
    method Insert(record: AuditRecord, position: Option<LogPosition>) returns (rowCount: Result<nat, StoreError>)
      requires Valid()
      modifies this
      ensures Valid()
      ensures rowCount == if !IsStorable(record) then Err(TextRefused)
                          else if position.Some? && Find(old(rows), position.value).Some? then Ok(0) else Ok(1)
      ensures rows == if rowCount == Ok(1) then old(rows) + [Row(record, position)] else old(rows)
    {
      if !IsStorable(record) {
        return Err(TextRefused);
      }
      for i := 0 to |rows|
        invariant rows == old(rows)
        invariant position.Some? ==> forall k :: 0 <= k < i ==> rows[k].position != position
      {
        if position.Some? && rows[i].position == position {
          return Ok(0);
        }
      }
      rows := rows + [Row(record, position)];
      return Ok(1);
    }

    /** SELECT by position. */
    method Select(position: LogPosition) returns (stored: Option<AuditRecord>)
      requires Valid()
      ensures stored == Find(rows, position)
    {
      for i := 0 to |rows|
        invariant forall k :: 0 <= k < i ==> rows[k].position != Some(position)
      {
        if rows[i].position == Some(position) {
          return Some(rows[i].record);
        }
      }
      return None;
    }

    method AppendFromLog(record: AuditRecord, position: Option<LogPosition>) returns (answer: Result<bool, StoreError>)
      requires Valid()
      modifies this
      ensures Valid()
      ensures Append(rows, answer) == AppendTo(old(rows), record, position)
    {
      var rowCount := Insert(record, position);
      if rowCount.Err? {
        return Err(rowCount.error);
      }
      if rowCount.value == 1 {
        return Ok(true);
      }
      var stored := Select(position.value);
      if stored != Some(record) {
        return Err(AuditPositionConflict);
      }
      return Ok(false);
    }

    method GetRecords(transferId: string) returns (records: seq<AuditRecord>)
      ensures records == RecordsOf(rows, transferId)
    {
      records := [];
      for i := 0 to |rows|
        invariant records == RecordsOf(rows[..i], transferId)
      {
        RecordsAfterAppend(rows[..i], rows[i], transferId);
        assert rows[..i + 1] == rows[..i] + [rows[i]];
        if rows[i].record.transferId == transferId {
          records := records + [rows[i].record];
        }
      }
      assert rows[..|rows|] == rows;
    }
  }
}
