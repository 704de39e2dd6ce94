/** Copying a legacy session into a thread (`_copy_parents` and `_copy_memories` in
    `secminiagent/memory/migration.py`). */
module Migration {
  import opened Basics
  import opened Messages
  import opened Sorting
  import opened Threads
  import opened LegacyRuns
  import opened LegacyLaws
  import opened LegacyNumbers

  /** The transcript events among the rows; a missing number counts as 0 here. */
  function EventsIn(rows: seq<LegacyRow>): seq<LegacyEvent> {
    if rows == [] then [] else
      var last := rows[|rows| - 1];
      EventsIn(rows[..|rows| - 1])
        + (if last.EventRow?
          then [LegacyEvent(last.id, match last.number { case Some(n) => n case None => 0 }, Some(last.role),
            last.calls != [])] else [])
  }

  function SortedEvents(rows: seq<LegacyRow>): seq<LegacyEvent> {
    SortBy(EventsIn(rows), EventOrder)
  }

  function SortedRows(rows: seq<LegacyRow>): seq<LegacyRow> {
    SortBy(rows, RowOrder)
  }

  function MigratedRun(run: LegacyRun): Run {
    Run(run.no, run.status, |run.events| + 1, 1, run.input, run.final, 0, if run.status.Interrupted?
      then Some("LEGACY_NEW_USER") else None)
  }

  /** INSERT OR IGNORE of each run in turn. */
  function CopyRuns(runs: map<Id, Run>, legacy: seq<LegacyRun>): map<Id, Run> {
    if legacy == [] then runs else
      var last := legacy[|legacy| - 1];
      InsertRun(CopyRuns(runs, legacy[..|legacy| - 1]), last.runId, MigratedRun(last))
  }

  /** A copied row: events go to their runs, everything else keeps only its thread sequence number. */
  function CopiedRow(row: LegacyRow, numbers: map<Id, nat>, placed: map<Id, (Id, nat)>): Row {
    var number := if row.id in numbers then numbers[row.id] else 0;
    if row.EventRow? && row.id in placed
    then MessageRow(Message(row.id, placed[row.id].0, number, placed[row.id].1, row.role, row.calls, row.result,
      row.classification, row.size))
    else NoteRow(row.id, number)
  }

  /** INSERT OR IGNORE of each row in turn. */
  function CopyRows(stored: seq<Row>, rows: seq<LegacyRow>, numbers: map<Id, nat>,
      placed: map<Id, (Id, nat)>): seq<Row> {
    if rows == [] then stored else
      InsertRow(CopyRows(stored, rows[..|rows| - 1], numbers, placed), CopiedRow(rows[|rows| - 1], numbers, placed))
  }

  ghost function Numbers(rows: seq<LegacyRow>): map<Id, nat> {
    NumberMap(SortedRows(rows), |SortedRows(rows)|)
  }

  function Places(rows: seq<LegacyRow>, name: (nat, bool) -> Id): map<Id, (Id, nat)> {
    Placed(SortedEvents(rows), |SortedEvents(rows)|, name)
  }

  /** One pass of the migration over what an earlier pass may have left. */
  ghost function Pass(before: Thread, rows: seq<LegacyRow>, name: (nat, bool) -> Id): Thread {
    before.(runs := CopyRuns(before.runs, InferredRuns(SortedEvents(rows), name)),
            rows := CopyRows(before.rows, SortBy(rows, CreatedOrder), Numbers(rows), Places(rows, name)))
  }

  /** The thread row: counters beyond everything inferred and numbered. */
  ghost function EmptyThread(rows: seq<LegacyRow>, name: (nat, bool) -> Id): Thread {
    Thread(ThreadStatus.Active, |InferredRuns(SortedEvents(rows), name)| + 1, LastNumber(SortedRows(rows)) + 1, 1,
      map[], [])
  }

  ghost function Migrated(rows: seq<LegacyRow>, name: (nat, bool) -> Id): Thread {
    Pass(EmptyThread(rows, name), rows, name)
  }

  ghost predicate RowsHaveIds(rows: seq<LegacyRow>) {
    forall i, j :: 0 <= i < j < |rows| ==> rows[i].id != rows[j].id
  }

  /** Run ids are minted from run numbers without collisions. */
  ghost predicate NamesRuns(name: (nat, bool) -> Id) {
    forall a, x, b, y :: name(a, x) == name(b, y) ==> a == b && x == y
  }
}
