/** The migration writing the shadow tables of one session (`_session_inference`, `_copy_parents`, `_copy_memories`
    and the count check of `verify_shadow` in `secminiagent/memory/migration.py`). */
module MigrationStore {
  import opened Basics
  import opened Messages
  import opened Sorting
  import opened Threads
  import opened ThreadLaws
  import opened LegacyRuns
  import opened LegacyNumbers
  import opened Migration
  import opened MigrationLaws

  /** A pass over nothing or over a migrated thread leaves the migrated thread. */
  lemma PassIsDone(rows: seq<LegacyRow>, name: (nat, bool) -> Id, before: Thread)
    requires RowsHaveIds(rows) && NamesRuns(name)
      && (before == EmptyThread(rows, name) || before == Migrated(rows, name))
    ensures Pass(before, rows, name) == Migrated(rows, name) && |SortBy(rows, CreatedOrder)| == |rows|
    ensures Sound(Migrated(rows, name)) && !HasRunning(Migrated(rows, name))
  {
    MigratedIsSound(rows, name);
    RowsSorted(rows, CreatedOrder);
    SecondPassChangesNothing(rows, name);
  }

  class ShadowStore {
    var thread: Option<Thread>

    constructor ()
      ensures thread == None
    {
      thread := None;
    }

    /** Inserts the thread row, if it is not there, and then its runs. */
    method CopyParents(runs: seq<LegacyRun>, next: nat)
      modifies this
      ensures thread.Some?
      ensures var before := if old(thread).Some?
        then old(thread).value else Thread(ThreadStatus.Active, |runs| + 1, next, 1, map[], []);
              thread.value == before.(runs := CopyRuns(before.runs, runs))
    {
      var t := if thread.Some? then thread.value else Thread(ThreadStatus.Active, |runs| + 1, next, 1, map[], []);
      ghost var before := t.runs;
      for k := 0 to |runs|
        invariant t
          == (if old(thread).Some?
            then old(thread).value else Thread(ThreadStatus.Active, |runs| + 1, next, 1, map[], [])).(runs := t.runs)
        invariant t.runs == CopyRuns(before, runs[..k])
      {
        assert runs[..k + 1][..k] == runs[..k];
        t := t.(runs := InsertRun(t.runs, runs[k].runId, MigratedRun(runs[k])));
      }
      assert runs[..|runs|] == runs;
      thread := Some(t);
    }

    /** Inserts the rows in order of creation. */
    method CopyMemories(rows: seq<LegacyRow>, numbers: map<Id, nat>, placed: map<Id, (Id, nat)>) returns (migrated: nat)
      requires thread.Some?
      modifies this
      ensures thread.Some? && migrated == |SortBy(rows, CreatedOrder)|
      ensures thread.value
        == old(thread).value.(rows := CopyRows(old(thread).value.rows, SortBy(rows, CreatedOrder), numbers, placed))
    {
      var sorted, t := SortBy(rows, CreatedOrder), thread.value;
      for k := 0 to |sorted|
        invariant t == old(thread).value.(rows := CopyRows(old(thread).value.rows, sorted[..k], numbers, placed))
      {
        assert sorted[..k + 1][..k] == sorted[..k];
        t := t.(rows := InsertRow(t.rows, CopiedRow(sorted[k], numbers, placed)));
      }
      assert sorted[..|sorted|] == sorted;
      thread := Some(t);
      migrated := |sorted|;
    }

    /** One pass over a session. The first pass brings every row and every run across, with all that a running thread
        keeps; a further pass changes nothing. */
    method MigrateSession(rows: seq<LegacyRow>, name: (nat, bool) -> Id) returns (migrated: nat)
      requires RowsHaveIds(rows) && NamesRuns(name)
      requires thread == None || thread == Some(Migrated(rows, name))
      modifies this
      ensures thread == Some(Migrated(rows, name)) && migrated == |rows|
      ensures Sound(thread.value) && !HasRunning(thread.value)
    {
      var numbers, next := AssignNumbers(rows);
      var runs, placed := InferLegacyRuns(EventsIn(rows), name);
      CopyParents(runs, next);
      migrated := CopyMemories(rows, numbers, placed);
      assert thread.value == Pass(if old(thread).Some? then old(thread).value else EmptyThread(rows, name), rows, name);
      PassIsDone(rows, name, if old(thread).Some? then old(thread).value else EmptyThread(rows, name));
    }

    /** The verification's count: as many rows copied as there were. */
    method CountMatches(rows: seq<LegacyRow>, name: (nat, bool) -> Id) returns (ok: bool)
      requires RowsHaveIds(rows) && NamesRuns(name) && thread == Some(Migrated(rows, name))
      ensures ok
    {
      NothingIsIgnored(rows, name);
      ok := |thread.value.rows| == |rows|;
    }
  }
}
