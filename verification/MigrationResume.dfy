/** When a migrated thread passes the whole resume check: exactly when the two orders agree inside every run and the
    rows of every inferred run, in number order, keep the tool-call protocol. */
module MigrationResume {
  import opened Basics
  import opened Messages
  import opened Pairing
  import opened Threads
  import opened ThreadLaws
  import opened LegacyRuns
  import opened LegacyNumbers
  import opened Migration
  import opened MigrationLaws
  import opened MigrationOrder
  import opened MigrationReaders

  ghost predicate AllEvents(rows: seq<LegacyRow>) {
    forall row :: row in rows ==> row.EventRow?
  }

  // ----- The protocol of rows -----

  ghost predicate RowDeclaredBefore(rows: seq<LegacyRow>, n: nat, c: Id)
    requires AllEvents(rows)
  {
    exists k :: 0 <= k < n && k < |rows| && c in rows[k].calls
  }

  ghost predicate RowAnsweredBefore(rows: seq<LegacyRow>, n: nat, c: Id)
    requires AllEvents(rows)
  {
    exists k :: 0 <= k < n && k < |rows| && rows[k].result == Some(c)
  }

  /** No id is declared by two rows, each result answers a call declared earlier and open, and nothing but results
      stands between a call and its last answer. */
  ghost predicate RowProtocol(rows: seq<LegacyRow>)
    requires AllEvents(rows)
  {
    && (forall i, j, c :: 0 <= i < j < |rows| && c in rows[i].calls ==> c !in rows[j].calls)
    && (forall n :: 0 <= n < |rows| && rows[n].result.Some? ==>
      RowDeclaredBefore(rows, n, rows[n].result.value) && !RowAnsweredBefore(rows, n, rows[n].result.value))
    && (forall n, c :: 0 <= n < |rows| && rows[n].result.None? && RowDeclaredBefore(rows, n, c) ==>
      RowAnsweredBefore(rows, n, c))
  }

  lemma SameBefore(log: seq<Message>, rows: seq<LegacyRow>, n: nat, c: Id)
    requires AllEvents(rows) && SameCalls(log, rows)
    ensures DeclaredBefore(log, n, c) <==> RowDeclaredBefore(rows, n, c)
    ensures AnsweredBefore(log, n, c) <==> RowAnsweredBefore(rows, n, c)
  {
    if DeclaredBefore(log, n, c) {
      var k :| 0 <= k < n && k < |log| && c in log[k].calls;
      assert c in rows[k].calls;
    }
    if AnsweredBefore(log, n, c) {
      var k :| 0 <= k < n && k < |log| && log[k].result == Some(c);
      assert rows[k].result == Some(c);
    }
  }

  /** Messages that say what the rows say keep the protocol exactly when the rows do. */
  lemma {:induction false} SameProtocol(log: seq<Message>, rows: seq<LegacyRow>)
    requires AllEvents(rows) && SameCalls(log, rows)
    ensures Protocol(log) <==> RowProtocol(rows)
  {
    forall n: nat, c
      ensures DeclaredBefore(log, n, c) <==> RowDeclaredBefore(rows, n, c)
      ensures AnsweredBefore(log, n, c) <==> RowAnsweredBefore(rows, n, c)
    {
      SameBefore(log, rows, n, c);
    }
    if RowProtocol(rows) {
      forall i, j, c | 0 <= i < j < |log| && c in log[i].calls ensures c !in log[j].calls {
        assert c in rows[i].calls;
      }
    }
    if Protocol(log) {
      forall i, j, c | 0 <= i < j < |rows| && c in rows[i].calls ensures c !in rows[j].calls {
        assert c in log[i].calls;
      }
    }
  }

  // ----- The rows of a run -----

  /** The rows the inference placed in a run, in the same order. */
  ghost function RowsOfRun(rows: seq<LegacyRow>, places: map<Id, (Id, nat)>, run: Id): (r: seq<LegacyRow>)
    ensures forall row :: row in r ==> row in rows
  {
    if rows == [] then [] else
      var last := rows[|rows| - 1];
      RowsOfRun(rows[..|rows| - 1], places, run)
        + (if last.id in places && places[last.id].0 == run then [last] else [])
  }

  /** The copied messages of a run say what the rows placed in it say. */
  lemma {:induction false} CopiedRun(all: seq<LegacyRow>, name: (nat, bool) -> Id, rows: seq<LegacyRow>, run: Id)
    requires RowsHaveIds(all) && NamesRuns(name) && AllEvents(rows) && forall row :: row in rows ==> row in all
    ensures SameCalls(RunLog(MessagesFrom(all, name, rows), run), RowsOfRun(rows, Places(all, name), run))
    decreases |rows|
  {
    if rows != [] {
      var n := |rows| - 1;
      var last := rows[n];
      CopiedRun(all, name, rows[..n], run);
      RowPlaceAt(all, name, last);
      var front := MessagesFrom(all, name, rows[..n]);
      assert MessagesFrom(all, name, rows) == front + [MessageFrom(all, name, last)];
      RunLogSnoc(front, MessageFrom(all, name, last), run);
    }
  }

  /** In each inferred run the rows, in number order, keep the protocol. */
  ghost predicate RunsKeepProtocol(rows: seq<LegacyRow>, name: (nat, bool) -> Id) {
    forall run: Id :: RowProtocol(RowsOfRun(Transcript(rows), Places(rows, name), run))
  }

  /** The migrated thread passes the resume check exactly when the two orders agree inside every run and the rows of
      every run keep the protocol. */
  lemma {:induction false} MigratedResumesIff(rows: seq<LegacyRow>, name: (nat, bool) -> Id)
    requires RowsHaveIds(rows) && NamesRuns(name)
    ensures Validated(Log(Migrated(rows, name))) <==> OrdersAgree(rows, name) && RunsKeepProtocol(rows, name)
  {
    var log := Log(Migrated(rows, name));
    MigratedResumesInOrder(rows, name);
    MigratedLog(rows, name);
    forall run: Id
      ensures Protocol(RunLog(log, run)) <==> RowProtocol(RowsOfRun(Transcript(rows), Places(rows, name), run))
    {
      CopiedRun(rows, name, Transcript(rows), run);
      SameProtocol(RunLog(log, run), RowsOfRun(Transcript(rows), Places(rows, name), run));
    }
    assert forall run: Id :: RunValid(RunLog(log, run)) <==>
      Climbing(RunSeqs(RunLog(log, run))) && Protocol(RunLog(log, run));
  }
}
