/** The migration establishes the invariant that running threads keep: nothing is dropped, every counter is ahead, no
    run is left running, and a second pass changes nothing. */
module MigrationLaws {
  import opened Basics
  import opened Messages
  import opened Sorting
  import opened Pairing
  import opened Threads
  import opened ThreadLaws
  import opened LegacyRuns
  import opened LegacyLaws
  import opened LegacyNumbers
  import opened Migration

  // ----- Rows and events have distinct ids -----

  lemma {:induction false} EventMembers(rows: seq<LegacyRow>, e: LegacyEvent)
    ensures e in EventsIn(rows) ==> exists row :: row in rows && row.EventRow? && row.id == e.id
    decreases |rows|
  {
    if rows != [] {
      EventMembers(rows[..|rows| - 1], e);
      assert rows == rows[..|rows| - 1] + [rows[|rows| - 1]];
    }
  }

  lemma {:induction false} EventRowsIn(rows: seq<LegacyRow>, row: LegacyRow)
    requires row in rows && row.EventRow?
    ensures LegacyEvent(row.id, match row.number { case Some(n) => n case None => 0 }, Some(row.role),
      row.calls != []) in EventsIn(rows)
    decreases |rows|
  {
    if rows[|rows| - 1] != row { EventRowsIn(rows[..|rows| - 1], row); }
  }

  lemma {:induction false} EventsDistinct(rows: seq<LegacyRow>)
    requires RowsHaveIds(rows)
    ensures DistinctIds(EventsIn(rows))
    decreases |rows|
  {
    if rows != [] {
      var n := |rows| - 1;
      EventsDistinct(rows[..n]);
      forall e | e in EventsIn(rows[..n]) ensures e.id != rows[n].id { EventMembers(rows[..n], e); }
    }
  }

  lemma RowsSorted(rows: seq<LegacyRow>, leq: (LegacyRow, LegacyRow) -> bool)
    requires RowsHaveIds(rows)
    ensures RowsHaveIds(SortBy(rows, leq)) && |SortBy(rows, leq)| == |rows|
    ensures forall row :: row in SortBy(rows, leq) <==> row in rows
  {
    SortedOnce(rows, leq);
    var t := SortBy(rows, leq);
    forall i, j | 0 <= i < j < |t| ensures t[i].id != t[j].id {
      SameIdSameRow(rows, t[i], t[j]);
    }
  }

  lemma SameIdSameRow(rows: seq<LegacyRow>, a: LegacyRow, b: LegacyRow)
    requires RowsHaveIds(rows) && a in rows && b in rows && a != b
    ensures a.id != b.id
  {
    var i :| 0 <= i < |rows| && rows[i] == a;
    var j :| 0 <= j < |rows| && rows[j] == b;
  }

  lemma EventsSorted(rows: seq<LegacyRow>)
    requires RowsHaveIds(rows)
    ensures DistinctIds(SortedEvents(rows)) && forall e :: e in SortedEvents(rows) <==> e in EventsIn(rows)
  {
    EventsDistinct(rows);
    var s := EventsIn(rows);
    SortedOnce(s, EventOrder);
    var t := SortedEvents(rows);
    forall i, j | 0 <= i < j < |t| ensures t[i].id != t[j].id { SameIdSameEvent(s, t[i], t[j]); }
  }

  lemma SameIdSameEvent(es: seq<LegacyEvent>, a: LegacyEvent, b: LegacyEvent)
    requires DistinctIds(es) && a in es && b in es && a != b
    ensures a.id != b.id
  {
    var i :| 0 <= i < |es| && es[i] == a;
    var j :| 0 <= j < |es| && es[j] == b;
  }

  // ----- What each row gets -----

  lemma {:induction false} NumberMapAt(rows: seq<LegacyRow>, k: nat, i: nat)
    requires RowsHaveIds(rows) && i < k <= |rows|
    ensures rows[i].id in NumberMap(rows, k) && NumberMap(rows, k)[rows[i].id] == NumberAt(rows, i)
    decreases k
  {
    if i < k - 1 { NumberMapAt(rows, k - 1, i); }
  }

  /** Every row has a number of its own, below the thread's counter, in sorted order. */
  lemma RowNumbers(rows: seq<LegacyRow>, a: LegacyRow, b: LegacyRow)
    requires RowsHaveIds(rows) && a in rows && b in rows && a != b
    ensures a.id in Numbers(rows) && 1 <= Numbers(rows)[a.id] <= LastNumber(SortedRows(rows))
    ensures b.id in Numbers(rows) && Numbers(rows)[a.id] != Numbers(rows)[b.id]
    ensures Numbers(rows)[a.id] < Numbers(rows)[b.id] <==> RowOrder(a, b)
  {
    var t := SortedRows(rows);
    RowsSorted(rows, RowOrder);
    SortBySorted(rows, RowOrder);
    var i := IndexOfRow(t, a);
    var j := IndexOfRow(t, b);
    SameIdSameRow(rows, a, b);
    NumberMapAt(t, |t|, i);
    NumberMapAt(t, |t|, j);
    if i < j { NumbersClimb(t, i, j); } else { NumbersClimb(t, j, i); }
    NumberWithin(t, i);
  }

  /** Thread numbers follow the legacy numbers, a missing one last, then creation time, then id. */
  lemma NumbersFollow(rows: seq<LegacyRow>, a: LegacyRow, b: LegacyRow)
    requires RowsHaveIds(rows) && a in rows && b in rows && a != b
    ensures a.id in Numbers(rows) && b.id in Numbers(rows)
    ensures var x, y := match a.number { case Some(n) => n case None => 0x8000_0000 },
                        match b.number { case Some(n) => n case None => 0x8000_0000 };
            Numbers(rows)[a.id] < Numbers(rows)[b.id] <==>
              x < y || (x == y && (a.created < b.created || (a.created == b.created && a.id < b.id)))
  {
    RowNumbers(rows, a, b);
    SameIdSameRow(rows, a, b);
  }

  /** The inference reads the events by legacy number, a missing one first, then by id. */
  lemma EventsInOrder(rows: seq<LegacyRow>, i: nat, j: nat)
    requires RowsHaveIds(rows) && i < j < |SortedEvents(rows)|
    ensures var a, b := SortedEvents(rows)[i], SortedEvents(rows)[j];
            a.number < b.number || (a.number == b.number && a.id < b.id)
  {
    EventsSorted(rows);
    SortBySorted(EventsIn(rows), EventOrder);
    assert EventOrder(SortedEvents(rows)[i], SortedEvents(rows)[j]);
  }

  lemma IndexOfRow(t: seq<LegacyRow>, a: LegacyRow) returns (i: nat)
    requires a in t
    ensures i < |t| && t[i] == a
  {
    i :| 0 <= i < |t| && t[i] == a;
  }

  lemma NumberWithin(t: seq<LegacyRow>, i: nat)
    requires i < |t|
    ensures 1 <= NumberAt(t, i) <= LastNumber(t)
  {
    NumberStep(t, i);
    assert t[..|t|] == t;
    if i < |t| - 1 { NumbersClimb(t, i, |t| - 1); }
  }

  /** An event row's place: a run and a position in it that holds the row. */
  lemma RowPlace(rows: seq<LegacyRow>, name: (nat, bool) -> Id, a: LegacyRow) returns (i: nat)
    requires RowsHaveIds(rows) && a in rows && a.EventRow?
    ensures a.id in Places(rows, name) && i < |InferredRuns(SortedEvents(rows), name)|
    ensures var run, place := InferredRuns(SortedEvents(rows), name)[i], Places(rows, name)[a.id];
            place.0 == run.runId && 1 <= place.1 <= |run.events| && run.events[place.1 - 1] == a.id
  {
    EventsSorted(rows);
    EventRowsIn(rows, a);
    var es := SortedEvents(rows);
    var e := LegacyEvent(a.id, match a.number { case Some(n) => n case None => 0 }, Some(a.role), a.calls != []);
    var j :| 0 <= j < |es| && es[j] == e;
    i := EveryEventIsPlaced(es, j, name);
  }

  lemma PlacesDiffer(rows: seq<LegacyRow>, name: (nat, bool) -> Id, a: LegacyRow, b: LegacyRow)
    requires RowsHaveIds(rows) && NamesRuns(name) && a in rows && b in rows && a != b && a.EventRow? && b.EventRow?
    ensures a.id in Places(rows, name) && b.id in Places(rows, name)
      && Places(rows, name)[a.id] != Places(rows, name)[b.id]
  {
    var es := SortedEvents(rows);
    SameIdSameRow(rows, a, b);
    var i := RowPlace(rows, name, a);
    var j := RowPlace(rows, name, b);
    RunsAreNumbered(es, name, i);
    RunsAreNumbered(es, name, j);
  }

  lemma RowsDontClash(rows: seq<LegacyRow>, name: (nat, bool) -> Id, a: LegacyRow, b: LegacyRow)
    requires RowsHaveIds(rows) && NamesRuns(name) && a in rows && b in rows && a != b
    ensures !Clash(CopiedRow(a, Numbers(rows), Places(rows, name)), CopiedRow(b, Numbers(rows), Places(rows, name)))
  {
    SameIdSameRow(rows, a, b);
    RowNumbers(rows, a, b);
    if a.EventRow? && b.EventRow? { PlacesDiffer(rows, name, a, b); }
  }

  // ----- Nothing is ignored -----

  function AllCopied(rows: seq<LegacyRow>, numbers: map<Id, nat>, placed: map<Id, (Id, nat)>): (r: seq<Row>)
    ensures |r| == |rows|
  {
    seq(|rows|, i requires 0 <= i < |rows| => CopiedRow(rows[i], numbers, placed))
  }

  lemma {:induction false} NoRowIsIgnored(rows: seq<LegacyRow>, numbers: map<Id, nat>, placed: map<Id, (Id, nat)>)
    requires RowsDistinct(AllCopied(rows, numbers, placed))
    ensures CopyRows([], rows, numbers, placed) == AllCopied(rows, numbers, placed)
    decreases |rows|
  {
    if rows != [] {
      var n := |rows| - 1;
      var all, front := AllCopied(rows, numbers, placed), AllCopied(rows[..n], numbers, placed);
      assert all == front + [all[n]];
      assert RowsDistinct(front) by {
        forall i, j | 0 <= i < j < |front| ensures !Clash(front[i], front[j]) { assert !Clash(all[i], all[j]); }
      }
      NoRowIsIgnored(rows[..n], numbers, placed);
      assert InsertRow(front, all[n]) == front + [all[n]] by {
        forall i | 0 <= i < |front| ensures !Clash(front[i], all[n]) { assert !Clash(all[i], all[n]); }
      }
    }
  }

  /** A second pass finds every row there already. */
  lemma {:induction false} EveryRowIsIgnored(stored: seq<Row>, rows: seq<LegacyRow>, numbers: map<Id, nat>,
      placed: map<Id, (Id, nat)>)
    requires forall row :: row in rows ==> CopiedRow(row, numbers, placed) in stored
    ensures CopyRows(stored, rows, numbers, placed) == stored
    decreases |rows|
  {
    if rows != [] {
      EveryRowIsIgnored(stored, rows[..|rows| - 1], numbers, placed);
      var row := CopiedRow(rows[|rows| - 1], numbers, placed);
      var i :| 0 <= i < |stored| && stored[i] == row;
      assert Clash(stored[i], row);
    }
  }

  ghost predicate Numbered(legacy: seq<LegacyRun>) {
    && (forall i :: 0 <= i < |legacy| ==> legacy[i].no == i + 1)
    && forall i, j :: 0 <= i < j < |legacy| ==> legacy[i].runId != legacy[j].runId
  }

  ghost predicate RunsCopied(runs: map<Id, Run>, legacy: seq<LegacyRun>) {
    && (forall i :: 0 <= i < |legacy| ==> legacy[i].runId in runs && runs[legacy[i].runId] == MigratedRun(legacy[i]))
    && forall r :: r in runs ==> exists i :: 0 <= i < |legacy| && legacy[i].runId == r
  }

  lemma NextRunIsNew(front: map<Id, Run>, before: seq<LegacyRun>, last: LegacyRun)
    requires RunsCopied(front, before) && Numbered(before + [last])
    ensures InsertRun(front, last.runId, MigratedRun(last)) == front[last.runId := MigratedRun(last)]
    ensures last.runId !in front
  {
    var legacy := before + [last];
    forall r | r in front ensures front[r].no != last.no && r != last.runId {
      var i :| 0 <= i < |before| && before[i].runId == r;
      assert legacy[i] == before[i] && legacy[|before|] == last;
    }
  }

  lemma CopiedSnoc(front: map<Id, Run>, before: seq<LegacyRun>, last: LegacyRun)
    requires RunsCopied(front, before) && last.runId !in front
    ensures RunsCopied(front[last.runId := MigratedRun(last)], before + [last])
  {
    var legacy, runs := before + [last], front[last.runId := MigratedRun(last)];
    forall r | r in runs ensures exists i :: 0 <= i < |legacy| && legacy[i].runId == r {
      if r in front {
        var i :| 0 <= i < |before| && before[i].runId == r;
        assert legacy[i].runId == r;
      } else {
        assert legacy[|before|].runId == r;
      }
    }
  }

  lemma {:induction false} NoRunIsIgnored(legacy: seq<LegacyRun>)
    requires Numbered(legacy)
    ensures RunsCopied(CopyRuns(map[], legacy), legacy)
    decreases |legacy|
  {
    if legacy != [] {
      var n := |legacy| - 1;
      NoRunIsIgnored(legacy[..n]);
      var front := CopyRuns(map[], legacy[..n]);
      assert legacy[..n] + [legacy[n]] == legacy;
      NextRunIsNew(front, legacy[..n], legacy[n]);
      CopiedSnoc(front, legacy[..n], legacy[n]);
    }
  }

  lemma {:induction false} EveryRunIsIgnored(runs: map<Id, Run>, legacy: seq<LegacyRun>)
    requires forall i :: 0 <= i < |legacy| ==> legacy[i].runId in runs
    ensures CopyRuns(runs, legacy) == runs
    decreases |legacy|
  {
    if legacy != [] { EveryRunIsIgnored(runs, legacy[..|legacy| - 1]); }
  }

  // ----- The migrated thread -----

  lemma RunsNumbered(rows: seq<LegacyRow>, name: (nat, bool) -> Id)
    requires NamesRuns(name)
    ensures Numbered(InferredRuns(SortedEvents(rows), name))
  {
    var es := SortedEvents(rows);
    var legacy := InferredRuns(es, name);
    forall i | 0 <= i < |legacy| ensures legacy[i].no == i + 1 && legacy[i].runId == name(i + 1, legacy[i].unassigned) {
      RunsAreNumbered(es, name, i);
    }
  }

  /** Every legacy row becomes exactly one row, and nothing is ignored. */
  lemma NothingIsIgnored(rows: seq<LegacyRow>, name: (nat, bool) -> Id)
    requires RowsHaveIds(rows) && NamesRuns(name)
    ensures Migrated(rows, name).rows == AllCopied(SortBy(rows, CreatedOrder), Numbers(rows), Places(rows, name))
    ensures |Migrated(rows, name).rows| == |rows| && RowsDistinct(Migrated(rows, name).rows)
  {
    RowsSorted(rows, CreatedOrder);
    var sorted := SortBy(rows, CreatedOrder);
    var all := AllCopied(sorted, Numbers(rows), Places(rows, name));
    forall i, j | 0 <= i < j < |all| ensures !Clash(all[i], all[j]) {
      assert sorted[i] in rows && sorted[j] in rows;
      RowsDontClash(rows, name, sorted[i], sorted[j]);
    }
    NoRowIsIgnored(sorted, Numbers(rows), Places(rows, name));
  }

  lemma MigratedRuns(rows: seq<LegacyRow>, name: (nat, bool) -> Id)
    requires NamesRuns(name)
    ensures RunsCopied(Migrated(rows, name).runs, InferredRuns(SortedEvents(rows), name))
  {
    RunsNumbered(rows, name);
    NoRunIsIgnored(InferredRuns(SortedEvents(rows), name));
  }

  lemma CopiedRowCounted(rows: seq<LegacyRow>, name: (nat, bool) -> Id, a: LegacyRow)
    requires RowsHaveIds(rows) && NamesRuns(name) && a in rows
    ensures var row, t := CopiedRow(a, Numbers(rows), Places(rows, name)), Migrated(rows, name);
            && 1 <= RowSeq(row) < t.nextSeq
            && (row.MessageRow? ==>
              row.message.runId in t.runs && 1 <= row.message.runSeq < t.runs[row.message.runId].nextSeq)
  {
    RowNumbered(rows, a);
    if a.EventRow? {
      var i := RowPlace(rows, name, a);
      MigratedRuns(rows, name);
    }
  }

  lemma RowNumbered(rows: seq<LegacyRow>, a: LegacyRow)
    requires RowsHaveIds(rows) && a in rows
    ensures a.id in Numbers(rows) && 1 <= Numbers(rows)[a.id] <= LastNumber(SortedRows(rows))
  {
    var t := SortedRows(rows);
    RowsSorted(rows, RowOrder);
    var i := IndexOfRow(t, a);
    NumberMapAt(t, |t|, i);
    NumberWithin(t, i);
  }

  lemma MigratedRunAt(rows: seq<LegacyRow>, name: (nat, bool) -> Id, r: Id) returns (i: nat)
    requires NamesRuns(name) && r in Migrated(rows, name).runs
    ensures i < |InferredRuns(SortedEvents(rows), name)| && InferredRuns(SortedEvents(rows), name)[i].runId == r
    ensures Migrated(rows, name).runs[r].no == i + 1 && Migrated(rows, name).runs[r].nextSeq >= 1
      && !Migrated(rows, name).runs[r].status.Running?
  {
    var es := SortedEvents(rows);
    var legacy := InferredRuns(es, name);
    MigratedRuns(rows, name);
    i :| 0 <= i < |legacy| && legacy[i].runId == r;
    RunsAreNumbered(es, name, i);
  }

  /** Each inferred run becomes a run row with its number, status, input and final message; the next number comes after
      its events, it has no turns counted, and an interrupted one says why. There are no other runs. */
  lemma MigratedRunIs(rows: seq<LegacyRow>, name: (nat, bool) -> Id, i: nat)
    requires NamesRuns(name) && i < |InferredRuns(SortedEvents(rows), name)|
    ensures var run, runs := InferredRuns(SortedEvents(rows), name)[i], Migrated(rows, name).runs;
            && run.runId in runs && runs[run.runId].no == run.no == i + 1 && runs[run.runId].status == run.status
            && runs[run.runId].input == run.input && runs[run.runId].final == run.final
            && runs[run.runId].nextSeq == |run.events| + 1 && runs[run.runId].turns == 0
            && runs[run.runId].reason == if run.status == Interrupted then Some("LEGACY_NEW_USER") else None
    ensures forall r :: r in Migrated(rows, name).runs ==>
      exists j ::
        0 <= j < |InferredRuns(SortedEvents(rows), name)| && InferredRuns(SortedEvents(rows), name)[j].runId == r
  {
    MigratedRuns(rows, name);
    RunsAreNumbered(SortedEvents(rows), name, i);
  }

  /** The thread row: active, the next run number after all inferred runs, the next sequence number after all rows. */
  lemma MigratedCounters(rows: seq<LegacyRow>, name: (nat, bool) -> Id)
    requires RowsHaveIds(rows)
    ensures var t := Migrated(rows, name);
            t.status == ThreadStatus.Active && t.nextRunNo == |InferredRuns(SortedEvents(rows), name)| + 1
    ensures rows == [] ==> Migrated(rows, name).nextSeq == 1
    ensures rows != [] ==> exists a ::
      a in rows && a.id in Numbers(rows) && Migrated(rows, name).nextSeq == Numbers(rows)[a.id] + 1
  {
    var t := SortedRows(rows);
    RowsSorted(rows, RowOrder);
    if rows != [] {
      var n := |t| - 1;
      assert t[n] in rows && t[..n + 1] == t;
      NumberMapAt(t, |t|, n);
    }
  }

  lemma MigratedRunsCounted(rows: seq<LegacyRow>, name: (nat, bool) -> Id)
    requires NamesRuns(name)
    ensures RunsCounted(Migrated(rows, name)) && !HasRunning(Migrated(rows, name))
  {
    var t := Migrated(rows, name);
    forall r | r in t.runs
        ensures 1 <= t.runs[r].no < t.nextRunNo && 1 <= t.runs[r].nextSeq && !t.runs[r].status.Running? {
      var i := MigratedRunAt(rows, name, r);
    }
    forall r, q | r in t.runs && q in t.runs && r != q ensures t.runs[r].no != t.runs[q].no {
      var i := MigratedRunAt(rows, name, r);
      var j := MigratedRunAt(rows, name, q);
    }
  }

  /** The migrated thread has what every running thread keeps, so the steps of a live thread keep it from there on. */
  lemma MigratedIsSound(rows: seq<LegacyRow>, name: (nat, bool) -> Id)
    requires RowsHaveIds(rows) && NamesRuns(name)
    ensures Sound(Migrated(rows, name)) && !HasRunning(Migrated(rows, name))
  {
    var t := Migrated(rows, name);
    NothingIsIgnored(rows, name);
    MigratedRunsCounted(rows, name);
    RowsSorted(rows, CreatedOrder);
    var sorted := SortBy(rows, CreatedOrder);
    forall row | row in t.rows
      ensures 1 <= RowSeq(row) < t.nextSeq
      ensures row.MessageRow? ==>
        row.message.runId in t.runs && 1 <= row.message.runSeq < t.runs[row.message.runId].nextSeq
    {
      var i :| 0 <= i < |t.rows| && t.rows[i] == row;
      assert sorted[i] in rows;
      CopiedRowCounted(rows, name, sorted[i]);
    }
  }

  /** A second pass changes nothing. */
  lemma SecondPassChangesNothing(rows: seq<LegacyRow>, name: (nat, bool) -> Id)
    requires RowsHaveIds(rows) && NamesRuns(name)
    ensures Pass(Migrated(rows, name), rows, name) == Migrated(rows, name)
  {
    var t, sorted := Migrated(rows, name), SortBy(rows, CreatedOrder);
    NothingIsIgnored(rows, name);
    MigratedRuns(rows, name);
    EveryRunIsIgnored(t.runs, InferredRuns(SortedEvents(rows), name));
    forall row | row in sorted ensures CopiedRow(row, Numbers(rows), Places(rows, name)) in t.rows {
      var i :| 0 <= i < |sorted| && sorted[i] == row;
      assert t.rows[i] == CopiedRow(row, Numbers(rows), Places(rows, name));
    }
    EveryRowIsIgnored(t.rows, sorted, Numbers(rows), Places(rows, name));
  }

  /** Whatever a session goes on to do with a migrated thread keeps it sound. */
  lemma {:induction false} MigratedStaysSound(rows: seq<LegacyRow>, name: (nat, bool) -> Id, events: seq<Event>)
    requires RowsHaveIds(rows) && NamesRuns(name)
    ensures Sound(Replay(Migrated(rows, name), events))
    decreases |events|
  {
    if events == [] {
      MigratedIsSound(rows, name);
    } else {
      MigratedStaysSound(rows, name, events[..|events| - 1]);
      StepKeepsSound(Replay(Migrated(rows, name), events[..|events| - 1]), events[|events| - 1]);
    }
  }
}
