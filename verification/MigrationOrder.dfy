/** When a migrated thread passes resume's order checks: exactly when the two sort orders of the migration agree
    inside every run, which distinct legacy numbers guarantee and a missing one can break. */
module MigrationOrder {
  import opened Basics
  import opened Messages
  import opened Sorting
  import opened Pairing
  import opened LogOrder
  import opened Threads
  import opened ThreadLaws
  import opened LegacyRuns
  import opened LegacyLaws
  import opened LegacyNumbers
  import opened Migration
  import opened MigrationLaws

  /** The order half of what resume checks. */
  ghost predicate ResumeOrder(t: Thread) {
    Climbing(ThreadSeqs(Log(t))) && forall run: Id :: Climbing(RunSeqs(RunLog(Log(t), run)))
  }

  /** Two messages of a run are in the same order by both numbers. */
  predicate SameOrder(a: Message, b: Message) {
    a.threadSeq < b.threadSeq <==> a.runSeq < b.runSeq
  }

  ghost predicate OrdersAgreeIn(t: Thread) {
    forall a, b :: MessageRow(a) in t.rows && MessageRow(b) in t.rows && a.runId == b.runId ==> SameOrder(a, b)
  }

  // ----- Logs -----

  lemma {:induction false} RunLogKeepsClimbing(log: seq<Message>, run: Id)
    requires Climbing(ThreadSeqs(log))
    ensures Climbing(ThreadSeqs(RunLog(log, run)))
    decreases |log|
  {
    if log != [] {
      var n := |log| - 1;
      var front := RunLog(log[..n], run);
      assert Climbing(ThreadSeqs(log[..n])) by { PrefixClimbs(log, n); }
      RunLogKeepsClimbing(log[..n], run);
      RunLogMembers(log[..n], run);
      if log[n].runId == run && front != [] {
        var m := front[|front| - 1];
        assert m in log[..n];
        var i :| 0 <= i < n && log[i] == m;
        ClimbApart(ThreadSeqs(log), i, n);
      }
      ClimbSnoc(front, log[n]);
      assert RunLog(log, run) == if log[n].runId == run then front + [log[n]] else front;
    }
  }

  lemma AgreeingRunClimbs(t: Thread, run: Id)
    requires Sound(t) && OrdersAgreeIn(t)
    ensures Climbing(RunSeqs(RunLog(Log(t), run)))
  {
    var log := RunLog(Log(t), run);
    SoundLogClimbs(t);
    RunLogKeepsClimbing(Log(t), run);
    RunLogMembers(Log(t), run);
    forall i | 0 < i < |log| ensures RunSeqs(log)[i - 1] < RunSeqs(log)[i] {
      var a, b := log[i - 1], log[i];
      LogMembers(t, a);
      LogMembers(t, b);
      assert ThreadSeqs(log)[i - 1] < ThreadSeqs(log)[i];
      assert SameOrder(a, b);
    }
  }

  lemma ClimbingRunAgrees(t: Thread, a: Message, b: Message)
    requires ResumeOrder(t) && MessageRow(a) in t.rows && MessageRow(b) in t.rows && a.runId == b.runId
    ensures SameOrder(a, b)
  {
    var log := RunLog(Log(t), a.runId);
    LogMembers(t, a);
    LogMembers(t, b);
    RunLogMembers(Log(t), a.runId);
    RunLogKeepsClimbing(Log(t), a.runId);
    var i :| 0 <= i < |log| && log[i] == a;
    var j :| 0 <= j < |log| && log[j] == b;
    if i < j { BothClimb(log, i, j); } else if j < i { BothClimb(log, j, i); }
  }

  lemma BothClimb(log: seq<Message>, i: nat, j: nat)
    requires Climbing(ThreadSeqs(log)) && Climbing(RunSeqs(log)) && i < j < |log|
    ensures log[i].threadSeq < log[j].threadSeq && log[i].runSeq < log[j].runSeq
  {
    ClimbApart(ThreadSeqs(log), i, j);
    ClimbApart(RunSeqs(log), i, j);
  }

  lemma ResumeOrderMeansAgreement(t: Thread)
    requires Sound(t)
    ensures ResumeOrder(t) <==> OrdersAgreeIn(t)
  {
    SoundLogClimbs(t);
    if OrdersAgreeIn(t) {
      forall run: Id ensures Climbing(RunSeqs(RunLog(Log(t), run))) { AgreeingRunClimbs(t, run); }
    }
    if ResumeOrder(t) {
      forall a, b | MessageRow(a) in t.rows && MessageRow(b) in t.rows && a.runId == b.runId ensures SameOrder(a, b) {
        ClimbingRunAgrees(t, a, b);
      }
    }
  }

  // ----- Legacy rows -----

  function EventOf(row: LegacyRow): LegacyEvent
    requires row.EventRow?
  {
    LegacyEvent(row.id, match row.number { case Some(n) => n case None => 0 }, Some(row.role), row.calls != [])
  }

  /** Positions in a block follow the sorted order. */
  lemma {:induction false} PositionsClimb(es: seq<LegacyEvent>, j: nat, m: nat)
    requires j < m < |es| && BlockOf(es, j) == BlockOf(es, m)
    ensures PositionOf(es, j) < PositionOf(es, m)
  {
    EventsGrow(es, j + 1, m, BlockOf(es, j));
  }

  ghost predicate InOneRun(rows: seq<LegacyRow>, name: (nat, bool) -> Id, a: LegacyRow, b: LegacyRow) {
    a.EventRow? && b.EventRow? && a.id in Places(rows, name) && b.id in Places(rows, name)
      && Places(rows, name)[a.id].0 == Places(rows, name)[b.id].0
  }

  /** Inside every run, the order by number for the inference and the order for the numbering are the same. */
  ghost predicate OrdersAgree(rows: seq<LegacyRow>, name: (nat, bool) -> Id) {
    forall a, b :: a in rows && b in rows && a != b && InOneRun(rows, name, a, b) ==>
        (RowOrder(a, b) <==> EventOrder(EventOf(a), EventOf(b)))
  }

  /** Run numbers follow the order of the inference. */
  lemma RunNumbersFollow(rows: seq<LegacyRow>, name: (nat, bool) -> Id, a: LegacyRow, b: LegacyRow)
    requires RowsHaveIds(rows) && NamesRuns(name) && a in rows && b in rows && a != b && InOneRun(rows, name, a, b)
    ensures Places(rows, name)[a.id].1 < Places(rows, name)[b.id].1 <==> EventOrder(EventOf(a), EventOf(b))
  {
    var es := SortedEvents(rows);
    SortBySorted(EventsIn(rows), EventOrder);
    SameIdSameRow(rows, a, b);
    var j, i := EventPlace(rows, name, a);
    var m, q := EventPlace(rows, name, b);
    RunsAreNumbered(es, name, i);
    RunsAreNumbered(es, name, q);
    if j < m { PositionsClimb(es, j, m); } else { PositionsClimb(es, m, j); }
  }

  /** Where a row's event is in the sorted stream, and which run it went to. */
  lemma {:induction false} EventPlace(rows: seq<LegacyRow>, name: (nat, bool) -> Id, a: LegacyRow)
      returns (j: nat, i: nat)
    requires RowsHaveIds(rows) && a in rows && a.EventRow?
    ensures j < |SortedEvents(rows)| && SortedEvents(rows)[j] == EventOf(a)
    ensures i < |InferredRuns(SortedEvents(rows), name)|
      && Blocks(SortedEvents(rows), |SortedEvents(rows)|)[i] == BlockOf(SortedEvents(rows), j)
    ensures a.id in Places(rows, name)
      && Places(rows, name)[a.id]
        == (InferredRuns(SortedEvents(rows), name)[i].runId, PositionOf(SortedEvents(rows), j))
  {
    EventsSorted(rows);
    EventRowsIn(rows, a);
    var es := SortedEvents(rows);
    assert EventOf(a) in es;
    j :| 0 <= j < |es| && es[j] == EventOf(a);
    i := EveryEventIsPlaced(es, j, name);
  }

  // ----- The result -----

  /** The copy of a row keeps both its numbers. */
  lemma CopiedMessage(rows: seq<LegacyRow>, name: (nat, bool) -> Id, a: LegacyRow) returns (m: Message)
    requires RowsHaveIds(rows) && NamesRuns(name) && a in rows && a.EventRow?
    ensures MessageRow(m) in Migrated(rows, name).rows && m.id == a.id
    ensures a.id in Numbers(rows) && a.id in Places(rows, name)
    ensures m.threadSeq == Numbers(rows)[a.id] && (m.runId, m.runSeq) == Places(rows, name)[a.id]
    ensures MessageRow(m) == CopiedRow(a, Numbers(rows), Places(rows, name))
  {
    RowNumbered(rows, a);
    var i := RowPlace(rows, name, a);
    NothingIsIgnored(rows, name);
    RowsSorted(rows, CreatedOrder);
    var sorted := SortBy(rows, CreatedOrder);
    var k := IndexOfRow(sorted, a);
    assert Migrated(rows, name).rows[k] == CopiedRow(a, Numbers(rows), Places(rows, name));
    m := CopiedRow(a, Numbers(rows), Places(rows, name)).message;
  }

  /** Every message of the migrated thread is the copy of a row. */
  lemma MessageOrigin(rows: seq<LegacyRow>, name: (nat, bool) -> Id, m: Message) returns (a: LegacyRow)
    requires RowsHaveIds(rows) && NamesRuns(name) && MessageRow(m) in Migrated(rows, name).rows
    ensures a in rows && a.EventRow? && a.id in Places(rows, name) && a.id in Numbers(rows) && m.id == a.id
    ensures m.threadSeq == Numbers(rows)[a.id] && (m.runId, m.runSeq) == Places(rows, name)[a.id]
    ensures MessageRow(m) == CopiedRow(a, Numbers(rows), Places(rows, name))
  {
    NothingIsIgnored(rows, name);
    RowsSorted(rows, CreatedOrder);
    var t, sorted := Migrated(rows, name), SortBy(rows, CreatedOrder);
    var k :| 0 <= k < |t.rows| && t.rows[k] == MessageRow(m);
    a := sorted[k];
    assert a in rows;
    RowNumbered(rows, a);
  }

  /** The migrated thread passes resume's order checks exactly when the two orders agree inside every run. */
  lemma MigratedResumesInOrder(rows: seq<LegacyRow>, name: (nat, bool) -> Id)
    requires RowsHaveIds(rows) && NamesRuns(name)
    ensures ResumeOrder(Migrated(rows, name)) <==> OrdersAgree(rows, name)
  {
    var t := Migrated(rows, name);
    MigratedIsSound(rows, name);
    ResumeOrderMeansAgreement(t);
    if OrdersAgree(rows, name) {
      forall m, n | MessageRow(m) in t.rows && MessageRow(n) in t.rows && m.runId == n.runId ensures SameOrder(m, n) {
        AgreementReachesMessages(rows, name, m, n);
      }
    }
    if OrdersAgreeIn(t) {
      forall a, b | a in rows && b in rows && a != b && InOneRun(rows, name, a, b)
          ensures RowOrder(a, b) <==> EventOrder(EventOf(a), EventOf(b)) {
        var m := CopiedMessage(rows, name, a);
        var n := CopiedMessage(rows, name, b);
        assert SameOrder(m, n);
        BothOrders(rows, name, a, b);
      }
    }
  }

  lemma BothOrders(rows: seq<LegacyRow>, name: (nat, bool) -> Id, a: LegacyRow, b: LegacyRow)
    requires RowsHaveIds(rows) && NamesRuns(name) && a in rows && b in rows && a != b && InOneRun(rows, name, a, b)
    ensures a.id in Numbers(rows) && b.id in Numbers(rows)
    ensures Numbers(rows)[a.id] < Numbers(rows)[b.id] <==> RowOrder(a, b)
    ensures Places(rows, name)[a.id].1 < Places(rows, name)[b.id].1 <==> EventOrder(EventOf(a), EventOf(b))
  {
    RowNumbers(rows, a, b);
    RunNumbersFollow(rows, name, a, b);
  }

  lemma AgreementReachesMessages(rows: seq<LegacyRow>, name: (nat, bool) -> Id, m: Message, n: Message)
    requires RowsHaveIds(rows) && NamesRuns(name) && OrdersAgree(rows, name) && m.runId == n.runId
    requires MessageRow(m) in Migrated(rows, name).rows && MessageRow(n) in Migrated(rows, name).rows
    ensures SameOrder(m, n)
  {
    var a := MessageOrigin(rows, name, m);
    var b := MessageOrigin(rows, name, n);
    if a != b { BothOrders(rows, name, a, b); }
  }

  /** Distinct legacy numbers are enough. */
  lemma DistinctNumbersAgree(rows: seq<LegacyRow>, name: (nat, bool) -> Id)
    requires forall a :: a in rows && a.EventRow? ==> a.number.Some?
    requires forall a, b :: a in rows && b in rows && a.EventRow? && b.EventRow? && a != b ==> a.number != b.number
    ensures OrdersAgree(rows, name)
  {
  }

  lemma {:induction false} TwoEvents(a: LegacyRow, b: LegacyRow)
    requires a.EventRow? && b.EventRow?
    ensures EventsIn([a, b]) == [EventOf(a), EventOf(b)]
  {
    assert [a][..0] == [];
    assert EventsIn([a]) == [EventOf(a)];
    assert [a, b][..1] == [a];
  }

  /** A user message without a number and its numbered answer: the inference puts the user first, the numbering puts
      it last, and resume refuses the migrated thread. */
  lemma {:induction false} MissingNumberBreaksResume(user: LegacyRow, answer: LegacyRow, name: (nat, bool) -> Id)
    requires user.EventRow? && user.role.User? && user.number == None
    requires answer.EventRow? && answer.role.Assistant? && answer.number.Some? && 0 < answer.number.value < NO_NUMBER
    requires user.id != answer.id && NamesRuns(name)
    ensures !ResumeOrder(Migrated([user, answer], name))
  {
    var rows := [user, answer];
    var e, f := EventOf(user), EventOf(answer);
    TwoEvents(user, answer);
    SortByIdentity([e, f], EventOrder);
    var es := SortedEvents(rows);
    assert es == [e, f];
    OneBlock(es);
    var j, i := EventPlace(rows, name, user);
    var m, q := EventPlace(rows, name, answer);
    BlocksDistinct(es, |es|);
    assert BlockOf(es, j) == BlockOf(es, m);
    assert InOneRun(rows, name, user, answer);
    assert EventOrder(e, f) && !RowOrder(user, answer);
    MigratedResumesInOrder(rows, name);
  }

  lemma {:induction false} OneBlock(es: seq<LegacyEvent>)
    requires |es| == 2 && Opens(es[0]) && !Opens(es[1])
    ensures forall j: nat :: j < |es| ==> BlockOf(es, j) == Some(0)
  {
    assert OpenAt(es, 1) == Some(0);
  }
}
