/** Which migrated threads the group readers can read: exactly those whose legacy rows, in number order, leave no
    result apart from its call. A migrated thread can pass the resume check and still not be readable. */
module MigrationReaders {
  import opened Basics
  import opened Messages
  import opened Sorting
  import opened Pairing
  import opened Groups
  import opened GroupLaws
  import opened LogOrder
  import opened Threads
  import opened ThreadLaws
  import opened LegacyRuns
  import opened LegacyLaws
  import opened LegacyNumbers
  import opened Migration
  import opened MigrationLaws
  import opened MigrationOrder

  // ----- The migrated log -----

  /** The transcript events among the rows, in the same order. */
  function EventRows(rows: seq<LegacyRow>): seq<LegacyRow> {
    if rows == [] then [] else
      EventRows(rows[..|rows| - 1]) + (if rows[|rows| - 1].EventRow? then [rows[|rows| - 1]] else [])
  }

  lemma {:induction false} EventRowsMembers(rows: seq<LegacyRow>, row: LegacyRow)
    ensures row in EventRows(rows) <==> row in rows && row.EventRow?
    decreases |rows|
  {
    if rows != [] {
      EventRowsMembers(rows[..|rows| - 1], row);
      assert rows == rows[..|rows| - 1] + [rows[|rows| - 1]];
    }
  }

  /** The message a row becomes. */
  ghost function MessageFrom(rows: seq<LegacyRow>, name: (nat, bool) -> Id, row: LegacyRow): Message
    requires RowsHaveIds(rows) && NamesRuns(name) && row in rows && row.EventRow?
  {
    RowPlaceAt(rows, name, row);
    CopiedRow(row, Numbers(rows), Places(rows, name)).message
  }

  lemma RowPlaceAt(rows: seq<LegacyRow>, name: (nat, bool) -> Id, row: LegacyRow)
    requires RowsHaveIds(rows) && row in rows && row.EventRow?
    ensures row.id in Places(rows, name)
  {
    var i := RowPlace(rows, name, row);
  }

  ghost function MessagesFrom(all: seq<LegacyRow>, name: (nat, bool) -> Id, rows: seq<LegacyRow>): (r: seq<Message>)
    requires RowsHaveIds(all) && NamesRuns(name) && forall row :: row in rows ==> row in all && row.EventRow?
    ensures |r| == |rows|
  {
    seq(|rows|, i requires 0 <= i < |rows| => MessageFrom(all, name, rows[i]))
  }

  /** Two climbing logs with the same messages are the same log. */
  lemma {:induction false} SameClimbingLog(a: seq<Message>, b: seq<Message>)
    requires Climbing(ThreadSeqs(a)) && Climbing(ThreadSeqs(b)) && forall m :: m in a <==> m in b
    ensures a == b
    decreases |a|
  {
    if a == [] {
      if b != [] { HasFirst(b); }
    } else {
      assert a[0] in b;
      var p, q := |a| - 1, |b| - 1;
      SameLast(a, b);
      PrefixClimbs(a, p);
      PrefixClimbs(b, q);
      forall m ensures m in a[..p] <==> m in b[..q] { FrontMembers(a, m); FrontMembers(b, m); }
      SameClimbingLog(a[..p], b[..q]);
    }
  }

  lemma HasFirst(b: seq<Message>)
    requires b != []
    ensures b[0] in b
  {
  }

  lemma {:induction false} SameLast(a: seq<Message>, b: seq<Message>)
    requires Climbing(ThreadSeqs(a)) && Climbing(ThreadSeqs(b)) && a != [] && b != [] && forall m :: m in a <==> m in b
    ensures a[|a| - 1] == b[|b| - 1]
  {
    var p, q := |a| - 1, |b| - 1;
    assert a[p] in b && b[q] in a;
    var j :| 0 <= j < |b| && b[j] == a[p];
    var i :| 0 <= i < |a| && a[i] == b[q];
    if j < q { ClimbingPairs(b, j, q); }
    if i < p { ClimbingPairs(a, i, p); }
  }

  lemma {:induction false} FrontMembers(a: seq<Message>, m: Message)
    requires Climbing(ThreadSeqs(a)) && a != []
    ensures m in a[..|a| - 1] <==> m in a && m != a[|a| - 1]
  {
    var p := |a| - 1;
    if m in a[..p] {
      var i :| 0 <= i < p && a[i] == m;
      ClimbingPairs(a, i, p);
    }
  }

  /** The migrated log is the event rows in number order. */
  lemma {:induction false} MigratedLog(rows: seq<LegacyRow>, name: (nat, bool) -> Id)
    requires RowsHaveIds(rows) && NamesRuns(name)
    ensures forall row :: row in EventRows(SortedRows(rows)) ==> row in rows && row.EventRow?
    ensures Log(Migrated(rows, name)) == MessagesFrom(rows, name, EventRows(SortedRows(rows)))
    ensures forall k :: 0 <= k < |EventRows(SortedRows(rows))| ==>
      IsCopy(Log(Migrated(rows, name))[k], EventRows(SortedRows(rows))[k], Numbers(rows), Places(rows, name))
  {
    var events, log := EventRows(SortedRows(rows)), Log(Migrated(rows, name));
    RowsSorted(rows, RowOrder);
    forall row ensures row in events <==> row in rows && row.EventRow? { EventRowsMembers(SortedRows(rows), row); }
    var copied := MessagesFrom(rows, name, events);
    MigratedIsSound(rows, name);
    SoundLogClimbs(Migrated(rows, name));
    EventRowsSorted(rows);
    CopiedClimbs(rows, name, events);
    forall m ensures m in log <==> m in copied { SameMessages(rows, name, m); }
    SameClimbingLog(log, copied);
    forall k | 0 <= k < |events| ensures IsCopy(copied[k], events[k], Numbers(rows), Places(rows, name)) {
      assert events[k] in events;
      RowNumbered(rows, events[k]);
      RowPlaceAt(rows, name, events[k]);
    }
  }

  /** The message says what the row says, under the row's new number and at its place in its run. */
  ghost predicate IsCopy(m: Message, row: LegacyRow, numbers: map<Id, nat>, places: map<Id, (Id, nat)>)
    requires row.EventRow?
  {
    && m.id == row.id && m.role == row.role && m.calls == row.calls && m.result == row.result
    && m.classification == row.classification && m.size == row.size
    && row.id in numbers && m.threadSeq == numbers[row.id]
    && row.id in places && m.runId == places[row.id].0 && m.runSeq == places[row.id].1
  }

  lemma {:induction false} SameMessages(rows: seq<LegacyRow>, name: (nat, bool) -> Id, m: Message)
    requires RowsHaveIds(rows) && NamesRuns(name)
    requires forall row :: row in EventRows(SortedRows(rows)) <==> row in rows && row.EventRow?
    ensures m in Log(Migrated(rows, name)) <==> m in MessagesFrom(rows, name, EventRows(SortedRows(rows)))
  {
    var events := EventRows(SortedRows(rows));
    var copied := MessagesFrom(rows, name, events);
    LogMembers(Migrated(rows, name), m);
    if m in Log(Migrated(rows, name)) {
      var a := MessageOrigin(rows, name, m);
      var i :| 0 <= i < |events| && events[i] == a;
      assert copied[i] == m;
    }
    if m in copied {
      var i :| 0 <= i < |copied| && copied[i] == m;
      assert events[i] in events;
      var n := CopiedMessage(rows, name, events[i]);
    }
  }

  lemma {:induction false} EventRowsSorted(rows: seq<LegacyRow>)
    requires RowsHaveIds(rows)
    ensures RowsHaveIds(EventRows(SortedRows(rows))) && SortedBy(EventRows(SortedRows(rows)), RowOrder)
  {
    RowsSorted(rows, RowOrder);
    SortBySorted(rows, RowOrder);
    EventRowsKeep(SortedRows(rows));
  }

  lemma {:induction false} EventRowsKeep(rows: seq<LegacyRow>)
    requires RowsHaveIds(rows) && SortedBy(rows, RowOrder)
    ensures RowsHaveIds(EventRows(rows)) && SortedBy(EventRows(rows), RowOrder)
    decreases |rows|
  {
    if rows != [] {
      var n := |rows| - 1;
      EventRowsKeep(rows[..n]);
      forall row | row in EventRows(rows[..n]) ensures RowOrder(row, rows[n]) && row.id != rows[n].id {
        EventRowsMembers(rows[..n], row);
        var i :| 0 <= i < n && rows[i] == row;
      }
    }
  }

  lemma {:induction false} CopiedClimbs(rows: seq<LegacyRow>, name: (nat, bool) -> Id, events: seq<LegacyRow>)
    requires RowsHaveIds(rows) && NamesRuns(name) && RowsHaveIds(events) && SortedBy(events, RowOrder)
    requires forall row :: row in events ==> row in rows && row.EventRow?
    ensures Climbing(ThreadSeqs(MessagesFrom(rows, name, events)))
  {
    var copied := MessagesFrom(rows, name, events);
    forall i | 0 < i < |copied| ensures ThreadSeqs(copied)[i - 1] < ThreadSeqs(copied)[i] {
      assert events[i - 1] in events && events[i] in events;
      RowNumbers(rows, events[i - 1], events[i]);
      RowPlaceAt(rows, name, events[i - 1]);
      RowPlaceAt(rows, name, events[i]);
    }
  }

  // ----- Readable or not -----

  /** The result row at `n` answers the row at `h`: nothing but other results stands between them. */
  ghost predicate RowAnswers(rows: seq<LegacyRow>, n: nat, h: nat)
    requires n < |rows| && forall row :: row in rows ==> row.EventRow?
  {
    && h < n && rows[n].result.Some? && rows[h].result.None? && rows[n].result.value in rows[h].calls
    && forall k :: h < k < n ==> rows[k].result.Some? && rows[k].result != rows[n].result
  }

  /** A result row apart from its call. */
  ghost predicate RowOrphan(rows: seq<LegacyRow>, n: nat)
    requires n < |rows| && forall row :: row in rows ==> row.EventRow?
  {
    rows[n].result.Some? && forall h: nat :: !RowAnswers(rows, n, h)
  }

  ghost predicate NoRowOrphans(rows: seq<LegacyRow>)
    requires forall row :: row in rows ==> row.EventRow?
  {
    forall n: nat :: n < |rows| ==> !RowOrphan(rows, n)
  }

  /** The log says of each row what the row says. */
  ghost predicate SameCalls(log: seq<Message>, events: seq<LegacyRow>)
    requires forall row :: row in events ==> row.EventRow?
  {
    |log| == |events| && forall k :: 0 <= k < |log| ==>
      log[k].result == events[k].result && log[k].calls == events[k].calls
  }

  lemma {:induction false} SameAnswer(log: seq<Message>, events: seq<LegacyRow>, n: nat, h: nat)
    requires (forall row :: row in events ==> row.EventRow?) && SameCalls(log, events) && n < |log|
    ensures AnswersAt(log, n, h) <==> RowAnswers(events, n, h)
  {
    if h < n { assert CallSet(log[h]) == set c | c in events[h].calls; }
  }

  lemma {:induction false} SameOrphan(log: seq<Message>, events: seq<LegacyRow>, n: nat)
    requires (forall row :: row in events ==> row.EventRow?) && SameCalls(log, events) && n < |log|
    ensures Orphan(log, n) <==> RowOrphan(events, n)
  {
    forall h: nat ensures AnswersAt(log, n, h) <==> RowAnswers(events, n, h) { SameAnswer(log, events, n, h); }
  }

  /** The transcript events of a session in number order, as the readers will see them. */
  ghost function Transcript(rows: seq<LegacyRow>): (r: seq<LegacyRow>)
    ensures forall row :: row in r ==> row.EventRow?
  {
    forall row ensures row in EventRows(SortedRows(rows)) ==> row.EventRow? { EventRowsMembers(SortedRows(rows), row); }
    EventRows(SortedRows(rows))
  }

  lemma {:induction false} CopiedSameCalls(rows: seq<LegacyRow>, name: (nat, bool) -> Id)
    requires RowsHaveIds(rows) && NamesRuns(name)
    ensures SameCalls(Log(Migrated(rows, name)), Transcript(rows))
  {
    MigratedLog(rows, name);
    var events := Transcript(rows);
    var copied := MessagesFrom(rows, name, events);
    forall k | 0 <= k < |events| ensures copied[k].result == events[k].result && copied[k].calls == events[k].calls {
      assert events[k] in events;
      RowPlaceAt(rows, name, events[k]);
    }
  }

  /** A migrated thread can be read exactly when, in number order, no legacy result stands apart from its call. */
  lemma {:induction false} MigratedReadableIff(rows: seq<LegacyRow>, name: (nat, bool) -> Id)
    requires RowsHaveIds(rows) && NamesRuns(name)
    ensures Parse(Log(Migrated(rows, name))).Some? <==> NoRowOrphans(Transcript(rows))
  {
    var events, log := Transcript(rows), Log(Migrated(rows, name));
    CopiedSameCalls(rows, name);
    ReadableIffNoOrphans(log);
    forall n: nat | n < |events| ensures Orphan(log, n) <==> RowOrphan(events, n) { SameOrphan(log, events, n); }
  }

  // ----- A thread that resumes and cannot be read -----

  /** Legacy rows of a call, a whole exchange, and only then the call's answer. */
  ghost predicate LateAnswer(rows: seq<LegacyRow>, call: Id) {
    && |rows| == 4 && (forall i :: 0 <= i < 4 ==> rows[i].EventRow? && rows[i].number == Some(i + 1))
      && RowsHaveIds(rows)
    && rows[0].role.Assistant? && rows[0].calls == [call] && rows[0].result.None?
    && rows[1].role.User? && rows[1].calls == [] && rows[1].result.None?
    && rows[2].role.Assistant? && rows[2].calls == [] && rows[2].result.None?
    && rows[3].role.Tool? && rows[3].calls == [] && rows[3].result == Some(call)
  }

  /** The inference puts the call and its answer into the run for stray events, around the exchange's run. */
  lemma {:induction false} LateAnswerEvents(rows: seq<LegacyRow>, call: Id)
    requires LateAnswer(rows, call)
    ensures SortedEvents(rows) == [EventOf(rows[0]), EventOf(rows[1]), EventOf(rows[2]), EventOf(rows[3])]
    ensures SortedRows(rows) == rows && EventRows(rows) == rows
  {
    var es := [EventOf(rows[0]), EventOf(rows[1]), EventOf(rows[2]), EventOf(rows[3])];
    FourRows(rows);
    SortByIdentity(es, EventOrder);
    SortByIdentity(rows, RowOrder);
  }

  lemma {:induction false} EventsStep(rows: seq<LegacyRow>, n: nat)
    requires n < |rows| && rows[n].EventRow?
    ensures EventsIn(rows[..n + 1]) == EventsIn(rows[..n]) + [EventOf(rows[n])]
    ensures EventRows(rows[..n + 1]) == EventRows(rows[..n]) + [rows[n]]
  {
    assert rows[..n + 1][..n] == rows[..n];
  }

  lemma {:induction false} FourRows(rows: seq<LegacyRow>)
    requires |rows| == 4 && forall i :: 0 <= i < 4 ==> rows[i].EventRow?
    ensures EventsIn(rows) == [EventOf(rows[0]), EventOf(rows[1]), EventOf(rows[2]), EventOf(rows[3])]
      && EventRows(rows) == rows
  {
    EventsStep(rows, 0);
    EventsStep(rows, 1);
    EventsStep(rows, 2);
    EventsStep(rows, 3);
    assert rows[..4] == rows && rows[..0] == [];
  }

  lemma {:induction false} LateAnswerBlocks(es: seq<LegacyEvent>)
    requires |es| == 4 && !Opens(es[0]) && !Closes(es[0]) && Opens(es[1]) && Closes(es[2]) && !Opens(es[2])
      && !Opens(es[3])
    ensures BlockOf(es, 0) == None && BlockOf(es, 1) == Some(1) && BlockOf(es, 2) == Some(1) && BlockOf(es, 3) == None
  {
    assert OpenAt(es, 0) == None;
    assert OpenAt(es, 1) == None;
    assert OpenAt(es, 2) == Some(1);
    assert OpenAt(es, 3) == None;
  }

  /** The runs of the four messages: the outer two share one, the inner two another. */
  lemma {:induction false} LateAnswerRuns(rows: seq<LegacyRow>, call: Id, name: (nat, bool) -> Id)
    requires LateAnswer(rows, call) && NamesRuns(name)
    ensures forall i :: 0 <= i < 4 ==> rows[i].id in Places(rows, name)
    ensures Places(rows, name)[rows[0].id].0 == Places(rows, name)[rows[3].id].0
    ensures Places(rows, name)[rows[1].id].0 == Places(rows, name)[rows[2].id].0 != Places(rows, name)[rows[0].id].0
  {
    LateAnswerEvents(rows, call);
    var es := SortedEvents(rows);
    LateAnswerBlocks(es);
    forall i | 0 <= i < 4 ensures rows[i].id in Places(rows, name) { RowPlaceAt(rows, name, rows[i]); }
    SameBlockSameRun(rows, name, 0, 3);
    SameBlockSameRun(rows, name, 1, 2);
    OtherBlockOtherRun(rows, name, 0, 1);
  }

  lemma {:induction false} SameBlockSameRun(rows: seq<LegacyRow>, name: (nat, bool) -> Id, i: nat, j: nat)
    requires RowsHaveIds(rows) && NamesRuns(name) && i < |rows| && j < |rows| && i < |SortedEvents(rows)|
      && j < |SortedEvents(rows)|
    requires rows[i].EventRow? && rows[j].EventRow?
    requires SortedEvents(rows)[i] == EventOf(rows[i]) && SortedEvents(rows)[j] == EventOf(rows[j])
    requires BlockOf(SortedEvents(rows), i) == BlockOf(SortedEvents(rows), j)
    requires rows[i].id in Places(rows, name) && rows[j].id in Places(rows, name)
    ensures Places(rows, name)[rows[i].id].0 == Places(rows, name)[rows[j].id].0
  {
    var es := SortedEvents(rows);
    EventsSorted(rows);
    var p := EveryEventIsPlaced(es, i, name);
    var q := EveryEventIsPlaced(es, j, name);
    BlocksDistinct(es, |es|);
  }

  lemma {:induction false} OtherBlockOtherRun(rows: seq<LegacyRow>, name: (nat, bool) -> Id, i: nat, j: nat)
    requires RowsHaveIds(rows) && NamesRuns(name) && i < |rows| && j < |rows| && i < |SortedEvents(rows)|
      && j < |SortedEvents(rows)|
    requires rows[i].EventRow? && rows[j].EventRow?
    requires SortedEvents(rows)[i] == EventOf(rows[i]) && SortedEvents(rows)[j] == EventOf(rows[j])
    requires BlockOf(SortedEvents(rows), i) != BlockOf(SortedEvents(rows), j)
    requires rows[i].id in Places(rows, name) && rows[j].id in Places(rows, name)
    ensures Places(rows, name)[rows[i].id].0 != Places(rows, name)[rows[j].id].0
  {
    var es := SortedEvents(rows);
    EventsSorted(rows);
    var p := EveryEventIsPlaced(es, i, name);
    var q := EveryEventIsPlaced(es, j, name);
    RunsAreNumbered(es, name, p);
    RunsAreNumbered(es, name, q);
  }

  lemma {:induction false} FourRuns(a: Message, b: Message, c: Message, d: Message, run: Id)
    requires a.runId == d.runId && b.runId == c.runId && a.runId != b.runId
    ensures RunLog([a, b, c, d], run) == if run == a.runId then [a, d] else if run == b.runId then [b, c] else []
  {
    RunLogSnoc([], a, run);
    RunLogSnoc([] + [a], b, run);
    RunLogSnoc([] + [a] + [b], c, run);
    RunLogSnoc([] + [a] + [b] + [c], d, run);
    assert [] + [a] + [b] + [c] + [d] == [a, b, c, d];
  }

  /** Each run of such a log keeps the protocol. */
  lemma {:induction false} FourPaired(a: Message, b: Message, c: Message, d: Message, call: Id, run: Id)
    requires a.runId == d.runId && b.runId == c.runId && a.runId != b.runId
    requires a.role.Assistant? && a.calls == [call] && a.result.None? && d.role.Tool? && d.calls == []
      && d.result == Some(call)
    requires b.calls == c.calls == [] && b.result == c.result == None
    ensures Protocol(RunLog([a, b, c, d], run))
  {
    FourRuns(a, b, c, d, run);
    if run == a.runId {
      CallAndAnswer(a, d);
    } else if run == b.runId {
      PlainPair(b, c);
    } else {
      assert Protocol([]);
    }
  }

  lemma {:induction false} PlainPair(b: Message, c: Message)
    requires b.calls == c.calls == [] && b.result == c.result == None
    ensures Protocol([b, c])
  {
    SingleMessage(b);
    SetsSnoc([], b);
    assert [] + [b] == [b] && [b] + [c] == [b, c];
    ProtocolSnoc([b], c);
  }

  /** The migrated log of such rows. */
  lemma {:induction false} LateAnswerLog(rows: seq<LegacyRow>, call: Id, name: (nat, bool) -> Id)
    requires LateAnswer(rows, call) && NamesRuns(name)
    ensures var log := Log(Migrated(rows, name));
            && |log| == 4
              && (forall i :: 0 <= i < 4 ==>
                log[i].role == rows[i].role && log[i].calls == rows[i].calls && log[i].result == rows[i].result)
            && log[0].runId == log[3].runId && log[1].runId == log[2].runId && log[0].runId != log[1].runId
  {
    LateAnswerEvents(rows, call);
    LateAnswerRuns(rows, call, name);
    MigratedLog(rows, name);
    forall i | 0 <= i < 4 ensures rows[i] in rows { }
  }

  /** The answer stands apart from its call. */
  lemma {:induction false} LateAnswerIsOrphan(rows: seq<LegacyRow>, call: Id)
    requires LateAnswer(rows, call)
    ensures !NoRowOrphans(rows)
  {
    forall h: nat ensures !RowAnswers(rows, 3, h) {
      if h == 0 { assert rows[1].result.None?; }
    }
    assert RowOrphan(rows, 3);
  }

  /** Such a session migrates to a thread that the resume check accepts and the assembler cannot read. */
  lemma {:induction false} LateAnswerResumesUnread(rows: seq<LegacyRow>, call: Id, name: (nat, bool) -> Id)
    requires LateAnswer(rows, call) && NamesRuns(name)
    ensures Validated(Log(Migrated(rows, name))) && Parse(Log(Migrated(rows, name))).None?
  {
    LateAnswerResumes(rows, call, name);
    LateAnswerEvents(rows, call);
    LateAnswerIsOrphan(rows, call);
    MigratedReadableIff(rows, name);
  }

  lemma {:induction false} LateAnswerResumes(rows: seq<LegacyRow>, call: Id, name: (nat, bool) -> Id)
    requires LateAnswer(rows, call) && NamesRuns(name)
    ensures Validated(Log(Migrated(rows, name)))
  {
    DistinctNumbersAgree(rows, name);
    MigratedResumesInOrder(rows, name);
    LateAnswerPaired(rows, call, name);
  }

  lemma {:induction false} LateAnswerPaired(rows: seq<LegacyRow>, call: Id, name: (nat, bool) -> Id)
    requires LateAnswer(rows, call) && NamesRuns(name)
    ensures EveryRunPaired(Log(Migrated(rows, name)))
  {
    var log := Log(Migrated(rows, name));
    LateAnswerLog(rows, call, name);
    assert log == [log[0], log[1], log[2], log[3]];
    forall run: Id ensures Protocol(RunLog(log, run)) { FourPaired(log[0], log[1], log[2], log[3], call, run); }
  }
}
