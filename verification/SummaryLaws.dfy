/** What every interleaving of appenders and summary builders keeps: the active summary is unique, covers exactly a
    prefix of whole groups, and never understates a source's classification. */
module SummaryLaws {
  import opened Basics
  import opened Messages
  import opened Pairing
  import opened Groups
  import opened GroupLaws
  import opened LogOrder
  import opened Sorting
  import opened Threads
  import opened ThreadLaws
  import opened Summaries

  /** The messages are whole groups, one after another. */
  ghost predicate Whole(log: seq<Message>) {
    exists groups: seq<seq<Message>> :: GroupsOf(groups, log)
  }

  ghost predicate GroupsOf(groups: seq<seq<Message>>, log: seq<Message>) {
    (forall g :: g in groups ==> IsGroup(g)) && log == Flatten(groups)
  }

  /** The summary was made from exactly the first `n` messages, which are whole groups, and is classified no lower than
      any of them. */
  ghost predicate CoversPrefix(s: Summary, log: seq<Message>, n: nat) {
    && 0 < n <= |log|
    && s.sources == Ids(log[..n])
    && s.covered == log[n - 1].threadSeq
    && Whole(log[..n])
    && forall i :: 0 <= i < n ==> Rank(log[i].classification) <= Rank(s.classification)
  }

  ghost predicate Covers(s: Summary, log: seq<Message>) {
    exists n :: CoversPrefix(s, log, n)
  }

  predicate IsActive(row: Row) {
    row.SummaryRow? && row.active
  }

  ghost predicate OneActive(rows: seq<Row>) {
    forall i, j :: 0 <= i < j < |rows| ==> !(IsActive(rows[i]) && IsActive(rows[j]))
  }

  /** A builder never knows more than the thread; if the thread has not moved since its capture, what it read is
      current. */
  ghost predicate BuilderOk(b: Builder, t: Thread) {
    && b.threadVersion <= t.version
    && (b.threadVersion == t.version ==>
          && b.previous == ActiveOf(t.rows)
          && (b.Loaded? ==>
            b.selected != [] && CompletePrefix(After(Log(t), Watermark(b.previous))) == Some(b.selected)))
  }

  ghost predicate SummariesOk(s: System) {
    && Lived(s.thread)
    && OneActive(s.thread.rows)
    && (ActiveOf(s.thread.rows).Some? ==> Covers(ActiveOf(s.thread.rows).value.summary, Log(s.thread)))
    && (forall b :: b in s.builders ==> BuilderOk(s.builders[b], s.thread))
  }

  // ----- Reading beyond a watermark -----

  lemma {:induction false} AfterBoundary(log: seq<Message>, n: nat, w: nat)
    requires n <= |log|
    requires forall i :: 0 <= i < n ==> log[i].threadSeq <= w
    requires forall i :: n <= i < |log| ==> log[i].threadSeq > w
    ensures After(log, w) == log[n..]
    decreases |log|
  {
    if log != [] {
      if n == 0 {
        AfterBoundary(log[1..], 0, w);
      } else {
        AfterBoundary(log[1..], n - 1, w);
        assert log[n..] == log[1..][n - 1..];
      }
    }
  }

  /** What the active summary covers is the log up to its watermark, and what lies beyond is the rest. */
  lemma WatermarkSplits(t: Thread, active: Option<ActiveSummary>) returns (n: nat)
    requires Lived(t) && (active.Some? ==> Covers(active.value.summary, Log(t)))
    ensures n <= |Log(t)| && After(Log(t), Watermark(active)) == Log(t)[n..]
    ensures forall i :: 0 <= i < n ==> Log(t)[i].threadSeq <= Watermark(active)
    ensures forall i :: n <= i < |Log(t)| ==> Log(t)[i].threadSeq > Watermark(active)
    ensures active.None? ==> n == 0
    ensures active.Some? ==> CoversPrefix(active.value.summary, Log(t), n)
  {
    var log := Log(t);
    var w := Watermark(active);
    SoundLogClimbs(t);
    if active.Some? {
      n :| CoversPrefix(active.value.summary, log, n);
      SplitsAt(log, n);
    } else {
      n := 0;
      NumbersArePositive(t);
    }
    AfterBoundary(log, n, w);
  }

  lemma SplitsAt(log: seq<Message>, n: nat)
    requires Climbing(ThreadSeqs(log)) && 0 < n <= |log|
    ensures forall i :: 0 <= i < n ==> log[i].threadSeq <= log[n - 1].threadSeq
    ensures forall i :: n <= i < |log| ==> log[i].threadSeq > log[n - 1].threadSeq
  {
    forall i | 0 <= i < n - 1 ensures log[i].threadSeq <= log[n - 1].threadSeq { ClimbingPairs(log, i, n - 1); }
    forall i | n <= i < |log| ensures log[i].threadSeq > log[n - 1].threadSeq { ClimbingPairs(log, n - 1, i); }
  }

  lemma NumbersArePositive(t: Thread)
    requires Sound(t)
    ensures forall i :: 0 <= i < |Log(t)| ==> Log(t)[i].threadSeq > 0
  {
    var log := Log(t);
    forall i | 0 <= i < |log| ensures log[i].threadSeq > 0 {
      assert log[i] in log;
      LogMembers(t, log[i]);
    }
  }

  lemma {:induction false} CompletePrefixGroups(log: seq<Message>) returns (groups: seq<seq<Message>>)
    requires CompletePrefix(log).Some?
    ensures GroupsOf(groups, CompletePrefix(log).value) && CompletePrefix(log).value <= log
    decreases |log|
  {
    groups := [];
    if log != [] {
      var calls := CallSet(log[0]);
      var k := 1 + Span(log[1..], calls);
      if Unanswered(log[1..], calls) == {} {
        var rest := CompletePrefixGroups(log[k..]);
        groups := [log[..k]] + rest;
        FirstGroupIsWhole(log);
        assert groups[1..] == rest;
        assert log == log[..k] + log[k..];
      }
    }
  }

  lemma FirstGroupIsWhole(log: seq<Message>)
    requires log != [] && log[0].result.None? && Unanswered(log[1..], CallSet(log[0])) == {}
    ensures IsGroup(log[..1 + Span(log[1..], CallSet(log[0]))])
  {
    var k := 1 + Span(log[1..], CallSet(log[0]));
    SpanTrim(log[1..], CallSet(log[0]));
    assert log[..k][1..] == log[1..][..k - 1];
  }

  lemma {:induction false} FlattenAppend(a: seq<seq<Message>>, b: seq<seq<Message>>)
    ensures Flatten(a + b) == Flatten(a) + Flatten(b)
    decreases |a|
  {
    if a == [] {
      assert a + b == b;
    } else {
      FlattenAppend(a[1..], b);
      assert (a + b)[1..] == a[1..] + b;
    }
  }

  lemma WholeAppend(a: seq<Message>, b: seq<Message>)
    requires Whole(a) && Whole(b)
    ensures Whole(a + b)
  {
    var x :| GroupsOf(x, a);
    var y :| GroupsOf(y, b);
    FlattenAppend(x, y);
    assert GroupsOf(x + y, a + b);
  }

  // ----- Classification and provenance of a draft -----

  lemma {:induction false} HighestIsUpperBound(ms: seq<Message>, floor: Classification)
    ensures Rank(floor) <= Rank(HighestOf(ms, floor))
    ensures forall i :: 0 <= i < |ms| ==> Rank(ms[i].classification) <= Rank(HighestOf(ms, floor))
    decreases |ms|
  {
    if ms != [] { HighestIsUpperBound(ms[..|ms| - 1], floor); }
  }

  lemma {:induction false} DedupeDistinct(ids: seq<Id>)
    requires forall i, j :: 0 <= i < j < |ids| ==> ids[i] != ids[j]
    ensures Dedupe(ids) == ids
    decreases |ids|
  {
    if ids != [] {
      DedupeDistinct(ids[..|ids| - 1]);
      assert ids == ids[..|ids| - 1] + [ids[|ids| - 1]];
    }
  }

  lemma LogIdsDistinct(t: Thread)
    requires Sound(t)
    ensures forall i, j :: 0 <= i < j < |Log(t)| ==> Log(t)[i].id != Log(t)[j].id
  {
    var log := Log(t);
    SoundLogClimbs(t);
    forall i, j | 0 <= i < j < |log| ensures log[i].id != log[j].id {
      ClimbingPairs(log, i, j);
      assert log[i] in log && log[j] in log;
      LogMembers(t, log[i]);
      LogMembers(t, log[j]);
      DifferentRowsDifferentIds(t.rows, MessageRow(log[i]), MessageRow(log[j]));
    }
  }

  lemma DifferentRowsDifferentIds(rows: seq<Row>, a: Row, b: Row)
    requires RowsDistinct(rows) && a in rows && b in rows && a != b
    ensures RowId(a) != RowId(b)
  {
    var i :| 0 <= i < |rows| && rows[i] == a;
    var j :| 0 <= j < |rows| && rows[j] == b;
    if i < j { assert !Clash(rows[i], rows[j]); } else { assert !Clash(rows[j], rows[i]); }
  }

  /** The draft is classified no lower than anything it covers. */
  lemma DraftRanks(previous: Option<ActiveSummary>, selected: seq<Message>, evaluated: Classification,
      log: seq<Message>, n: nat)
    requires n + |selected| <= |log| && (previous.None? ==> n == 0)
    requires previous.Some? ==> forall i :: 0 <= i < n ==>
      Rank(log[i].classification) <= Rank(previous.value.summary.classification)
    requires forall i :: 0 <= i < |selected| ==> log[n + i] == selected[i]
    ensures forall i :: 0 <= i < n + |selected| ==>
      Rank(log[i].classification) <= Rank(DraftClass(previous, selected, evaluated))
  {
    HighestIsUpperBound(selected, match previous { case None => evaluated case Some(a) => a.summary.classification });
    forall i | 0 <= i < n + |selected|
      ensures Rank(log[i].classification) <= Rank(DraftClass(previous, selected, evaluated))
    {
      if i >= n { assert log[n + (i - n)] == selected[i - n]; }
    }
  }

  /** The messages up to the end of the selection are whole groups. */
  lemma SelectionIsWhole(log: seq<Message>, n: nat, selected: seq<Message>)
    requires n <= |log| && (n > 0 ==> Whole(log[..n]))
    requires CompletePrefix(log[n..]) == Some(selected)
    ensures n + |selected| <= |log| && log[..n + |selected|] == log[..n] + selected && Whole(log[..n + |selected|])
    ensures forall i :: 0 <= i < |selected| ==> log[n + i] == selected[i]
  {
    var groups := CompletePrefixGroups(log[n..]);
    assert GroupsOf(groups, selected);
    assert selected == log[n..][..|selected|];
    assert log[..n + |selected|] == log[..n] + selected;
    if n > 0 {
      WholeAppend(log[..n], selected);
    } else {
      assert log[..|selected|] == selected;
    }
  }

  /** A builder whose reading is current drafts a summary that covers the log further than the old one. */
  lemma DraftCovers(t: Thread, b: Builder, id: Id, evaluated: Classification)
    requires Lived(t) && b.Loaded? && b.selected != []
    requires b.previous.Some? ==> Covers(b.previous.value.summary, Log(t))
    requires CompletePrefix(After(Log(t), Watermark(b.previous))) == Some(b.selected)
    ensures Covers(Drafted(b, id, evaluated), Log(t))
    ensures Drafted(b, id, evaluated).covered > Watermark(b.previous)
  {
    var n := WatermarkSplits(t, b.previous);
    DraftCoversFrom(t, b, id, evaluated, n);
  }

  lemma DraftCoversFrom(t: Thread, b: Builder, id: Id, evaluated: Classification, n: nat)
    requires Sound(t) && b.Loaded? && b.selected != [] && n <= |Log(t)|
    requires b.previous.None? ==> n == 0
    requires b.previous.Some? ==> CoversPrefix(b.previous.value.summary, Log(t), n)
    requires CompletePrefix(Log(t)[n..]) == Some(b.selected)
    requires forall i :: n <= i < |Log(t)| ==> Log(t)[i].threadSeq > Watermark(b.previous)
    ensures Covers(Drafted(b, id, evaluated), Log(t))
    ensures Drafted(b, id, evaluated).covered > Watermark(b.previous)
  {
    var log := Log(t);
    SelectionIsWhole(log, n, b.selected);
    DraftRanks(b.previous, b.selected, evaluated, log, n);
    SourcesExtend(t, n, b.selected, EarlierSources(b.previous));
    assert log[n + (|b.selected| - 1)] == b.selected[|b.selected| - 1];
    assert CoversPrefix(Drafted(b, id, evaluated), log, n + |b.selected|);
  }

  lemma SourcesExtend(t: Thread, n: nat, selected: seq<Message>, earlier: seq<Id>)
    requires Sound(t) && n + |selected| <= |Log(t)|
    requires Log(t)[..n + |selected|] == Log(t)[..n] + selected
    requires earlier == Ids(Log(t)[..n])
    ensures Dedupe(earlier + Ids(selected)) == Ids(Log(t)[..n + |selected|])
  {
    var all := Ids(Log(t)[..n + |selected|]);
    LogIdsDistinct(t);
    assert earlier + Ids(selected) == all;
    DedupeDistinct(all);
  }

  // ----- Rows under an activation -----

  lemma {:induction false} StatusKeepsMessages(rows: seq<Row>, id: Id, active: bool)
    ensures MessagesOf(SetStatus(rows, id, active)) == MessagesOf(rows)
    decreases |rows|
  {
    if rows != [] {
      StatusKeepsMessages(rows[..|rows| - 1], id, active);
      assert SetStatus(rows, id, active)[..|rows| - 1] == SetStatus(rows[..|rows| - 1], id, active);
    }
  }

  /** The rows that matter to an activation: old ones with at most the old summary switched off, then the new
      summary. */
  function SwitchedOff(rows: seq<Row>, past: Option<ActiveSummary>): seq<Row> {
    match past case None => rows case Some(a) => SetStatus(rows, a.summary.id, false)
  }

  lemma ActivatedRowsShape(t: Thread, past: Option<ActiveSummary>, s: Summary)
    requires Sound(t) && (forall row :: row in t.rows ==> RowId(row) != s.id)
    requires past.Some? ==> exists row :: row in t.rows && RowId(row) == past.value.summary.id
    ensures ActivatedRows(t, past, s) == SwitchedOff(t.rows, past) + [SummaryRow(s, t.nextSeq, true, 2)]
  {
    FreshRowIsInserted(t, SummaryRow(s, t.nextSeq, false, 1));
    var inserted := t.rows + [SummaryRow(s, t.nextSeq, false, 1)];
    forall i | 0 <= i < |t.rows| ensures RowId(t.rows[i]) != s.id {
      assert t.rows[i] in t.rows;
    }
    match past {
      case None =>
        assert SetStatus(inserted, s.id, true) == t.rows + [SummaryRow(s, t.nextSeq, true, 2)];
      case Some(a) =>
        assert a.summary.id != s.id;
        assert SetStatus(SetStatus(inserted, a.summary.id, false), s.id, true)
            == SetStatus(t.rows, a.summary.id, false) + [SummaryRow(s, t.nextSeq, true, 2)];
    }
  }

  lemma {:induction false} ActiveRowIsStored(rows: seq<Row>)
    requires ActiveOf(rows).Some?
    ensures exists i :: 0 <= i < |rows| && IsActive(rows[i]) && rows[i].summary == ActiveOf(rows).value.summary
    decreases |rows|
  {
    if !IsActive(rows[|rows| - 1]) {
      ActiveRowIsStored(rows[..|rows| - 1]);
      var i :| 0 <= i < |rows| - 1 && IsActive(rows[..|rows| - 1][i])
        && rows[..|rows| - 1][i].summary == ActiveOf(rows).value.summary;
      assert IsActive(rows[i]);
    }
  }

  lemma {:induction false} NoActiveRow(rows: seq<Row>)
    requires ActiveOf(rows).None?
    ensures forall i :: 0 <= i < |rows| ==> !IsActive(rows[i])
    decreases |rows|
  {
    if rows != [] {
      NoActiveRow(rows[..|rows| - 1]);
      assert forall i :: 0 <= i < |rows| - 1 ==> rows[..|rows| - 1][i] == rows[i];
    }
  }

  /** Switching the old summary off leaves nothing active. */
  lemma NothingActive(rows: seq<Row>)
    requires OneActive(rows)
    ensures forall i :: 0 <= i < |rows| ==> !IsActive(SwitchedOff(rows, ActiveOf(rows))[i])
  {
    if ActiveOf(rows).None? {
      NoActiveRow(rows);
    } else {
      ActiveRowIsStored(rows);
      var k :| 0 <= k < |rows| && IsActive(rows[k]) && rows[k].summary == ActiveOf(rows).value.summary;
      assert forall i :: 0 <= i < |rows| && i != k ==> !IsActive(rows[i]);
    }
  }

  lemma OneActiveSnoc(rows: seq<Row>, row: Row)
    requires forall i :: 0 <= i < |rows| ==> !IsActive(rows[i])
    requires IsActive(row)
    ensures OneActive(rows + [row]) && ActiveOf(rows + [row]) == Some(ActiveSummary(row.summary, row.version))
  {
  }

  /** Same id and number, and the same message if it is one. */
  predicate SameShape(a: Row, b: Row) {
    RowId(a) == RowId(b) && RowSeq(a) == RowSeq(b) && (a.MessageRow? <==> b.MessageRow?) && (a.MessageRow? ==> a == b)
  }

  /** Switching and adding a summary row changes no id, no number and no message. */
  lemma SwitchedRows(t: Thread, s: Summary)
    requires Sound(t) && forall row :: row in t.rows ==> RowId(row) != s.id
    ensures var rows := SwitchedOff(t.rows, ActiveOf(t.rows));
            && |rows| == |t.rows|
            && (forall i :: 0 <= i < |rows| ==> SameShape(rows[i], t.rows[i]))
            && MessagesOf(rows) == MessagesOf(t.rows)
            && ActivatedRows(t, ActiveOf(t.rows), s) == rows + [SummaryRow(s, t.nextSeq, true, 2)]
  {
    var active := ActiveOf(t.rows);
    if active.Some? {
      ActiveRowIsStored(t.rows);
      StatusKeepsMessages(t.rows, active.value.summary.id, false);
      var i :| 0 <= i < |t.rows| && IsActive(t.rows[i]) && t.rows[i].summary == active.value.summary;
      assert t.rows[i] in t.rows;
    }
    ActivatedRowsShape(t, active, s);
  }

  lemma SwitchedCounted(t: Thread, rows: seq<Row>, added: Row)
    requires RowsCounted(t) && |rows| == |t.rows| && !added.MessageRow? && RowSeq(added) == t.nextSeq >= 1
    requires forall i :: 0 <= i < |rows| ==> SameShape(rows[i], t.rows[i])
    ensures RowsCounted(t.(nextSeq := t.nextSeq + 1, version := t.version + 1, rows := rows + [added]))
  {
    forall row | row in rows + [added]
      ensures 1 <= RowSeq(row) < t.nextSeq + 1
      ensures row.MessageRow? ==>
        row.message.runId in t.runs && 1 <= row.message.runSeq < t.runs[row.message.runId].nextSeq
    {
      if row != added {
        var i :| 0 <= i < |rows| && rows[i] == row;
        assert t.rows[i] in t.rows;
      }
    }
  }

  lemma ActivationKeepsSound(t: Thread, s: Summary)
    requires Sound(t) && forall row :: row in t.rows ==> RowId(row) != s.id
    ensures Sound(ActivatedThread(t, s))
  {
    SwitchedRows(t, s);
    var rows := SwitchedOff(t.rows, ActiveOf(t.rows));
    var added := SummaryRow(s, t.nextSeq, true, 2);
    SwitchedDistinct(t.rows, rows, added, t.nextSeq);
    SwitchedCounted(t, rows, added);
  }

  lemma SwitchedDistinct(rows: seq<Row>, rows': seq<Row>, added: Row, next: nat)
    requires RowsDistinct(rows) && |rows'| == |rows| && !added.MessageRow? && RowSeq(added) == next
    requires forall i :: 0 <= i < |rows| ==> SameShape(rows'[i], rows[i])
    requires forall row :: row in rows ==> RowSeq(row) < next && RowId(row) != RowId(added)
    ensures RowsDistinct(rows' + [added])
  {
    var all := rows' + [added];
    forall i, j | 0 <= i < j < |all| ensures !Clash(all[i], all[j]) {
      assert all[i] == rows'[i] && rows[i] in rows;
      if j < |rows| {
        assert all[j] == rows'[j];
        assert !Clash(rows[i], rows[j]);
      }
    }
  }

  lemma ActivationKeepsLived(t: Thread, s: Summary)
    requires Lived(t) && forall row :: row in t.rows ==> RowId(row) != s.id
    ensures Lived(ActivatedThread(t, s)) && Log(ActivatedThread(t, s)) == Log(t)
  {
    ActivationKeepsSound(t, s);
    ActivationKeepsLog(t, s);
    NumbersKept(t, ActivatedThread(t, s));
  }

  lemma ActivationKeepsLog(t: Thread, s: Summary)
    requires Sound(t) && forall row :: row in t.rows ==> RowId(row) != s.id
    ensures Log(ActivatedThread(t, s)) == Log(t) && ActivatedThread(t, s).runs == t.runs
  {
    var rows := ActivatedThread(t, s).rows;
    SwitchedRows(t, s);
    assert rows[..|t.rows|] == SwitchedOff(t.rows, ActiveOf(t.rows));
    assert MessagesOf(rows) == MessagesOf(t.rows);
  }

  // ----- Every interleaving -----

  /** What a lifecycle step does to rows and version: nothing, or one more row that is no summary and a new version. */
  lemma EventEffect(t: Thread, e: Event)
    requires Lived(t) && FreshStep(t, e)
    ensures var t' := Next(t, e);
            && t'.version >= t.version
            && (t'.rows == t.rows
              || (t'.version > t.version && exists row: Row :: !row.SummaryRow? && t'.rows == t.rows + [row]))
  {
    if Attempt(t, e).Done? {
      match e
      case Begin(_) =>
      case Say(run, d) => FreshRowIsInserted(t, MessageRow(Stored(d, run, t.nextSeq, t.runs[run].nextSeq)));
      case Jot(id) => FreshRowIsInserted(t, NoteRow(id, t.nextSeq));
      case Finish(_, _, _, _) =>
      case Archive =>
    }
  }

  lemma CoversGrows(s: Summary, log: seq<Message>, longer: seq<Message>)
    requires Covers(s, log) && log <= longer
    ensures Covers(s, longer)
  {
    var n: nat :| CoversPrefix(s, log, n);
    assert longer[..n] == log[..n];
    assert CoversPrefix(s, longer, n);
  }

  lemma LogGrows(t: Thread, e: Event)
    requires Lived(t) && FreshStep(t, e)
    ensures Log(t) <= Log(Next(t, e))
    ensures Next(t, e).rows == t.rows ==> Log(Next(t, e)) == Log(t)
  {
    if Attempt(t, e).Done? {
      if e.Say? {
        AppendGrowsLog(t, e.run, e.draft, Stored(e.draft, e.run, t.nextSeq, t.runs[e.run].nextSeq));
      } else if e.Jot? {
        JotLeavesRuns(t, e.noteId);
      } else {
        SameRowsSameLog(t, Next(t, e));
      }
    }
  }

  lemma AddedRowKeepsActive(rows: seq<Row>, row: Row)
    requires OneActive(rows) && !row.SummaryRow?
    ensures OneActive(rows + [row]) && ActiveOf(rows + [row]) == ActiveOf(rows)
  {
    assert (rows + [row])[..|rows|] == rows;
  }

  lemma EventKeepsSummaries(s: System, e: Event)
    requires SummariesOk(s) && FreshStep(s.thread, e)
    ensures SummariesOk(s.(thread := Next(s.thread, e)))
    ensures ActiveOf(Next(s.thread, e).rows) == ActiveOf(s.thread.rows)
  {
    var t, t' := s.thread, Next(s.thread, e);
    StepKeepsLived(t, e);
    EventEffect(t, e);
    LogGrows(t, e);
    if t'.rows != t.rows {
      var row: Row :| !row.SummaryRow? && t'.rows == t.rows + [row];
      AddedRowKeepsActive(t.rows, row);
    }
    if ActiveOf(t.rows).Some? { CoversGrows(ActiveOf(t.rows).value.summary, Log(t), Log(t')); }
    forall b | b in s.builders ensures BuilderOk(s.builders[b], t') {
      assert BuilderOk(s.builders[b], t);
    }
  }

  lemma LoadKeepsSummaries(s: System, b: Id)
    requires SummariesOk(s) && LoadStep(s, b).Went?
    ensures SummariesOk(LoadStep(s, b).system)
  {
    var s' := LoadStep(s, b).system;
    forall x | x in s'.builders ensures BuilderOk(s'.builders[x], s'.thread) {
      assert x in s.builders && BuilderOk(s.builders[x], s.thread);
    }
  }

  lemma ActivationSwitches(t: Thread, draft: Summary)
    requires Lived(t) && OneActive(t.rows) && forall row :: row in t.rows ==> RowId(row) != draft.id
    ensures var t' := ActivatedThread(t, draft);
            && Lived(t') && Log(t') == Log(t) && OneActive(t'.rows)
            && ActiveOf(t'.rows) == Some(ActiveSummary(draft, 2))
  {
    ActivationKeepsLived(t, draft);
    SwitchedRows(t, draft);
    NothingActive(t.rows);
    OneActiveSnoc(SwitchedOff(t.rows, ActiveOf(t.rows)), SummaryRow(draft, t.nextSeq, true, 2));
  }

  /** What the compare-and-swap establishes: the builder's reading is the thread's present. */
  lemma ActivationGuards(s: System, b: Id, id: Id, evaluated: Classification)
    requires SummariesOk(s) && ActivateStep(s, b, id, evaluated).Went?
    ensures b in s.builders && s.builders[b].Loaded? && s.builders[b].selected != []
    ensures s.builders[b].previous == ActiveOf(s.thread.rows)
    ensures CompletePrefix(After(Log(s.thread), Watermark(s.builders[b].previous))) == Some(s.builders[b].selected)
    ensures ActivateStep(s, b, id, evaluated).system
         == System(ActivatedThread(s.thread, Drafted(s.builders[b], id, evaluated)), s.builders - {b})
  {
    assert BuilderOk(s.builders[b], s.thread);
  }

  /** An activation that goes through drafts from the current state of the thread, and moves the watermark forward. */
  lemma ActivationAdvances(s: System, b: Id, id: Id, evaluated: Classification)
    requires SummariesOk(s) && ActivateStep(s, b, id, evaluated).Went? && FreshTake(s, Activate(b, id, evaluated))
    ensures var s' := ActivateStep(s, b, id, evaluated).system; var draft := Drafted(s.builders[b], id, evaluated);
            && Lived(s'.thread) && Log(s'.thread) == Log(s.thread)
            && OneActive(s'.thread.rows) && ActiveOf(s'.thread.rows) == Some(ActiveSummary(draft, 2))
            && Covers(draft, Log(s.thread)) && draft.covered > Watermark(ActiveOf(s.thread.rows))
  {
    ActivationGuards(s, b, id, evaluated);
    DraftCovers(s.thread, s.builders[b], id, evaluated);
    ActivationSwitches(s.thread, Drafted(s.builders[b], id, evaluated));
  }

  lemma ActivateKeepsSummaries(s: System, b: Id, id: Id, evaluated: Classification)
    requires SummariesOk(s) && ActivateStep(s, b, id, evaluated).Went? && FreshTake(s, Activate(b, id, evaluated))
    ensures SummariesOk(ActivateStep(s, b, id, evaluated).system)
  {
    ActivationAdvances(s, b, id, evaluated);
    var s' := ActivateStep(s, b, id, evaluated).system;
    forall x | x in s'.builders ensures BuilderOk(s'.builders[x], s'.thread) {
      assert BuilderOk(s.builders[x], s.thread);
    }
  }

  lemma TakeKeepsSummaries(s: System, step: Step)
    requires SummariesOk(s) && FreshTake(s, step)
    ensures SummariesOk(Take(s, step))
  {
    if Try(s, step).Went? {
      match step
      case On(e) => EventKeepsSummaries(s, e);
      case Capture(b) =>
        forall x | x in Take(s, step).builders ensures BuilderOk(Take(s, step).builders[x], s.thread) {
          if x != b { assert BuilderOk(s.builders[x], s.thread); }
        }
      case Load(b) => LoadKeepsSummaries(s, b);
      case Activate(b, id, evaluated) => ActivateKeepsSummaries(s, b, id, evaluated);
    }
  }

  const NEW_SYSTEM := System(NEW_THREAD, map[])

  lemma {:induction false} EveryInterleavingIsOk(steps: seq<Step>)
    requires FreshTakes(NEW_SYSTEM, steps)
    ensures SummariesOk(Interleave(NEW_SYSTEM, steps))
    decreases |steps|
  {
    if steps == [] {
      EveryRunIsLived([]);
    } else {
      EveryInterleavingIsOk(steps[..|steps| - 1]);
      TakeKeepsSummaries(Interleave(NEW_SYSTEM, steps[..|steps| - 1]), steps[|steps| - 1]);
    }
  }

  /** The watermark never goes back, and every activation moves it forward. */
  lemma WatermarkGrows(s: System, step: Step)
    requires SummariesOk(s) && FreshTake(s, step)
    ensures Watermark(ActiveOf(Take(s, step).thread.rows)) >= Watermark(ActiveOf(s.thread.rows))
    ensures step.Activate? && Try(s, step).Went? ==>
              Watermark(ActiveOf(Take(s, step).thread.rows)) > Watermark(ActiveOf(s.thread.rows))
  {
    if Try(s, step).Went? {
      if step.On? { EventKeepsSummaries(s, step.event); }
      if step.Activate? { ActivationAdvances(s, step.builder, step.summaryId, step.evaluated); }
    }
  }

  // ----- What a reader of the active summary may rely on -----

  /** The messages numbered up to the watermark, in order. */
  function UpTo(log: seq<Message>, w: nat): seq<Message> {
    if log == [] then [] else
      UpTo(log[..|log| - 1], w) + (if log[|log| - 1].threadSeq <= w then [log[|log| - 1]] else [])
  }

  lemma {:induction false} UpToBoundary(log: seq<Message>, n: nat, w: nat)
    requires n <= |log|
    requires forall i :: 0 <= i < n ==> log[i].threadSeq <= w
    requires forall i :: n <= i < |log| ==> log[i].threadSeq > w
    ensures UpTo(log, w) == log[..n]
    decreases |log|
  {
    if log != [] {
      var front := log[..|log| - 1];
      if n == |log| {
        UpToBoundary(front, n - 1, w);
        assert log[..n] == front + [log[|log| - 1]] && front[..n - 1] == front;
      } else {
        UpToBoundary(front, n, w);
        assert front[..n] == log[..n];
      }
    }
  }

  /** In every interleaving there is at most one active summary; its sources are exactly the messages numbered up to its
      watermark, none skipped and none repeated; and it is classified no lower than any of them. */
  lemma ActiveSummaryIsExact(steps: seq<Step>)
    requires FreshTakes(NEW_SYSTEM, steps)
    ensures var t := Interleave(NEW_SYSTEM, steps).thread;
            && OneActive(t.rows)
            && (ActiveOf(t.rows).Some? ==>
                  var s := ActiveOf(t.rows).value.summary;
                  && s.sources == Ids(UpTo(Log(t), s.covered))
                  && forall m :: m in UpTo(Log(t), s.covered) ==> Rank(m.classification) <= Rank(s.classification))
  {
    EveryInterleavingIsOk(steps);
    var t := Interleave(NEW_SYSTEM, steps).thread;
    if ActiveOf(t.rows).Some? {
      var n := WatermarkSplits(t, ActiveOf(t.rows));
      UpToBoundary(Log(t), n, Watermark(ActiveOf(t.rows)));
    }
  }

  lemma {:induction false} ParseWholeFirst(groups: seq<seq<Message>>, rest: seq<Message>)
    requires forall g :: g in groups ==> IsGroup(g)
    ensures Parse(rest).None? ==> Parse(Flatten(groups) + rest).None?
    ensures Parse(rest).Some? ==> Parse(Flatten(groups) + rest) == Some(AsChunks(groups) + Parse(rest).value)
    decreases |groups|
  {
    if groups == [] {
      assert Flatten(groups) + rest == rest;
      if Parse(rest).Some? { assert AsChunks(groups) + Parse(rest).value == Parse(rest).value; }
    } else {
      var tail := Flatten(groups[1..]) + rest;
      ParseWholeFirst(groups[1..], rest);
      ParseGroupFirst(groups[0], tail);
      assert Flatten(groups) + rest == groups[0] + tail;
      if Parse(rest).Some? { AsChunksCons(groups, Parse(rest).value); }
    }
  }

  lemma AsChunksCons(groups: seq<seq<Message>>, rest: seq<Chunk>)
    requires groups != []
    ensures AsChunks(groups) + rest == [Chunk(groups[0], true)] + (AsChunks(groups[1..]) + rest)
  {
  }

  lemma {:induction false} AsChunksItems(groups: seq<seq<Message>>)
    ensures AllItems(AsChunks(groups)) == Flatten(groups)
    ensures forall c :: c in AsChunks(groups) ==> c.complete
    decreases |groups|
  {
    if groups != [] {
      AsChunksItems(groups[1..]);
      assert AsChunks(groups)[1..] == AsChunks(groups[1..]);
    }
  }

  /** The watermark never falls inside a tool group, and never reaches an incomplete one. */
  lemma WatermarkFallsBetweenGroups(t: Thread, active: ActiveSummary, c: Chunk)
    requires Lived(t) && Covers(active.summary, Log(t))
    requires Parse(Log(t)).Some? && c in Parse(Log(t)).value
    ensures || (c.complete && forall m :: m in c.items ==> m.threadSeq <= active.summary.covered)
            || (forall m :: m in c.items ==> m.threadSeq > active.summary.covered)
  {
    var n := WatermarkSplits(t, Some(active));
    ChunkOnOneSide(Log(t), n, c);
  }

  /** A chunk of a log with a whole beginning is complete and inside it, or beyond it. */
  lemma {:induction false} ChunkOnOneSide(log: seq<Message>, n: nat, c: Chunk)
    requires n <= |log| && Whole(log[..n]) && Parse(log).Some? && c in Parse(log).value
    ensures (c.complete && forall m :: m in c.items ==> m in log[..n]) || (forall m :: m in c.items ==> m in log[n..])
  {
    var groups :| GroupsOf(groups, log[..n]);
    assert log == Flatten(groups) + log[n..];
    ParseWholeFirst(groups, log[n..]);
    AsChunksItems(groups);
    ParseCutsWell(log[n..]);
    if c in AsChunks(groups) {
      forall m | m in c.items ensures m in log[..n] { ItemsInLog(AsChunks(groups), c, m); }
    } else {
      forall m | m in c.items ensures m in log[n..] { ItemsInLog(Parse(log[n..]).value, c, m); }
    }
  }

  // ----- An abandoned call -----

  /** A result goes on with the run of the last message. */
  lemma ResultContinuesRun(log: seq<Message>, m: Message)
    requires RunsContiguous(log + [m]) && m.result.Some? && MayFollow(RunLog(log, m.runId), m)
    ensures log != [] && log[|log| - 1].runId == m.runId
  {
    ContiguousPrefix(log, m);
    if !exists x :: x in log && x.runId == m.runId {
      NoMessagesYet(log, m.runId);
    }
  }

  lemma AppendedFollows(t: Thread, run: Id, d: Draft, m: Message)
    requires Lived(t) && FreshStep(t, Say(run, d)) && Append(t, run, d).Done?
    requires m == Stored(d, run, t.nextSeq, t.runs[run].nextSeq)
    ensures MayFollow(RunLog(Log(t), run), m) && RunsContiguous(Log(t) + [m])
  {
    AppendKeepsLived(t, run, d);
    RunLogSnoc(Log(t), m, run);
    assert Protocol(RunLog(Log(t) + [m], run));
    ProtocolSnoc(RunLog(Log(t), run), m);
  }

  /** A chunk of a run that has ended stays in the cut of the log. */
  lemma EndedChunkStays(t: Thread, e: Event, c: Chunk)
    requires Lived(t) && FreshStep(t, e) && Parse(Log(t)).Some? && c in Parse(Log(t)).value && c.items != []
    requires RunOf(c) in t.runs && !t.runs[RunOf(c)].status.Running?
    ensures Parse(Log(Next(t, e))).Some? && c in Parse(Log(Next(t, e))).value
  {
    if e.Say? && Attempt(t, e).Done? {
      EndedChunkStaysWhenSaid(t, e.run, e.draft, c);
    } else if e.Jot? && Attempt(t, e).Done? {
      JotLeavesRuns(t, e.noteId);
    } else {
      OtherEventsKeepRows(t, e);
      SameRowsSameLog(t, Next(t, e));
    }
  }

  lemma OtherEventsKeepRows(t: Thread, e: Event)
    requires Attempt(t, e).Fails? || (!e.Say? && !e.Jot?)
    ensures Next(t, e).rows == t.rows
  {
  }

  lemma EndedChunkStaysWhenSaid(t: Thread, run: Id, d: Draft, c: Chunk)
    requires Lived(t) && FreshStep(t, Say(run, d)) && Append(t, run, d).Done?
    requires Parse(Log(t)).Some? && c in Parse(Log(t)).value && c.items != []
    requires RunOf(c) in t.runs && !t.runs[RunOf(c)].status.Running?
    ensures Parse(Log(Append(t, run, d).thread)).Some? && c in Parse(Log(Append(t, run, d).thread)).value
  {
    var m := Stored(d, run, t.nextSeq, t.runs[run].nextSeq);
    LivedThreadResumes(t);
    AppendKeepsLived(t, run, d);
    AppendedFollows(t, run, d, m);
    ParseSnoc(Log(t), m);
    LivedThreadResumes(Append(t, run, d).thread);
    EndedChunkStaysInCut(Log(t), m, c);
  }

  lemma {:induction false} EndedChunkStaysInCut(log: seq<Message>, m: Message, c: Chunk)
    requires ReadsWell(log) && c in Parse(log).value && c.items != [] && RunOf(c) != m.runId
    requires RunsContiguous(log + [m]) && MayFollow(RunLog(log, m.runId), m)
    requires ParseMore(Parse(log).value, m).Some?
    ensures c in ParseMore(Parse(log).value, m).value
  {
    var chunks := Parse(log).value;
    if m.result.Some? {
      ResultContinuesRun(log, m);
      ExtendKeeps(chunks, m, c);
    } else {
      StartKeeps(chunks, Chunk([m], m.calls == []), c);
    }
  }

  lemma ExtendKeeps(chunks: seq<Chunk>, m: Message, c: Chunk)
    requires chunks != [] && m.result.Some? && c in chunks && c != chunks[|chunks| - 1]
    ensures c in Extend(chunks, m)
  {
    var i :| 0 <= i < |chunks| && chunks[i] == c;
    assert Extend(chunks, m)[i] == c;
  }

  lemma StartKeeps(chunks: seq<Chunk>, started: Chunk, c: Chunk)
    requires c in chunks
    ensures c in chunks + [started]
  {
  }

  /** Whatever happens afterwards, no summary ever covers an incomplete tool group of a run that has ended, nor anything
      from there on: an interrupted call stops the rolling summary for good. */
  lemma {:induction false} AbandonedCallStopsSummaries(s: System, steps: seq<Step>, c: Chunk)
    requires SummariesOk(s) && FreshTakes(s, steps)
    requires Parse(Log(s.thread)).Some? && c in Parse(Log(s.thread)).value && c.items != [] && !c.complete
    requires RunOf(c) in s.thread.runs && !s.thread.runs[RunOf(c)].status.Running?
    ensures var t := Interleave(s, steps).thread;
            && SummariesOk(Interleave(s, steps))
            && Parse(Log(t)).Some? && c in Parse(Log(t)).value
            && RunOf(c) in t.runs && !t.runs[RunOf(c)].status.Running?
            && Watermark(ActiveOf(t.rows)) < c.items[0].threadSeq
    decreases |steps|
  {
    if steps != [] {
      var front := steps[..|steps| - 1];
      AbandonedCallStopsSummaries(s, front, c);
      TakeKeepsAbandoned(Interleave(s, front), steps[|steps| - 1], c);
    }
    var t := Interleave(s, steps).thread;
    assert c.items[0] in c.items;
    if ActiveOf(t.rows).Some? {
      WatermarkFallsBetweenGroups(t, ActiveOf(t.rows).value, c);
    } else {
      ParseCutsWell(Log(t));
      ItemsInLog(Parse(Log(t)).value, c, c.items[0]);
      LogMembers(t, c.items[0]);
    }
  }

  lemma TakeKeepsAbandoned(s: System, step: Step, c: Chunk)
    requires SummariesOk(s) && FreshTake(s, step)
    requires Parse(Log(s.thread)).Some? && c in Parse(Log(s.thread)).value && c.items != []
    requires RunOf(c) in s.thread.runs && !s.thread.runs[RunOf(c)].status.Running?
    ensures var t := Take(s, step).thread;
            && SummariesOk(Take(s, step))
            && Parse(Log(t)).Some? && c in Parse(Log(t)).value
            && RunOf(c) in t.runs && !t.runs[RunOf(c)].status.Running?
  {
    TakeKeepsSummaries(s, step);
    if step.On? {
      EventKeepsAbandoned(s.thread, step.event, c);
    } else {
      BuilderKeepsLog(s, step);
    }
  }

  /** A builder changes neither the log nor the runs. */
  lemma BuilderKeepsLog(s: System, step: Step)
    requires SummariesOk(s) && FreshTake(s, step) && !step.On?
    ensures Log(Take(s, step).thread) == Log(s.thread) && Take(s, step).thread.runs == s.thread.runs
  {
    if step.Activate? && Try(s, step).Went? {
      ActivationGuards(s, step.builder, step.summaryId, step.evaluated);
      ActivationKeepsLog(s.thread, Drafted(s.builders[step.builder], step.summaryId, step.evaluated));
    }
  }

  lemma EventKeepsAbandoned(t: Thread, e: Event, c: Chunk)
    requires Lived(t) && FreshStep(t, e) && Parse(Log(t)).Some? && c in Parse(Log(t)).value && c.items != []
    requires RunOf(c) in t.runs && !t.runs[RunOf(c)].status.Running?
    ensures Parse(Log(Next(t, e))).Some? && c in Parse(Log(Next(t, e))).value
    ensures RunOf(c) in Next(t, e).runs && !Next(t, e).runs[RunOf(c)].status.Running?
  {
    TerminalRunIsFrozen(t, e, RunOf(c));
    EndedChunkStays(t, e, c);
  }
}
