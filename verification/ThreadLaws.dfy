/** What every step on a thread keeps, and what therefore holds of every thread a session can reach. */
module ThreadLaws {
  import opened Basics
  import opened Messages
  import opened Pairing
  import opened Sorting
  import opened Groups
  import opened GroupLaws
  import opened Threads

  // ----- The structural invariant: what the unique indexes and counters promise -----

  ghost predicate RowsDistinct(rows: seq<Row>) {
    forall i, j :: 0 <= i < j < |rows| ==> !Clash(rows[i], rows[j])
  }

  ghost predicate RowsCounted(t: Thread) {
    forall row :: row in t.rows ==>
      && 1 <= RowSeq(row) < t.nextSeq
      && (row.MessageRow? ==>
        row.message.runId in t.runs && 1 <= row.message.runSeq < t.runs[row.message.runId].nextSeq)
  }

  ghost predicate RunsCounted(t: Thread) {
    && (forall r :: r in t.runs ==> 1 <= t.runs[r].no < t.nextRunNo && 1 <= t.runs[r].nextSeq)
    && (forall r, q :: r in t.runs && q in t.runs && r != q ==> t.runs[r].no != t.runs[q].no)
  }

  /** At most one run is running, and none in an archived thread. */
  ghost predicate OneRunning(t: Thread) {
    && (forall r, q :: r in t.runs && q in t.runs && t.runs[r].status.Running? && t.runs[q].status.Running? ==> r == q)
    && (t.status.Archived? ==> !HasRunning(t))
  }

  /** Sequence numbers, run numbers and ids are unique and below their counters. */
  ghost predicate Sound(t: Thread) {
    RowsDistinct(t.rows) && RowsCounted(t) && RunsCounted(t) && OneRunning(t) && t.nextRunNo >= 1 && t.nextSeq >= 1
  }

  // ----- The full invariant of threads that began at runtime -----

  /** Run numbers are exactly 1 .. nextRunNo - 1. */
  ghost predicate NumbersUsed(t: Thread) {
    forall n :: 1 <= n < t.nextRunNo ==> NumberUsed(t, n)
  }

  ghost predicate NumberUsed(t: Thread, n: int) {
    exists r :: r in t.runs && t.runs[r].no == n
  }

  function Assistants(log: seq<Message>): nat {
    if log == [] then 0 else Assistants(log[..|log| - 1]) + (if log[|log| - 1].role.Assistant? then 1 else 0)
  }

  function FirstUser(log: seq<Message>): Option<Id> {
    if log == [] then None else
      var before := FirstUser(log[..|log| - 1]);
      if before.Some? then before
      else if log[|log| - 1].role.User? then Some(log[|log| - 1].id) else None
  }

  /** The run's counters and the numbers on its messages agree with its log. */
  ghost predicate RunMatches(r: Run, log: seq<Message>) {
    && r.nextSeq == |log| + 1
    && r.turns == Assistants(log)
    && r.input == FirstUser(log)
    && (forall i :: 0 <= i < |log| ==> log[i].runSeq == i + 1)
  }

  /** Nothing follows a running run's messages but its own. */
  ghost predicate RunningAtEnd(log: seq<Message>, runs: map<Id, Run>) {
    forall i, j :: 0 <= i < j < |log| && log[i].runId in runs && runs[log[i].runId].status.Running? ==>
        log[j].runId == log[i].runId
  }

  ghost predicate LogLived(log: seq<Message>, runs: map<Id, Run>) {
    && AllShaped(log)
    && ToolsAnswer(log)
    && RunsContiguous(log)
    && RunningAtEnd(log, runs)
    && EveryRunPaired(log)
    && (forall r :: r in runs ==> RunMatches(runs[r], RunLog(log, r)))
  }

  ghost predicate Lived(t: Thread) {
    Sound(t) && NumbersUsed(t) && LogLived(Log(t), t.runs)
  }

  // ----- Reading the rows -----

  lemma {:induction false} MessagesMembers(rows: seq<Row>, m: Message)
    ensures m in MessagesOf(rows) <==> MessageRow(m) in rows
    decreases |rows|
  {
    if rows != [] {
      MessagesMembers(rows[..|rows| - 1], m);
      assert rows == rows[..|rows| - 1] + [rows[|rows| - 1]];
    }
  }

  lemma LogMembers(t: Thread, m: Message)
    ensures m in Log(t) <==> MessageRow(m) in t.rows
  {
    SortByElements(MessagesOf(t.rows), ThreadOrder);
    SameElements(Log(t), MessagesOf(t.rows));
    MessagesMembers(t.rows, m);
    assert m in Log(t) <==> m in multiset(Log(t));
    assert m in MessagesOf(t.rows) <==> m in multiset(MessagesOf(t.rows));
  }

  lemma {:induction false} RunLogCounts(log: seq<Message>, run: Id, m: Message)
    ensures multiset(RunLog(log, run))[m] == if m.runId == run then multiset(log)[m] else 0
    decreases |log|
  {
    if log != [] {
      RunLogCounts(log[..|log| - 1], run, m);
      assert log == log[..|log| - 1] + [log[|log| - 1]];
    }
  }

  /** The online check looks at a run's messages as a set, so the order they are read in does not matter. */
  lemma SameMessagesSameAnswer(a: seq<Message>, b: seq<Message>, m: Message)
    requires multiset(a) == multiset(b)
    ensures NewMessageError(a, m) == NewMessageError(b, m)
  {
    assert Declared(a) == Declared(b) && Consumed(a) == Consumed(b) by {
      SameElements(a, b);
      DeclaredByMembers(a);
      DeclaredByMembers(b);
    }
  }

  lemma DeclaredByMembers(a: seq<Message>)
    ensures forall c :: c in Declared(a) <==> exists m :: m in a && c in m.calls
    ensures forall c :: c in Consumed(a) <==> exists m :: m in a && m.result == Some(c)
  {
    forall c, m | m in a && c in m.calls ensures c in Declared(a) {
      var i :| 0 <= i < |a| && a[i] == m;
    }
    forall c, m | m in a && m.result == Some(c) ensures c in Consumed(a) {
      var i :| 0 <= i < |a| && a[i] == m;
    }
    forall c | c in Declared(a) ensures exists m :: m in a && c in m.calls {
      var i :| 0 <= i < |a| && c in a[i].calls;
      assert a[i] in a;
    }
    forall c | c in Consumed(a) ensures exists m :: m in a && m.result == Some(c) {
      var i :| 0 <= i < |a| && a[i].result == Some(c);
      assert a[i] in a;
    }
  }

  lemma ExistingIsRunLog(t: Thread, run: Id, m: Message)
    ensures NewMessageError(ExistingOf(t, run), m) == NewMessageError(RunLog(Log(t), run), m)
  {
    var rows := MessagesOf(t.rows);
    SortByElements(RunLog(rows, run), RunOrder);
    SortByElements(rows, ThreadOrder);
    forall x ensures multiset(RunLog(rows, run))[x] == multiset(RunLog(Log(t), run))[x] {
      RunLogCounts(rows, run, x);
      RunLogCounts(Log(t), run, x);
    }
    SameMessagesSameAnswer(ExistingOf(t, run), RunLog(Log(t), run), m);
  }

  /** A message numbered after all others is appended to the log. */
  lemma LogSnoc(t: Thread, m: Message, t': Thread)
    requires t'.rows == t.rows + [MessageRow(m)]
    requires forall row :: row in t.rows ==> RowSeq(row) < m.threadSeq
    ensures Log(t') == Log(t) + [m]
  {
    assert t'.rows[..|t.rows|] == t.rows;
    forall x | x in MessagesOf(t.rows) ensures ThreadOrder(x, m) {
      MessagesMembers(t.rows, x);
      assert RowSeq(MessageRow(x)) < m.threadSeq;
    }
    SortBySnoc(MessagesOf(t.rows), m, ThreadOrder);
  }

  /** A row of another kind leaves the log alone. */
  lemma LogIgnores(t: Thread, row: Row, t': Thread)
    requires !row.MessageRow? && t'.rows == t.rows + [row]
    ensures Log(t') == Log(t)
  {
    assert t'.rows[..|t.rows|] == t.rows;
    assert MessagesOf(t'.rows) == MessagesOf(t.rows);
  }

  // ----- The structural invariant is kept by every step -----

  lemma InsertRowKeepsDistinct(rows: seq<Row>, row: Row)
    requires RowsDistinct(rows)
    ensures RowsDistinct(InsertRow(rows, row))
  {
  }

  lemma BeginKeepsSound(t: Thread, run: Id)
    requires Sound(t) && BeginRun(t, run).Done?
    ensures Sound(BeginRun(t, run).thread)
  {
  }

  lemma AppendKeepsSound(t: Thread, run: Id, d: Draft)
    requires Sound(t) && Append(t, run, d).Done?
    ensures Sound(Append(t, run, d).thread)
  {
    var m := Stored(d, run, t.nextSeq, t.runs[run].nextSeq);
    InsertRowKeepsDistinct(t.rows, MessageRow(m));
    var t' := Append(t, run, d).thread;
    forall row | row in t'.rows
      ensures 1 <= RowSeq(row) < t'.nextSeq
      ensures row.MessageRow? ==>
        row.message.runId in t'.runs && 1 <= row.message.runSeq < t'.runs[row.message.runId].nextSeq
    {
      if row != MessageRow(m) { assert row in t.rows; }
    }
  }

  lemma NoteKeepsSound(t: Thread, id: Id)
    requires Sound(t) && AddNote(t, id).Done?
    ensures Sound(AddNote(t, id).thread)
  {
    InsertRowKeepsDistinct(t.rows, NoteRow(id, t.nextSeq));
    var t' := AddNote(t, id).thread;
    forall row | row in t'.rows ensures row in t.rows || row == NoteRow(id, t.nextSeq) { }
  }

  lemma FinishKeepsSound(t: Thread, run: Id, target: RunStatus, reason: Option<string>, final: Option<Id>)
    requires Sound(t) && TransitionRun(t, run, target, reason, final).Done?
    ensures Sound(TransitionRun(t, run, target, reason, final).thread)
  {
  }

  /** No step, whatever ids it is given, breaks uniqueness, the counters, or the single running run. */
  lemma StepKeepsSound(t: Thread, e: Event)
    requires Sound(t)
    ensures Sound(Next(t, e))
  {
    if Attempt(t, e).Done? {
      match e
      case Begin(run) => BeginKeepsSound(t, run);
      case Say(run, d) => AppendKeepsSound(t, run, d);
      case Jot(id) => NoteKeepsSound(t, id);
      case Finish(run, target, reason, final) => FinishKeepsSound(t, run, target, reason, final);
      case Archive =>
    }
  }

  /** With a fresh id nothing clashes, so nothing is silently dropped. */
  lemma FreshRowIsInserted(t: Thread, row: Row)
    requires Sound(t) && RowSeq(row) == t.nextSeq
    requires forall r :: r in t.rows ==> RowId(r) != RowId(row)
    requires row.MessageRow? ==> row.message.runId in t.runs && row.message.runSeq == t.runs[row.message.runId].nextSeq
    ensures InsertRow(t.rows, row) == t.rows + [row]
  {
    forall i | 0 <= i < |t.rows| ensures !Clash(t.rows[i], row) {
      assert t.rows[i] in t.rows;
    }
  }

  // ----- The full invariant is kept by every step with fresh ids -----

  lemma NumbersKept(t: Thread, t': Thread)
    requires NumbersUsed(t) && t'.nextRunNo == t.nextRunNo
    requires forall r :: r in t.runs ==> r in t'.runs && t'.runs[r].no == t.runs[r].no
    ensures NumbersUsed(t')
  {
    forall n | 1 <= n < t'.nextRunNo ensures NumberUsed(t', n) {
      assert NumberUsed(t, n);
      var r :| r in t.runs && t.runs[r].no == n;
      assert r in t'.runs && t'.runs[r].no == n;
    }
  }

  /** Runs that stop running, or start without messages, leave the rest of the invariant alone. */
  lemma RunsMayChange(log: seq<Message>, runs: map<Id, Run>, runs': map<Id, Run>)
    requires LogLived(log, runs)
    requires forall m :: m in log ==> m.runId in runs && m.runId in runs'
    requires forall r :: r in runs && r in runs' && runs'[r].status.Running? ==> runs[r].status.Running?
    requires forall r :: r in runs' ==> RunMatches(runs'[r], RunLog(log, r))
    ensures LogLived(log, runs')
  {
    forall i, j | 0 <= i < j < |log| && log[i].runId in runs' && runs'[log[i].runId].status.Running?
      ensures log[j].runId == log[i].runId
    {
      assert log[i] in log;
    }
  }

  lemma LogRunsKnown(t: Thread)
    requires Sound(t)
    ensures forall m :: m in Log(t) ==> m.runId in t.runs
  {
    forall m | m in Log(t) ensures m.runId in t.runs {
      LogMembers(t, m);
    }
  }

  lemma NoMessagesYet(log: seq<Message>, run: Id)
    requires forall m :: m in log ==> m.runId != run
    ensures RunLog(log, run) == []
  {
    RunLogMembers(log, run);
    if RunLog(log, run) != [] { assert RunLog(log, run)[0] in RunLog(log, run); }
  }

  lemma BeginKeepsLived(t: Thread, run: Id)
    requires Lived(t) && run !in t.runs && BeginRun(t, run).Done?
    ensures Lived(BeginRun(t, run).thread)
  {
    BeginKeepsSound(t, run);
    BeginCoversNumbers(t, run);
    var t' := BeginRun(t, run).thread;
    assert Log(t') == Log(t);
    LogRunsKnown(t);
    NoMessagesYet(Log(t), run);
    RunsMayChange(Log(t), t.runs, t'.runs);
  }

  /** A new run takes the next number exactly when its id is new: reusing a run's id bumps the counter and leaves a gap,
      because the insert is ignored. */
  lemma BeginCoversNumbers(t: Thread, run: Id)
    requires Sound(t) && NumbersUsed(t) && BeginRun(t, run).Done?
    ensures NumbersUsed(BeginRun(t, run).thread) <==> run !in t.runs
  {
    var t' := BeginRun(t, run).thread;
    if run !in t.runs {
      assert t'.runs[run].no == t.nextRunNo;
      forall n | 1 <= n < t'.nextRunNo ensures NumberUsed(t', n) {
        if n < t.nextRunNo {
          assert NumberUsed(t, n);
          var r :| r in t.runs && t.runs[r].no == n;
          assert r in t'.runs && t'.runs[r].no == n;
        }
      }
    } else {
      assert !NumberUsed(t', t.nextRunNo);
    }
  }

  lemma FinishKeepsLived(t: Thread, run: Id, target: RunStatus, reason: Option<string>, final: Option<Id>)
    requires Lived(t) && TransitionRun(t, run, target, reason, final).Done?
    ensures Lived(TransitionRun(t, run, target, reason, final).thread)
  {
    FinishKeepsSound(t, run, target, reason, final);
    var t' := TransitionRun(t, run, target, reason, final).thread;
    LogRunsKnown(t);
    FinishKeepsCounters(t, run, target, reason, final);
    NumbersKept(t, t');
    RunsMayChange(Log(t), t.runs, t'.runs);
    assert Log(t') == Log(t);
  }

  lemma FinishKeepsCounters(t: Thread, run: Id, target: RunStatus, reason: Option<string>, final: Option<Id>)
    requires TransitionRun(t, run, target, reason, final).Done?
    ensures var t' := TransitionRun(t, run, target, reason, final).thread;
            && t'.rows == t.rows && t'.nextRunNo == t.nextRunNo && t'.runs.Keys == t.runs.Keys
            && (forall r :: r in t.runs && t'.runs[r].status.Running? ==> t.runs[r].status.Running?)
            && (forall r, log :: r in t.runs && RunMatches(t.runs[r], log) ==> RunMatches(t'.runs[r], log))
            && (forall r :: r in t.runs ==> t'.runs[r].no == t.runs[r].no)
  {
  }

  /** Numbering a note leaves the log alone. */
  lemma NoteKeepsLived(t: Thread, id: Id)
    requires Lived(t) && AddNote(t, id).Done?
    requires forall row :: row in t.rows ==> RowId(row) != id
    ensures Lived(AddNote(t, id).thread)
  {
    NoteKeepsSound(t, id);
    var t' := AddNote(t, id).thread;
    FreshRowIsInserted(t, NoteRow(id, t.nextSeq));
    LogIgnores(t, NoteRow(id, t.nextSeq), t');
    NumbersKept(t, t');
  }

  lemma SnocCounts(log: seq<Message>, m: Message)
    ensures Assistants(log + [m]) == Assistants(log) + (if m.role.Assistant? then 1 else 0)
    ensures FirstUser(log + [m]) == if FirstUser(log).Some? then FirstUser(log) else if m.role.User?
      then Some(m.id) else None
  {
    assert (log + [m])[..|log|] == log;
  }

  /** The new message carries the run's next number and moves its counters along. */
  lemma RunMatchesSnoc(r: Run, log: seq<Message>, run: Id, d: Draft, threadSeq: nat)
    requires RunMatches(r, log)
    ensures RunMatches(Progressed(r, d), log + [Stored(d, run, threadSeq, r.nextSeq)])
  {
    SnocCounts(log, Stored(d, run, threadSeq, r.nextSeq));
  }

  /** Each run keeps the protocol and its counters when one of them goes on. */
  lemma RunsSnoc(log: seq<Message>, runs: map<Id, Run>, run: Id, d: Draft, threadSeq: nat, m: Message)
    requires EveryRunPaired(log) && run in runs && m == Stored(d, run, threadSeq, runs[run].nextSeq)
    requires forall r :: r in runs ==> RunMatches(runs[r], RunLog(log, r))
    requires Protocol(RunLog(log, run) + [m])
    ensures EveryRunPaired(log + [m])
    ensures var runs' := runs[run := Progressed(runs[run], d)];
            forall r :: r in runs' ==> RunMatches(runs'[r], RunLog(log + [m], r))
  {
    RunMatchesSnoc(runs[run], RunLog(log, run), run, d, threadSeq);
    forall r: Id ensures Protocol(RunLog(log + [m], r)) { RunStaysPaired(log, m, r); }
    forall r: Id
        ensures RunLog(log + [m], r) == if r == run
          then RunLog(log, r) + [m] else RunLog(log, r) { RunLogSnoc(log, m, r); }
  }

  lemma RunStaysPaired(log: seq<Message>, m: Message, r: Id)
    requires Protocol(RunLog(log, m.runId) + [m]) && EveryRunPaired(log)
    ensures Protocol(RunLog(log + [m], r))
  {
    RunLogSnoc(log, m, r);
    var before := RunLog(log, r);
    assert Protocol(before);
    if r != m.runId { assert RunLog(log + [m], r) == before; }
  }

  lemma AcceptedFollows(log: seq<Message>, m: Message)
    requires Shaped(m) && Protocol(log) && NewMessageError(log, m).None?
    ensures Protocol(log + [m]) && (m.role.Tool? ==> m.result.Some?)
  {
    OnlineStep(log, m);
    ProtocolSnoc(log, m);
  }

  lemma AcceptedRunsSnoc(log: seq<Message>, runs: map<Id, Run>, run: Id, d: Draft, threadSeq: nat, m: Message)
    requires EveryRunPaired(log) && run in runs && m == Stored(d, run, threadSeq, runs[run].nextSeq)
    requires forall r :: r in runs ==> RunMatches(runs[r], RunLog(log, r))
    requires Shaped(m) && NewMessageError(RunLog(log, run), m).None?
    ensures EveryRunPaired(log + [m]) && (m.role.Tool? ==> m.result.Some?)
    ensures var runs' := runs[run := Progressed(runs[run], d)];
            forall r :: r in runs' ==> RunMatches(runs'[r], RunLog(log + [m], r))
  {
    assert Protocol(RunLog(log, run));
    AcceptedFollows(RunLog(log, run), m);
    RunsSnoc(log, runs, run, d, threadSeq, m);
  }

  lemma ShapedSnoc(log: seq<Message>, m: Message)
    requires AllShaped(log) && ToolsAnswer(log) && Shaped(m) && (m.role.Tool? ==> m.result.Some?)
    ensures AllShaped(log + [m]) && ToolsAnswer(log + [m])
  {
  }

  /** What one more message of the running run does to a log. */
  lemma LogLivedSnoc(log: seq<Message>, runs: map<Id, Run>, run: Id, d: Draft, threadSeq: nat, m: Message)
    requires LogLived(log, runs) && run in runs && m == Stored(d, run, threadSeq, runs[run].nextSeq)
    requires runs[run].status.Running? && forall r :: r in runs && runs[r].status.Running? ==> r == run
    requires Shaped(m) && NewMessageError(RunLog(log, run), m).None?
    ensures LogLived(log + [m], runs[run := Progressed(runs[run], d)])
  {
    AcceptedRunsSnoc(log, runs, run, d, threadSeq, m);
    ShapedSnoc(log, m);
    ContiguousSnoc(log, m, runs);
    AtEndProgressed(log, m, runs, run, d);
  }

  lemma AtEndProgressed(log: seq<Message>, m: Message, runs: map<Id, Run>, run: Id, d: Draft)
    requires RunningAtEnd(log, runs) && run in runs && m.runId == run
    requires forall r :: r in runs && runs[r].status.Running? ==> r == run
    ensures RunningAtEnd(log + [m], runs[run := Progressed(runs[run], d)])
  {
    AtEndSnoc(log, m, runs, runs[run := Progressed(runs[run], d)]);
  }

  lemma AtEndSnoc(log: seq<Message>, m: Message, runs: map<Id, Run>, runs': map<Id, Run>)
    requires RunningAtEnd(log, runs) && runs'.Keys == runs.Keys
    requires forall r :: r in runs' ==> runs'[r].status == runs[r].status
    requires forall r :: r in runs && runs[r].status.Running? ==> r == m.runId
    ensures RunningAtEnd(log + [m], runs')
  {
    var log' := log + [m];
    forall i, j | 0 <= i < j < |log'| && log'[i].runId in runs' && runs'[log'[i].runId].status.Running?
      ensures log'[j].runId == log'[i].runId
    {
      assert log'[i] == log[i];
    }
  }

  lemma ContiguousSnoc(log: seq<Message>, m: Message, runs: map<Id, Run>)
    requires RunsContiguous(log) && RunningAtEnd(log, runs)
    requires m.runId in runs && runs[m.runId].status.Running?
    ensures RunsContiguous(log + [m])
  {
    var log' := log + [m];
    forall i, j, k | 0 <= i < j < k < |log'| && log'[i].runId == log'[k].runId ensures log'[j].runId == log'[i].runId {
      assert log'[i] == log[i] && log'[j] == log[j];
      if k < |log| { assert log'[k] == log[k]; }
    }
  }

  lemma AppendKeepsLived(t: Thread, run: Id, d: Draft)
    requires Lived(t) && Append(t, run, d).Done? && FreshStep(t, Say(run, d))
    ensures Lived(Append(t, run, d).thread)
    ensures Log(Append(t, run, d).thread) == Log(t) + [Stored(d, run, t.nextSeq, t.runs[run].nextSeq)]
  {
    var m := Stored(d, run, t.nextSeq, t.runs[run].nextSeq);
    AppendKeepsSound(t, run, d);
    AppendGrowsLog(t, run, d, m);
    ExistingIsRunLog(t, run, m);
    LogLivedSnoc(Log(t), t.runs, run, d, t.nextSeq, m);
    AppendKeepsNumbers(t, run, d);
  }

  lemma AppendKeepsNumbers(t: Thread, run: Id, d: Draft)
    requires NumbersUsed(t) && Append(t, run, d).Done?
    ensures NumbersUsed(Append(t, run, d).thread)
  {
    NumbersKept(t, Append(t, run, d).thread);
  }

  lemma AppendGrowsLog(t: Thread, run: Id, d: Draft, m: Message)
    requires Sound(t) && Append(t, run, d).Done? && FreshStep(t, Say(run, d))
    requires m == Stored(d, run, t.nextSeq, t.runs[run].nextSeq)
    ensures Log(Append(t, run, d).thread) == Log(t) + [m]
  {
    FreshRowIsInserted(t, MessageRow(m));
    LogSnoc(t, m, Append(t, run, d).thread);
  }

  lemma StepKeepsLived(t: Thread, e: Event)
    requires Lived(t) && FreshStep(t, e)
    ensures Lived(Next(t, e))
  {
    if Attempt(t, e).Done? {
      match e
      case Begin(run) => BeginKeepsLived(t, run);
      case Say(run, d) => AppendKeepsLived(t, run, d);
      case Jot(id) => NoteKeepsLived(t, id);
      case Finish(run, target, reason, final) => FinishKeepsLived(t, run, target, reason, final);
      case Archive =>
        var t' := ArchiveThread(t).thread;
        assert Log(t') == Log(t);
        NumbersKept(t, t');
    }
  }

  // ----- Every reachable thread -----

  lemma {:induction false} EveryRunIsLived(events: seq<Event>)
    requires FreshSteps(NEW_THREAD, events)
    ensures Lived(Replay(NEW_THREAD, events))
    decreases |events|
  {
    if events == [] {
      assert MessagesOf(NEW_THREAD.rows) == [];
    } else {
      EveryRunIsLived(events[..|events| - 1]);
      StepKeepsLived(Replay(NEW_THREAD, events[..|events| - 1]), events[|events| - 1]);
    }
  }

  // ----- What readers and resumers may rely on -----

  lemma {:induction false} MessageRowsOnce(rows: seq<Row>, m: Message)
    requires RowsDistinct(rows)
    ensures multiset(MessagesOf(rows))[m] <= 1
    decreases |rows|
  {
    if rows != [] {
      var front, last := rows[..|rows| - 1], rows[|rows| - 1];
      MessageRowsOnce(front, m);
      if last == MessageRow(m) {
        MessagesMembers(front, m);
        forall i | 0 <= i < |front| ensures front[i] != last {
          assert !Clash(rows[i], rows[|rows| - 1]);
        }
        assert m !in multiset(MessagesOf(front));
      }
    }
  }

  lemma TwiceCounts<T>(s: seq<T>, i: nat)
    requires i + 1 < |s| && s[i] == s[i + 1]
    ensures multiset(s)[s[i]] >= 2
  {
    assert s == s[..i] + [s[i], s[i]] + s[i + 2..];
  }

  /** Resume reads a sound thread's transcript with strictly climbing sequence numbers. */
  lemma SoundLogClimbs(t: Thread)
    requires Sound(t)
    ensures Climbing(ThreadSeqs(Log(t)))
  {
    var log := Log(t);
    SortBySorted(MessagesOf(t.rows), ThreadOrder);
    SortByElements(MessagesOf(t.rows), ThreadOrder);
    forall i | 0 < i < |log| ensures log[i - 1].threadSeq < log[i].threadSeq {
      var a, b := log[i - 1], log[i];
      assert ThreadOrder(a, b);
      if a.threadSeq == b.threadSeq {
        LogMembers(t, a);
        LogMembers(t, b);
        assert a in log && b in log;
        SameSeqSameRow(t.rows, MessageRow(a), MessageRow(b));
        TwiceCounts(log, i - 1);
        MessageRowsOnce(t.rows, a);
        assert false;
      }
    }
  }

  lemma SameSeqSameRow(rows: seq<Row>, a: Row, b: Row)
    requires RowsDistinct(rows) && a in rows && b in rows && RowSeq(a) == RowSeq(b)
    ensures a == b
  {
    var i :| 0 <= i < |rows| && rows[i] == a;
    var j :| 0 <= j < |rows| && rows[j] == b;
    if i < j { assert Clash(rows[i], rows[j]); } else if j < i { assert Clash(rows[j], rows[i]); }
  }

  /** Every thread that began at runtime passes the resume check, keeps its runs together, and is read by both group
      readers without an orphan; an incomplete tool group is the tail of its run. */
  lemma LivedThreadResumes(t: Thread)
    requires Lived(t)
    ensures Validated(Log(t)) && RunsContiguous(Log(t)) && ReadsWell(Log(t))
  {
    SoundLogClimbs(t);
    var log := Log(t);
    forall run: Id ensures RunValid(RunLog(log, run)) {
      assert Protocol(RunLog(log, run));
      if run in t.runs {
        assert RunMatches(t.runs[run], RunLog(log, run));
      } else {
        LogRunsKnown(t);
        NoMessagesYet(log, run);
      }
    }
    ValidatedLogReads(log);
  }

  /** Over any sequence of steps: the thread resumes, its runs are numbered 1, 2, 3, ..., at most one is running and
      none once it is archived. */
  lemma ReachableThreadsResume(events: seq<Event>)
    requires FreshSteps(NEW_THREAD, events)
    ensures var t := Replay(NEW_THREAD, events);
            && Validated(Log(t)) && RunsContiguous(Log(t)) && ReadsWell(Log(t))
            && NumbersUsed(t) && OneRunning(t)
            && forall r :: r in t.runs ==> RunMatches(t.runs[r], RunLog(Log(t), r))
  {
    EveryRunIsLived(events);
    LivedThreadResumes(Replay(NEW_THREAD, events));
  }

  lemma SayLeavesTerminalRun(t: Thread, other: Id, d: Draft, run: Id)
    requires Lived(t) && FreshStep(t, Say(other, d)) && Append(t, other, d).Done?
    requires run in t.runs && !t.runs[run].status.Running?
    ensures var t' := Append(t, other, d).thread;
            run in t'.runs && t'.runs[run] == t.runs[run] && RunLog(Log(t'), run) == RunLog(Log(t), run)
  {
    var m := Stored(d, other, t.nextSeq, t.runs[other].nextSeq);
    AppendGrowsLog(t, other, d, m);
    RunLogSnoc(Log(t), m, run);
  }

  lemma JotLeavesRuns(t: Thread, id: Id)
    requires Lived(t) && FreshStep(t, Jot(id)) && AddNote(t, id).Done?
    ensures AddNote(t, id).thread.runs == t.runs && Log(AddNote(t, id).thread) == Log(t)
  {
    FreshRowIsInserted(t, NoteRow(id, t.nextSeq));
    LogIgnores(t, NoteRow(id, t.nextSeq), AddNote(t, id).thread);
  }

  /** A terminal run stays as it ended, and its log never changes. */
  lemma TerminalRunIsFrozen(t: Thread, e: Event, run: Id)
    requires Lived(t) && FreshStep(t, e) && run in t.runs && !t.runs[run].status.Running?
    ensures run in Next(t, e).runs && Next(t, e).runs[run] == t.runs[run]
    ensures RunLog(Log(Next(t, e)), run) == RunLog(Log(t), run)
  {
    if Attempt(t, e).Done? {
      if e.Say? {
        SayLeavesTerminalRun(t, e.run, e.draft, run);
      } else if e.Jot? {
        JotLeavesRuns(t, e.noteId);
      } else {
        SameRowsSameLog(t, Next(t, e));
      }
    }
  }

  lemma SameRowsSameLog(t: Thread, t': Thread)
    requires t'.rows == t.rows
    ensures Log(t') == Log(t)
  {
  }

  lemma {:induction false} TerminalRunsStayFrozen(t: Thread, events: seq<Event>, run: Id)
    requires Lived(t) && FreshSteps(t, events) && run in t.runs && !t.runs[run].status.Running?
    ensures Lived(Replay(t, events)) && run in Replay(t, events).runs && Replay(t, events).runs[run] == t.runs[run]
    ensures RunLog(Log(Replay(t, events)), run) == RunLog(Log(t), run)
    decreases |events|
  {
    if events != [] {
      var before := Replay(t, events[..|events| - 1]);
      TerminalRunsStayFrozen(t, events[..|events| - 1], run);
      TerminalRunIsFrozen(before, events[|events| - 1], run);
      StepKeepsLived(before, events[|events| - 1]);
    }
  }

  /** Ending a run a second time in the same way changes nothing, except that a completion drops its reason: a
      completion with a reason cannot be repeated. */
  lemma RepeatedTransition(t: Thread, run: Id, target: RunStatus, reason: Option<string>, final: Option<Id>)
    requires run in t.runs && t.runs[run].status.Running? && TransitionRun(t, run, target, reason, final).Done?
    ensures var again := TransitionRun(TransitionRun(t, run, target, reason, final).thread, run, target, reason, final);
            again == if target.Completed? && reason != None then Fails(RunIdempotencyConflict)
                     else TransitionRun(t, run, target, reason, final)
  {
    var t' := TransitionRun(t, run, target, reason, final).thread;
    assert t'.runs[run].status == target && t'.runs[run].reason == if target.Completed? then None else reason;
  }
}
