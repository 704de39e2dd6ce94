/** When rolling summaries advance: an undisturbed build covers everything up to the first incomplete group, and a
    chunk of the log can be summarized exactly when no call abandoned by an ended run stands at or before it. */
module SummaryProgress {
  import opened Basics
  import opened Messages
  import opened Pairing
  import opened Groups
  import opened GroupLaws
  import opened LogOrder
  import opened Threads
  import opened ThreadLaws
  import opened Summaries
  import opened SummaryLaws

  // ----- Runs of steps in a row -----

  lemma {:induction false} TakenInTurn(s: System, a: seq<Step>, b: seq<Step>)
    ensures Interleave(s, a + b) == Interleave(Interleave(s, a), b)
    ensures FreshTakes(s, a) && FreshTakes(Interleave(s, a), b) ==> FreshTakes(s, a + b)
    decreases |b|
  {
    if b == [] {
      assert a + b == a;
    } else {
      var n := |b| - 1;
      TakenInTurn(s, a, b[..n]);
      assert (a + b)[..|a + b| - 1] == a + b[..n] && (a + b)[|a + b| - 1] == b[n];
    }
  }

  lemma {:induction false} OneTaken(s: System, step: Step)
    ensures Interleave(s, [step]) == Take(s, step)
    ensures FreshTake(s, step) ==> FreshTakes(s, [step])
  {
    assert [step][..0] == [];
    assert Interleave(s, []) == s;
  }

  /** The three transactions of one build. */
  function Build(b: Id, id: Id, evaluated: Classification): seq<Step> {
    [Step.Capture(b), Step.Load(b), Activate(b, id, evaluated)]
  }

  lemma {:induction false} BuildTaken(s: System, b: Id, id: Id, evaluated: Classification)
    ensures Interleave(s, Build(b, id, evaluated))
      == Take(Take(Take(s, Step.Capture(b)), Step.Load(b)), Activate(b, id, evaluated))
    ensures FreshTake(Take(Take(s, Step.Capture(b)), Step.Load(b)), Activate(b, id, evaluated)) ==>
      FreshTakes(s, Build(b, id, evaluated))
  {
    var x, y, z := Step.Capture(b), Step.Load(b), Activate(b, id, evaluated);
    OneTaken(s, x);
    OneTaken(Take(s, x), y);
    OneTaken(Take(Take(s, x), y), z);
    TakenInTurn(s, [x], [y]);
    TakenInTurn(s, [x] + [y], [z]);
    assert [x] + [y] + [z] == Build(b, id, evaluated);
  }

  // ----- One undisturbed build -----

  /** What a build would select now. */
  ghost function Selectable(t: Thread): Option<seq<Message>> {
    CompletePrefix(After(Log(t), Watermark(ActiveOf(t.rows))))
  }

  /** Beyond the watermark the log can always be read, up to its first incomplete group. */
  lemma {:induction false} RestIsReadable(s: System) returns (n: nat)
    requires SummariesOk(s)
    ensures n <= |Log(s.thread)| && After(Log(s.thread), Watermark(ActiveOf(s.thread.rows))) == Log(s.thread)[n..]
    ensures forall i :: 0 <= i < n ==> Log(s.thread)[i].threadSeq <= Watermark(ActiveOf(s.thread.rows))
    ensures n > 0 ==> Whole(Log(s.thread)[..n])
    ensures Parse(Log(s.thread)[n..]).Some?
      && Selectable(s.thread) == Some(BeforeIncomplete(Parse(Log(s.thread)[n..]).value))
  {
    n := WatermarkSplits(s.thread, ActiveOf(s.thread.rows));
    LivedThreadResumes(s.thread);
    RestParses(Log(s.thread), n);
    ReadersAgree(Log(s.thread)[n..]);
  }

  lemma {:induction false} RestParses(log: seq<Message>, n: nat)
    requires Parse(log).Some? && n <= |log| && (n > 0 ==> Whole(log[..n]))
    ensures Parse(log[n..]).Some?
  {
    if n == 0 {
      assert log[n..] == log;
    } else {
      var groups :| GroupsOf(groups, log[..n]);
      assert log == Flatten(groups) + log[n..];
      ParseWholeFirst(groups, log[n..]);
    }
  }

  lemma {:induction false} SelectedArePresent(s: System, selected: seq<Message>)
    requires SummariesOk(s) && Selectable(s.thread) == Some(selected)
    ensures SourcesPresent(s.thread, selected)
  {
    var n := RestIsReadable(s);
    var t := s.thread;
    var groups := CompletePrefixGroups(Log(t)[n..]);
    forall m | m in selected ensures exists row :: row in t.rows && RowId(row) == m.id && RowSeq(row) == m.threadSeq {
      assert m in Log(t)[n..];
      LogMembers(t, m);
      assert MessageRow(m) in t.rows;
    }
  }

  lemma {:induction false} CaptureGoes(s: System, b: Id)
    requires SummariesOk(s) && s.thread.status.Active?
    ensures var s1 := Take(s, Step.Capture(b));
            SummariesOk(s1) && s1.thread == s.thread && b in s1.builders
            && s1.builders[b] == Captured(s.thread.version, ActiveOf(s.thread.rows))
  {
    TakeKeepsSummaries(s, Step.Capture(b));
  }

  lemma {:induction false} LoadGoes(s: System, b: Id, selected: seq<Message>)
    requires SummariesOk(s) && s.thread.status.Active? && Selectable(s.thread) == Some(selected)
    requires b in s.builders && s.builders[b] == Captured(s.thread.version, ActiveOf(s.thread.rows))
    ensures var s2 := Take(s, Step.Load(b));
            SummariesOk(s2) && s2.thread == s.thread && b in s2.builders
            && s2.builders[b]
              == (if selected == [] then s.builders[b] else Loaded(s.thread.version, ActiveOf(s.thread.rows), selected))
  {
    TakeKeepsSummaries(s, Step.Load(b));
    LivedThreadResumes(s.thread);
  }

  lemma {:induction false} ActivateGoes(s: System, b: Id, id: Id, evaluated: Classification, selected: seq<Message>)
    requires SummariesOk(s) && s.thread.status.Active? && Selectable(s.thread) == Some(selected) && selected != []
    requires b in s.builders && s.builders[b] == Loaded(s.thread.version, ActiveOf(s.thread.rows), selected)
    requires forall row :: row in s.thread.rows ==> RowId(row) != id
    ensures var s3 := Take(s, Activate(b, id, evaluated));
            SummariesOk(s3) && Log(s3.thread) == Log(s.thread) && s3.thread.status == s.thread.status
            && Watermark(ActiveOf(s3.thread.rows)) == selected[|selected| - 1].threadSeq
              && s3.thread.runs == s.thread.runs
  {
    SelectedArePresent(s, selected);
    TakeKeepsSummaries(s, Activate(b, id, evaluated));
    ActivationAdvances(s, b, id, evaluated);
  }

  /** The system after an undisturbed build. */
  ghost function AfterBuild(s: System, b: Id, id: Id, evaluated: Classification): System {
    Interleave(s, Build(b, id, evaluated))
  }

  /** An undisturbed build of an active thread selects everything from the watermark up to the first incomplete group,
      and moves the watermark to its end; it stops only when there is nothing to select. */
  lemma {:induction false} UndisturbedBuildAdvances(s: System, b: Id, id: Id, evaluated: Classification)
      returns (selected: seq<Message>)
    requires SummariesOk(s) && s.thread.status.Active? && forall row :: row in s.thread.rows ==> RowId(row) != id
    ensures Selectable(s.thread) == Some(selected)
    ensures FreshTakes(s, Build(b, id, evaluated)) && SummariesOk(AfterBuild(s, b, id, evaluated))
    ensures var now := AfterBuild(s, b, id, evaluated).thread;
            Log(now) == Log(s.thread) && now.status == s.thread.status && now.runs == s.thread.runs
    ensures selected == [] ==> AfterBuild(s, b, id, evaluated).thread == s.thread
    ensures selected != [] ==>
      Watermark(ActiveOf(AfterBuild(s, b, id, evaluated).thread.rows)) == selected[|selected| - 1].threadSeq
  {
    var n := RestIsReadable(s);
    selected := Selectable(s.thread).value;
    CaptureGoes(s, b);
    var s1 := Take(s, Step.Capture(b));
    LoadGoes(s1, b, selected);
    var s2 := Take(s1, Step.Load(b));
    BuildTaken(s, b, id, evaluated);
    if selected != [] {
      ActivateGoes(s2, b, id, evaluated, selected);
    } else {
      TakeKeepsSummaries(s2, Activate(b, id, evaluated));
    }
  }

  // ----- Finishing a running call -----

  lemma {:induction false} FreshRowId(rows: seq<Row>) returns (id: Id)
    ensures forall row :: row in rows ==> RowId(row) < id
    decreases |rows|
  {
    if rows == [] { return 0; }
    var before := FreshRowId(rows[..|rows| - 1]);
    var last := rows[|rows| - 1];
    id := if before > RowId(last) then before else RowId(last) + 1;
    assert rows == rows[..|rows| - 1] + [last];
  }

  function Answer(id: Id, call: Id, classification: Classification): Draft {
    Draft(id, Tool, [], Some(call), classification, 0)
  }

  /** The last chunk of a log, in the terms a resumed thread offers. */
  ghost function LastChunk(log: seq<Message>): Chunk
    requires ReadsWell(log) && log != []
  {
    Parse(log).value[|Parse(log).value| - 1]
  }

  /** An active thread whose last message belongs to a running run. */
  ghost predicate TailRunning(t: Thread) {
    && Lived(t) && t.status.Active? && Log(t) != [] && ReadsWell(Log(t))
    && var run := RunOf(LastChunk(Log(t))); run in t.runs && t.runs[run].status.Running?
  }

  ghost function TailRun(t: Thread): Id
    requires TailRunning(t)
  {
    RunOf(LastChunk(Log(t)))
  }

  /** A running run whose last call still waits can be answered. */
  lemma {:induction false} AnswerGoes(t: Thread, id: Id, call: Id, classification: Classification)
    requires TailRunning(t) && call in Open(LastChunk(Log(t)))
    requires forall row :: row in t.rows ==> RowId(row) != id
    ensures FreshStep(t, Say(TailRun(t), Answer(id, call, classification)))
    ensures Append(t, TailRun(t), Answer(id, call, classification)).Done?
  {
    var run, d := TailRun(t), Answer(id, call, classification);
    var m := Stored(d, run, t.nextSeq, t.runs[run].nextSeq);
    ExistingIsRunLog(t, run, m);
    var runLog := RunLog(Log(t), run);
    assert Protocol(runLog);
    assert Pending(runLog) == Open(LastChunk(Log(t)));
    NoCalls(m);
    OnlineStep(runLog, m);
  }

  /** The chunk after one more answer. */
  ghost function Answered(c: Chunk, m: Message): Chunk
    requires m.result.Some?
  {
    Chunk(c.items + [m], Open(c) - {m.result.value} == {})
  }

  lemma {:induction false} SayGoes(t: Thread, run: Id, d: Draft, m: Message)
    requires Lived(t) && FreshStep(t, Say(run, d)) && Append(t, run, d).Done?
    requires m == Stored(d, run, t.nextSeq, t.runs[run].nextSeq)
    ensures var t' := Next(t, Say(run, d));
            Lived(t') && Log(t') == Log(t) + [m] && t'.status == t.status && run in t'.runs
              && t'.runs[run].status.Running?
  {
    AppendKeepsLived(t, run, d);
  }

  lemma {:induction false} AnswerExtends(log: seq<Message>, m: Message)
    requires ReadsWell(log) && log != [] && m.result.Some? && m.result.value in Open(LastChunk(log))
      && ReadsWell(log + [m])
    ensures Parse(log + [m]) == Some(Extend(Parse(log).value, m)) && LastChunk(log + [m]) == Answered(LastChunk(log), m)
  {
    ParseSnoc(log, m);
  }

  /** An answer is one call fewer to wait for. */
  lemma {:induction false} FewerOpen(c: Chunk, m: Message)
    requires WellCut(c) && m.result.Some? && m.result.value in Open(c)
    ensures Open(Answered(c, m)) == Open(c) - {m.result.value} && RunOf(Answered(c, m)) == RunOf(c)
  {
    SpanSnoc(c.items[1..], m, CallSet(c.items[0]));
    assert (c.items + [m])[1..] == c.items[1..] + [m] && (c.items + [m])[0] == c.items[0];
  }

  /** The thread moved on by answers only: the same chunks, but for a longer last one. */
  ghost predicate TailGrown(before: Thread, now: Thread)
    requires ReadsWell(Log(before)) && Log(before) != []
  {
    && Lived(now) && now.status == before.status && ReadsWell(Log(now)) && Log(now) != []
    && var a, b := Parse(Log(before)).value, Parse(Log(now)).value;
       |a| == |b| && b[..|a| - 1] == a[..|a| - 1] && LastChunk(Log(before)).items <= LastChunk(Log(now)).items
  }

  lemma {:induction false} AnswerGrows(t: Thread, id: Id, call: Id, classification: Classification)
    requires TailRunning(t) && call in Open(LastChunk(Log(t)))
    requires forall row :: row in t.rows ==> RowId(row) != id
    ensures var t' := Next(t, Say(TailRun(t), Answer(id, call, classification)));
            TailRunning(t') && TailGrown(t, t') && Open(LastChunk(Log(t'))) == Open(LastChunk(Log(t))) - {call}
  {
    var run, d, last := TailRun(t), Answer(id, call, classification), LastChunk(Log(t));
    var m := Stored(d, run, t.nextSeq, t.runs[run].nextSeq);
    AnswerGoes(t, id, call, classification);
    SayGoes(t, run, d, m);
    LivedThreadResumes(Next(t, Say(run, d)));
    AnswerExtends(Log(t), m);
    LastIsWellCut(Log(t));
    FewerOpen(last, m);
  }

  lemma {:induction false} GrownInTurn(a: Thread, b: Thread, c: Thread)
    requires ReadsWell(Log(a)) && Log(a) != [] && TailGrown(a, b) && TailGrown(b, c)
    ensures TailGrown(a, c)
  {
  }

  /** The last call of a running run can be finished, answer by answer. */
  lemma {:induction false} FinishTail(s: System) returns (steps: seq<Step>)
    requires SummariesOk(s) && TailRunning(s.thread)
    ensures FreshTakes(s, steps) && SummariesOk(Interleave(s, steps))
    ensures TailGrown(s.thread, Interleave(s, steps).thread) && LastChunk(Log(Interleave(s, steps).thread)).complete
    decreases Open(LastChunk(Log(s.thread)))
  {
    var t := s.thread;
    LastIsWellCut(Log(t));
    if Open(LastChunk(Log(t))) == {} { return []; }
    var call :| call in Open(LastChunk(Log(t)));
    var id := FreshRowId(t.rows);
    var step := On(Say(TailRun(t), Answer(id, call, Public)));
    AnswerGoes(t, id, call, Public);
    AnswerGrows(t, id, call, Public);
    OneTaken(s, step);
    TakeKeepsSummaries(s, step);
    var s1 := Take(s, step);
    var rest := FinishTail(s1);
    TakenInTurn(s, [step], rest);
    GrownInTurn(t, s1.thread, Interleave(s1, rest).thread);
    steps := [step] + rest;
  }

  lemma {:induction false} LastIsWellCut(log: seq<Message>)
    requires ReadsWell(log) && log != []
    ensures WellCut(LastChunk(log)) && LastChunk(log) in Parse(log).value
  {
    ParseCutsWell(log);
  }

  // ----- Which chunks can be summarized -----

  /** The watermark has moved past a chunk. */
  ghost predicate Passed(t: Thread, items: seq<Message>) {
    forall m :: m in items ==> m.threadSeq <= Watermark(ActiveOf(t.rows))
  }

  /** The chunk is complete, or its run can still complete it. */
  ghost predicate Finishable(t: Thread, c: Chunk)
    requires c.items != []
  {
    c.complete || (RunOf(c) in t.runs && t.runs[RunOf(c)].status.Running?)
  }

  /** No call abandoned by an ended run stands at or before chunk `i`. */
  ghost predicate NoneAbandoned(t: Thread, i: nat)
    requires ReadsWell(Log(t)) && i < |Parse(Log(t)).value|
  {
    forall j :: 0 <= j <= i ==> Finishable(t, Parse(Log(t)).value[j])
  }

  /** Complete chunks with none incomplete before them are selected. */
  lemma {:induction false} CompleteAreSelected(chunks: seq<Chunk>, q: nat, m: Message)
    requires q < |chunks| && (forall r :: 0 <= r <= q ==> chunks[r].complete) && m in chunks[q].items
    ensures m in BeforeIncomplete(chunks)
    decreases q
  {
    if q > 0 { CompleteAreSelected(chunks[1..], q - 1, m); }
  }

  /** A chunk beyond the watermark is among those that a build reads, with nothing but earlier chunks before it. */
  lemma {:induction false} ChunkIsAhead(log: seq<Message>, n: nat, i: nat) returns (q: nat)
    requires n <= |log| && (n > 0 ==> Whole(log[..n]))
    requires Parse(log).Some? && Parse(log[n..]).Some? && i < |Parse(log).value|
    requires exists m :: m in Parse(log).value[i].items && m !in log[..n]
    ensures AheadBy(Parse(log).value, Parse(log[n..]).value, i, q)
  {
    var m :| m in Parse(log).value[i].items && m !in log[..n];
    var front := WholeChunks(log, n);
    NotInFront(front, Parse(log[n..]).value, i, m);
    q := i - |front|;
    RestIsAhead(front, Parse(log[n..]).value, i);
  }

  /** The first chunks of the rest, up to the `q`-th, are the chunks up to the `i`-th. */
  ghost predicate AheadBy(chunks: seq<Chunk>, rest: seq<Chunk>, i: nat, q: nat) {
    && q <= i < |chunks| && q < |rest|
    && forall r :: 0 <= r <= q ==> rest[r] == chunks[i - q + r]
  }

  lemma {:induction false} RestIsAhead(front: seq<Chunk>, rest: seq<Chunk>, i: nat)
    requires |front| <= i < |front + rest|
    ensures AheadBy(front + rest, rest, i, i - |front|)
  {
  }

  lemma {:induction false} NoGroups(log: seq<Message>)
    requires log == []
    ensures Whole(log)
  {
    var none: seq<seq<Message>> := [];
    assert Flatten(none) == [];
    assert GroupsOf(none, log);
  }

  /** A log cuts into the chunks of a whole beginning and those of the rest. */
  lemma {:induction false} WholeChunks(log: seq<Message>, n: nat) returns (front: seq<Chunk>)
    requires n <= |log| && (n > 0 ==> Whole(log[..n])) && Parse(log[n..]).Some?
    ensures AllItems(front) == log[..n] && Parse(log) == Some(front + Parse(log[n..]).value)
  {
    if n == 0 { NoGroups(log[..n]); }
    var groups :| GroupsOf(groups, log[..n]);
    assert log == Flatten(groups) + log[n..];
    ParseWholeFirst(groups, log[n..]);
    AsChunksItems(groups);
    front := AsChunks(groups);
  }

  lemma {:induction false} NotInFront(front: seq<Chunk>, rest: seq<Chunk>, i: nat, m: Message)
    requires i < |front + rest| && m in (front + rest)[i].items && m !in AllItems(front)
    ensures i >= |front|
  {
    if i < |front| { ItemsInLog(front, front[i], m); }
  }

  /** With every chunk up to the `i`-th complete, one undisturbed build passes it, unless it is passed already. */
  lemma {:induction false} CompleteIsPassed(s: System, i: nat) returns (steps: seq<Step>)
    requires SummariesOk(s) && s.thread.status.Active? && ReadsWell(Log(s.thread)) && i < |Parse(Log(s.thread)).value|
    requires forall j :: 0 <= j <= i ==> Parse(Log(s.thread)).value[j].complete
    ensures FreshTakes(s, steps) && Passed(Interleave(s, steps).thread, Parse(Log(s.thread)).value[i].items)
  {
    var t, c := s.thread, Parse(Log(s.thread)).value[i];
    if Passed(t, c.items) { return []; }
    var n := RestIsReadable(s);
    var m :| m in c.items && m.threadSeq > Watermark(ActiveOf(t.rows));
    assert m !in Log(t)[..n];
    var q := ChunkIsAhead(Log(t), n, i);
    var id := FreshRowId(t.rows);
    steps := Build(0, id, Public);
    var selected := UndisturbedBuildAdvances(s, 0, id, Public);
    forall x | x in c.items ensures x in selected { CompleteAreSelected(Parse(Log(t)[n..]).value, q, x); }
    SoundLogClimbs(t);
    SelectedUpToLast(Log(t), n, selected);
  }

  lemma {:induction false} SelectedUpToLast(log: seq<Message>, n: nat, selected: seq<Message>)
    requires Climbing(ThreadSeqs(log)) && n <= |log| && CompletePrefix(log[n..]) == Some(selected)
    ensures forall m :: m in selected ==> m.threadSeq <= selected[|selected| - 1].threadSeq
  {
    var groups := CompletePrefixGroups(log[n..]);
    SuffixClimbs(log, n);
    LastOfPrefix(log[n..], selected);
  }

  /** An abandoned call at or before a chunk keeps the watermark from ever passing it. */
  lemma {:induction false} AbandonedIsNeverPassed(s: System, steps: seq<Step>, j: nat, i: nat)
    requires SummariesOk(s) && FreshTakes(s, steps) && ReadsWell(Log(s.thread)) && j <= i < |Parse(Log(s.thread)).value|
    requires !Finishable(s.thread, Parse(Log(s.thread)).value[j])
    ensures !Passed(Interleave(s, steps).thread, Parse(Log(s.thread)).value[i].items)
  {
    var t, chunks := s.thread, Parse(Log(s.thread)).value;
    var d, c := chunks[j], chunks[i];
    ParseCutsWell(Log(t));
    assert d in chunks && c in chunks;
    ChunkRunKnown(t, d);
    AbandonedCallStopsSummaries(s, steps, d);
    if j < i { HeadsInOrder(t, j, i); }
    HeadNotPassed(Interleave(s, steps).thread, c.items);
  }

  lemma {:induction false} HeadNotPassed(t: Thread, items: seq<Message>)
    requires items != [] && Watermark(ActiveOf(t.rows)) < items[0].threadSeq
    ensures !Passed(t, items)
  {
    assert items[0] in items;
  }

  lemma {:induction false} ChunkRunKnown(t: Thread, d: Chunk)
    requires Lived(t) && Parse(Log(t)).Some? && d in Parse(Log(t)).value && d.items != []
    ensures RunOf(d) in t.runs
  {
    ParseCutsWell(Log(t));
    ItemsInLog(Parse(Log(t)).value, d, d.items[0]);
    LogRunsKnown(t);
  }

  /** An incomplete chunk of a running run is the last one. */
  lemma {:induction false} RunningIsLast(t: Thread, j: nat)
    requires Lived(t) && ReadsWell(Log(t)) && j < |Parse(Log(t)).value|
    requires var d := Parse(Log(t)).value[j];
      d.items != [] && !d.complete && RunOf(d) in t.runs && t.runs[RunOf(d)].status.Running?
    ensures j == |Parse(Log(t)).value| - 1
  {
    if j < |Parse(Log(t)).value| - 1 { NextChunkSameRun(t, j); }
  }

  lemma {:induction false} NextChunkSameRun(t: Thread, j: nat)
    requires Lived(t) && ReadsWell(Log(t)) && j < |Parse(Log(t)).value| - 1
    requires var d := Parse(Log(t)).value[j]; d.items != [] && RunOf(d) in t.runs && t.runs[RunOf(d)].status.Running?
    ensures var c := Parse(Log(t)).value[j + 1]; c.items != [] && RunOf(c) == RunOf(Parse(Log(t)).value[j])
  {
    var chunks := Parse(Log(t)).value;
    HeadsInOrder(t, j, j + 1);
    SameRunAfter(t, chunks[j].items[0], chunks[j + 1].items[0]);
  }

  lemma {:induction false} HeadsInOrder(t: Thread, j: nat, i: nat)
    requires Lived(t) && ReadsWell(Log(t)) && j < i < |Parse(Log(t)).value|
    ensures var a, b := Parse(Log(t)).value[j].items, Parse(Log(t)).value[i].items;
            a != [] && b != [] && a[0] in Log(t) && b[0] in Log(t) && a[0].threadSeq < b[0].threadSeq
  {
    var log, chunks := Log(t), Parse(Log(t)).value;
    ParseCutsWell(log);
    assert chunks[j] in chunks && chunks[i] in chunks;
    SoundLogClimbs(t);
    ItemsInLog(chunks, chunks[j], chunks[j].items[0]);
    ItemsInLog(chunks, chunks[i], chunks[i].items[0]);
    ChunksInOrder(chunks, j, i, chunks[j].items[0], chunks[i].items[0]);
  }

  /** What follows a message of a running run belongs to that run. */
  lemma {:induction false} SameRunAfter(t: Thread, a: Message, b: Message)
    requires Lived(t) && a in Log(t) && b in Log(t) && a.threadSeq < b.threadSeq
    requires a.runId in t.runs && t.runs[a.runId].status.Running?
    ensures b.runId == a.runId
  {
    SoundLogClimbs(t);
    SameRunIn(Log(t), t.runs, a, b);
  }

  lemma {:induction false} SameRunIn(log: seq<Message>, runs: map<Id, Run>, a: Message, b: Message)
    requires RunningAtEnd(log, runs) && Climbing(ThreadSeqs(log)) && a in log && b in log && a.threadSeq < b.threadSeq
    requires a.runId in runs && runs[a.runId].status.Running?
    ensures b.runId == a.runId
  {
    var p :| 0 <= p < |log| && log[p] == a;
    var q :| 0 <= q < |log| && log[q] == b;
    if q < p { ClimbingPairs(log, q, p); }
  }

  /** Some run of steps lets the active summary cover these messages. */
  ghost predicate Summarizable(s: System, items: seq<Message>) {
    exists steps :: FreshTakes(s, steps) && Passed(Interleave(s, steps).thread, items)
  }

  /** Every chunk before the `i`-th is complete when none of them can be abandoned or still running. */
  lemma {:induction false} EarlierAreComplete(t: Thread, i: nat, j: nat)
    requires Lived(t) && ReadsWell(Log(t)) && j < i < |Parse(Log(t)).value| && NoneAbandoned(t, i)
    ensures Parse(Log(t)).value[j].complete
  {
    assert Finishable(t, Parse(Log(t)).value[j]);
    if !Parse(Log(t)).value[j].complete { RunningIsLast(t, j); }
  }

  /** The last chunk is finished by answers and then summarized. */
  lemma {:induction false} TailIsPassed(s: System)
    requires SummariesOk(s) && TailRunning(s.thread)
    requires forall j :: 0 <= j < |Parse(Log(s.thread)).value| - 1 ==> Parse(Log(s.thread)).value[j].complete
    ensures Summarizable(s, LastChunk(Log(s.thread)).items)
  {
    var answers := FinishTail(s);
    GrownTailIsPassed(s.thread, Interleave(s, answers));
    SummarizableLater(s, answers, LastChunk(Log(s.thread)).items, LastChunk(Log(Interleave(s, answers).thread)).items);
  }

  lemma {:induction false} GrownTailIsPassed(before: Thread, s: System)
    requires ReadsWell(Log(before)) && Log(before) != [] && SummariesOk(s) && s.thread.status.Active?
    requires TailGrown(before, s.thread) && LastChunk(Log(s.thread)).complete
    requires forall j :: 0 <= j < |Parse(Log(before)).value| - 1 ==> Parse(Log(before)).value[j].complete
    ensures Summarizable(s, LastChunk(Log(s.thread)).items)
  {
    AllCompleteAfter(before, s.thread);
    CompleteIsSummarizable(s, |Parse(Log(s.thread)).value| - 1);
  }

  lemma {:induction false} CompleteIsSummarizable(s: System, i: nat)
    requires SummariesOk(s) && s.thread.status.Active? && ReadsWell(Log(s.thread)) && i < |Parse(Log(s.thread)).value|
    requires forall j :: 0 <= j <= i ==> Parse(Log(s.thread)).value[j].complete
    ensures Summarizable(s, Parse(Log(s.thread)).value[i].items)
  {
    var steps := CompleteIsPassed(s, i);
  }

  lemma {:induction false} SummarizableLater(s: System, steps: seq<Step>, items: seq<Message>, more: seq<Message>)
    requires FreshTakes(s, steps) && Summarizable(Interleave(s, steps), more) && items <= more
    ensures Summarizable(s, items)
  {
    var s1 := Interleave(s, steps);
    var rest :| FreshTakes(s1, rest) && Passed(Interleave(s1, rest).thread, more);
    TakenInTurn(s, steps, rest);
    assert forall m :: m in items ==> m in more;
    assert Passed(Interleave(s, steps + rest).thread, items);
  }

  lemma {:induction false} AllCompleteAfter(before: Thread, now: Thread)
    requires ReadsWell(Log(before)) && Log(before) != [] && TailGrown(before, now) && LastChunk(Log(now)).complete
    requires forall j :: 0 <= j < |Parse(Log(before)).value| - 1 ==> Parse(Log(before)).value[j].complete
    ensures forall j :: 0 <= j < |Parse(Log(now)).value| ==> Parse(Log(now)).value[j].complete
  {
    var a, b := Parse(Log(before)).value, Parse(Log(now)).value;
    forall j | 0 <= j < |b| ensures b[j].complete {
      if j < |b| - 1 { assert b[..|a| - 1][j] == a[..|a| - 1][j]; }
    }
  }

  /** Without an abandoned call at or before a chunk, some steps let a summary cover it. */
  lemma {:induction false} FinishableIsPassed(s: System, i: nat)
    requires SummariesOk(s) && s.thread.status.Active? && ReadsWell(Log(s.thread)) && i < |Parse(Log(s.thread)).value|
    requires NoneAbandoned(s.thread, i)
    ensures Summarizable(s, Parse(Log(s.thread)).value[i].items)
  {
    if Parse(Log(s.thread)).value[i].complete {
      AllCompleteUpTo(s.thread, i);
      CompleteIsSummarizable(s, i);
    } else {
      TailIsReady(s.thread, i);
      TailIsPassed(s);
    }
  }

  lemma {:induction false} AllCompleteUpTo(t: Thread, i: nat)
    requires Lived(t) && ReadsWell(Log(t)) && i < |Parse(Log(t)).value| && NoneAbandoned(t, i)
    requires Parse(Log(t)).value[i].complete
    ensures forall j :: 0 <= j <= i ==> Parse(Log(t)).value[j].complete
  {
    forall j | 0 <= j < i ensures Parse(Log(t)).value[j].complete { EarlierAreComplete(t, i, j); }
  }

  /** An incomplete chunk that can still be finished is the last one, and nothing before it is incomplete. */
  lemma {:induction false} TailIsReady(t: Thread, i: nat)
    requires Lived(t) && t.status.Active? && ReadsWell(Log(t)) && i < |Parse(Log(t)).value| && NoneAbandoned(t, i)
    requires !Parse(Log(t)).value[i].complete
    ensures Log(t) != [] && TailRunning(t) && LastChunk(Log(t)) == Parse(Log(t)).value[i]
    ensures forall j :: 0 <= j < |Parse(Log(t)).value| - 1 ==> Parse(Log(t)).value[j].complete
  {
    var chunks := Parse(Log(t)).value;
    assert Finishable(t, chunks[i]);
    RunningIsLast(t, i);
    forall j | 0 <= j < i ensures chunks[j].complete { EarlierAreComplete(t, i, j); }
    SomeLog(Log(t));
    LastIsTail(t, chunks[i]);
  }

  lemma {:induction false} SomeLog(log: seq<Message>)
    requires ReadsWell(log) && Parse(log).value != []
    ensures log != []
  {
  }

  lemma {:induction false} LastIsTail(t: Thread, c: Chunk)
    requires Lived(t) && t.status.Active? && ReadsWell(Log(t)) && Log(t) != [] && c == LastChunk(Log(t))
    requires RunOf(c) in t.runs && t.runs[RunOf(c)].status.Running?
    ensures TailRunning(t)
  {
  }

  /** In an active thread, some run of steps lets the active summary cover a chunk of the log if and only if no call
      abandoned by an ended run stands at or before it. */
  lemma {:induction false} SummarizableIffNoneAbandoned(s: System, i: nat)
    requires SummariesOk(s) && s.thread.status.Active? && ReadsWell(Log(s.thread)) && i < |Parse(Log(s.thread)).value|
    ensures Summarizable(s, Parse(Log(s.thread)).value[i].items) <==> NoneAbandoned(s.thread, i)
  {
    if NoneAbandoned(s.thread, i) {
      FinishableIsPassed(s, i);
    } else {
      AbandonedIsNotSummarizable(s, i);
    }
  }

  lemma {:induction false} AbandonedIsNotSummarizable(s: System, i: nat)
    requires SummariesOk(s) && ReadsWell(Log(s.thread)) && i < |Parse(Log(s.thread)).value|
      && !NoneAbandoned(s.thread, i)
    ensures !Summarizable(s, Parse(Log(s.thread)).value[i].items)
  {
    var j: nat :| j <= i && !Finishable(s.thread, Parse(Log(s.thread)).value[j]);
    forall steps | FreshTakes(s, steps)
      ensures !Passed(Interleave(s, steps).thread, Parse(Log(s.thread)).value[i].items)
    {
      AbandonedIsNeverPassed(s, steps, j, i);
    }
  }
}
