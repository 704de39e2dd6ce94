/** What each step does to a thread, field by field, and exactly when it is refused. */
module StepLaws {
  import opened Basics
  import opened Messages
  import opened Pairing
  import opened Groups
  import opened Threads
  import opened ThreadLaws

  // ----- Appending -----

  /** The message is the draft, placed in this run under these numbers. */
  predicate IsDraft(m: Message, d: Draft, run: Id, threadSeq: nat, runSeq: nat) {
    && m.id == d.id && m.runId == run && m.threadSeq == threadSeq && m.runSeq == runSeq
    && m.role == d.role && m.calls == d.calls && m.result == d.result
    && m.classification == d.classification && m.size == d.size
  }

  /** An accepted append adds to the log exactly the message it was given, under the next numbers of the thread and of
      the run, and moves only these counters and the progress of that run. */
  lemma AppendStores(t: Thread, run: Id, d: Draft) returns (m: Message)
    requires Sound(t) && FreshStep(t, Say(run, d)) && Append(t, run, d).Done?
    ensures run in t.runs && IsDraft(m, d, run, t.nextSeq, t.runs[run].nextSeq)
    ensures var t' := Append(t, run, d).thread;
            && Log(t') == Log(t) + [m] && t'.rows == t.rows + [MessageRow(m)]
            && t'.status == t.status && t'.nextRunNo == t.nextRunNo
            && t'.nextSeq == t.nextSeq + 1 && t'.version == t.version + 1
            && t'.runs.Keys == t.runs.Keys && forall r :: r in t.runs && r != run ==> t'.runs[r] == t.runs[r]
    ensures var was, now := t.runs[run], Append(t, run, d).thread.runs[run];
            && now.nextSeq == was.nextSeq + 1 && now.status == was.status && now.no == was.no
            && now.input == (if was.input.None? && d.role == User then Some(d.id) else was.input)
            && now.turns == was.turns + (if d.role == Assistant then 1 else 0)
            && now.final == was.final && now.reason == was.reason
  {
    m := Stored(d, run, t.nextSeq, t.runs[run].nextSeq);
    AppendGrowsLog(t, run, d, m);
    FreshRowIsInserted(t, MessageRow(m));
  }

  /** An append is accepted exactly in an active thread, for one of its running runs, when the message may follow the
      run's log and is no tool message without a call id. */
  lemma AppendGoes(t: Thread, run: Id, d: Draft, m: Message)
    requires Lived(t) && FreshStep(t, Say(run, d)) && run in t.runs
      && IsDraft(m, d, run, t.nextSeq, t.runs[run].nextSeq)
    ensures Append(t, run, d).Done? <==>
      t.status == Active && t.runs[run].status == Running && MayFollow(RunLog(Log(t), run), m)
        && (d.role == Tool ==> d.result.Some?)
  {
    assert m == Stored(d, run, t.nextSeq, t.runs[run].nextSeq);
    assert Shaped(m);
    ExistingIsRunLog(t, run, m);
    assert Protocol(RunLog(Log(t), run));
    OnlineStep(RunLog(Log(t), run), m);
  }

  /** Some call of the log still waits for its answer. */
  ghost predicate Waiting(log: seq<Message>) {
    exists c :: DeclaredBefore(log, |log|, c) && !AnsweredBefore(log, |log|, c)
  }

  /** What a refusal says of a log that keeps the protocol. */
  lemma RefusalSays(log: seq<Message>, m: Message, why: PairingError)
    requires Shaped(m) && Protocol(log) && NewMessageError(log, m) == Some(why)
    ensures why == ResultsPending <==> m.role != Tool && Waiting(log)
    ensures why == CallIdDuplicate ==> exists c :: c in m.calls && DeclaredBefore(log, |log|, c)
    ensures why == ResultOrphaned ==>
      m.role == Tool && (m.result.None? || !DeclaredBefore(log, |log|, m.result.value))
    ensures why == ResultDuplicate ==>
      m.role == Tool && m.result.Some? && DeclaredBefore(log, |log|, m.result.value)
        && AnsweredBefore(log, |log|, m.result.value)
  {
    assert log[..|log|] == log;
    forall c
      ensures c in Declared(log) <==> DeclaredBefore(log, |log|, c)
      ensures c in Consumed(log) <==> AnsweredBefore(log, |log|, c)
    {
      DeclaredMeans(log, |log|, c);
    }
    AnswersAreDeclared(log);
    PendingMeansWaiting(log);
  }

  lemma PendingMeansWaiting(log: seq<Message>)
    requires forall c ::
      (c in Declared(log) <==> DeclaredBefore(log, |log|, c)) && (c in Consumed(log) <==> AnsweredBefore(log, |log|, c))
    ensures Pending(log) != {} <==> Waiting(log)
  {
    if Pending(log) != {} {
      var c :| c in Pending(log);
      assert DeclaredBefore(log, |log|, c);
    }
    if c :| DeclaredBefore(log, |log|, c) && !AnsweredBefore(log, |log|, c) { assert c in Pending(log); }
  }

  // ----- Runs -----

  /** A run begins exactly in an active thread with none running; a new one has the next number, is running and
      empty. */
  lemma BeginStarts(t: Thread, run: Id)
    requires Sound(t)
    ensures BeginRun(t, run).Done? <==> t.status == Active && forall r :: r in t.runs ==> t.runs[r].status != Running
    ensures BeginRun(t, run).Done? ==>
      var t' := BeginRun(t, run).thread;
      && t'.rows == t.rows && t'.status == t.status && t'.nextSeq == t.nextSeq
      && t'.nextRunNo == t.nextRunNo + 1 && t'.version == t.version + 1
      && t'.runs.Keys == t.runs.Keys + {run} && (forall r :: r in t.runs ==> t'.runs[r] == t.runs[r])
      && (run !in t.runs ==>
        var begun := t'.runs[run];
        && begun.no == t.nextRunNo && begun.status == Running && begun.nextSeq == 1 && begun.turns == 0
        && begun.input == None && begun.final == None && begun.reason == None)
  {
  }

  /** A running run ends exactly when its final message, if one is named, is a stored message of the run that is no tool
      result; it then has the target status, a reason unless it completed, and a final message only if it completed. */
  lemma FinishEnds(t: Thread, run: Id, target: RunStatus, reason: Option<string>, final: Option<Id>)
    requires run in t.runs && t.runs[run].status == Running && target != Running
    ensures TransitionRun(t, run, target, reason, final).Done? <==> final.None? || Finishes(t, run, final.value)
    ensures TransitionRun(t, run, target, reason, final).Done? ==>
      var t' := TransitionRun(t, run, target, reason, final).thread;
      && t' == t.(runs := t'.runs) && t'.runs.Keys == t.runs.Keys
      && (forall r :: r in t.runs && r != run ==> t'.runs[r] == t.runs[r])
      && var was, now := t.runs[run], t'.runs[run];
         && now.status == target && now.reason == (if target == Completed then None else reason)
         && now.final == (if target == Completed then final else was.final)
         && now.no == was.no && now.nextSeq == was.nextSeq && now.input == was.input && now.turns == was.turns
         && now.version == was.version + 1
  {
    forall m ensures m in MessagesOf(t.rows) <==> MessageRow(m) in t.rows { MessagesMembers(t.rows, m); }
    if final.Some? {
      if m :| m in MessagesOf(t.rows) && m.runId == run && m.id == final.value && !m.role.Tool? {
        assert Finishes(t, run, final.value);
      }
      if m :| MessageRow(m) in t.rows && m.runId == run && m.id == final.value && m.role != Tool {
        assert m in MessagesOf(t.rows);
      }
    }
  }

  /** The id is that of a stored message of the run which is no tool result. */
  ghost predicate Finishes(t: Thread, run: Id, id: Id) {
    exists m :: MessageRow(m) in t.rows && m.runId == run && m.id == id && m.role != Tool
  }

  /** An ended run goes to no other status. */
  lemma EndedRunsStay(t: Thread, run: Id, target: RunStatus, reason: Option<string>, final: Option<Id>)
    ensures target == Running ==> TransitionRun(t, run, target, reason, final) == Fails(RunTargetInvalid)
    ensures target != Running && run !in t.runs ==>
      TransitionRun(t, run, target, reason, final) == Fails(RunNotFound)
    ensures target != Running && run in t.runs && t.runs[run].status != Running && t.runs[run].status != target ==>
      TransitionRun(t, run, target, reason, final) == Fails(RunAlreadyTerminal)
  {
  }

  // ----- Notes and archiving -----

  /** Archiving goes exactly when no run is running or it is archived already, and changes only the status. */
  lemma ArchiveGoes(t: Thread)
    requires Sound(t)
    ensures ArchiveThread(t).Done? <==> forall r :: r in t.runs ==> t.runs[r].status != Running
    ensures ArchiveThread(t).Done? ==>
      var t' := ArchiveThread(t).thread;
      t'.status == Archived && t' == t.(status := t'.status, version := t'.version)
        && t'.version == t.version + (if t.status == Active then 1 else 0)
  {
  }

  /** A note takes the next sequence number of an active thread and leaves its runs and its log alone. */
  lemma NoteTakesNumber(t: Thread, id: Id)
    requires Sound(t) && FreshStep(t, Jot(id))
    ensures AddNote(t, id).Done? <==> t.status == Active
    ensures AddNote(t, id).Done? ==>
      var t' := AddNote(t, id).thread;
      t'.rows == t.rows + [NoteRow(id, t.nextSeq)] && t'.nextSeq == t.nextSeq + 1 && t'.version == t.version + 1
        && t' == t.(rows := t'.rows, nextSeq := t'.nextSeq, version := t'.version) && Log(t') == Log(t)
  {
    FreshRowIsInserted(t, NoteRow(id, t.nextSeq));
    if t.status == Active { LogIgnores(t, NoteRow(id, t.nextSeq), AddNote(t, id).thread); }
  }
}
