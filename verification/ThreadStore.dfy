/** The mutable store of a session's threads (`secminiagent/memory/thread_run_store.py`, `store_v2.py`,
    `transcript_v2.py`). Every method is one immediate transaction: it reads rows, builds the changed rows and writes
    them back, or leaves everything as it was. */
module ThreadStore {
  import opened Basics
  import opened Messages
  import opened Pairing
  import opened Threads
  import opened ThreadLaws

  datatype StoreError = ThreadNotFound | Lifecycle(error: LifecycleError)

  ghost predicate AllLived(threads: map<Id, Thread>) {
    forall t :: t in threads ==> Lived(threads[t])
  }

  /** The store after one step on one thread. */
  ghost function Stepped(threads: map<Id, Thread>, t: Id, e: Event): map<Id, Thread> {
    if t in threads && Attempt(threads[t], e).Done? then threads[t := Attempt(threads[t], e).thread] else threads
  }

  /** The error a step reports, if any. */
  ghost function Reported(threads: map<Id, Thread>, t: Id, e: Event): Option<StoreError> {
    if t !in threads then Some(ThreadNotFound)
    else match Attempt(threads[t], e) { case Done(_) => None case Fails(error) => Some(Lifecycle(error)) }
  }

  lemma SteppedKeepsLived(threads: map<Id, Thread>, t: Id, e: Event)
    requires AllLived(threads) && (t in threads ==> FreshStep(threads[t], e))
    ensures AllLived(Stepped(threads, t, e))
  {
    if t in threads { StepKeepsLived(threads[t], e); }
  }

  /** A step with fresh ids keeps every thread as the lifecycle promises. */
  ghost predicate KeepsLived(before: map<Id, Thread>, now: map<Id, Thread>, t: Id, e: Event) {
    AllLived(before) && (t in before ==> FreshStep(before[t], e)) ==> AllLived(now)
  }

  lemma StepKeepsAll(before: map<Id, Thread>, t: Id, e: Event)
    ensures KeepsLived(before, Stepped(before, t, e), t, e)
  {
    if AllLived(before) && (t in before ==> FreshStep(before[t], e)) { SteppedKeepsLived(before, t, e); }
  }

  lemma NewThreadIsLived()
    ensures Lived(NEW_THREAD)
  {
    EveryRunIsLived([]);
    assert Replay(NEW_THREAD, []) == NEW_THREAD;
  }

  /** The running runs among `which`, interrupted by process recovery. */
  function Recovered(t: Thread, which: set<Id>): Thread {
    t.(runs := map r | r in t.runs ::
         if r in which && t.runs[r].status.Running?
         then t.runs[r].(status := RunStatus.Interrupted, version := t.runs[r].version + 1, reason :=
           Some("PROCESS_RECOVERY"))
         else t.runs[r])
  }

  /** Recovery leaves nothing running and every log as it was; the runs that were running are interrupted for the
      recovery, and all others stay as they are. */
  lemma RecoveryKeepsLived(t: Thread)
    requires Lived(t)
    ensures Lived(Recovered(t, t.runs.Keys)) && !HasRunning(Recovered(t, t.runs.Keys))
    ensures Log(Recovered(t, t.runs.Keys)) == Log(t)
    ensures var t' := Recovered(t, t.runs.Keys);
            t' == t.(runs := t'.runs) && t'.runs.Keys == t.runs.Keys
              && forall r :: r in t.runs ==>
                t'.runs[r] == if t.runs[r].status != Running then t.runs[r]
                  else t.runs[r].(status := RunStatus.Interrupted, reason := Some("PROCESS_RECOVERY"),
                    version := t.runs[r].version + 1)
  {
    var t' := Recovered(t, t.runs.Keys);
    SameRowsSameLog(t, t');
    RecoveredRuns(t);
    NumbersKept(t, t');
    LogRunsKnown(t);
    RunsMayChange(Log(t), t.runs, t'.runs);
  }

  lemma RecoveredRuns(t: Thread)
    requires Sound(t)
    ensures var t' := Recovered(t, t.runs.Keys);
            && t'.runs.Keys == t.runs.Keys && !HasRunning(t') && Sound(t')
            && (forall r, log :: r in t.runs && RunMatches(t.runs[r], log) ==> RunMatches(t'.runs[r], log))
            && (forall r :: r in t.runs ==> t'.runs[r].no == t.runs[r].no)
  {
  }

  class ThreadRunStore {
    var threads: map<Id, Thread>

    constructor ()
      ensures threads == map[] && AllLived(threads)
    {
      threads := map[];
    }

    method CreateThread(t: Id) returns (created: bool)
      modifies this
      ensures created <==> t !in old(threads)
      ensures threads == if created then old(threads)[t := NEW_THREAD] else old(threads)
      ensures old(AllLived(threads)) ==> AllLived(threads)
    {
      NewThreadIsLived();
      created := t !in threads;
      if created { threads := threads[t := NEW_THREAD]; }
    }

    /** Hands out the thread's next sequence number and bumps its version. */
    method AllocateThreadSequence(t: Id) returns (n: Option<nat>)
      modifies this
      ensures n.Some? <==> t in old(threads) && old(threads)[t].status.Active?
      ensures n.None? ==> threads == old(threads)
      ensures n.Some? ==> n.value == old(threads)[t].nextSeq
      ensures n.Some? ==>
        threads == old(threads)[t := old(threads)[t].(nextSeq := n.value + 1, version := old(threads)[t].version + 1)]
    {
      if t !in threads { return None; }
      var row := threads[t];
      if row.status != Active { return None; }
      threads := threads[t := row.(nextSeq := row.nextSeq + 1, version := row.version + 1)];
      n := Some(row.nextSeq);
    }

    method AllocateRunSequence(t: Id, run: Id) returns (n: Option<nat>)
      modifies this
      ensures n.Some? <==> t in old(threads) && run in old(threads)[t].runs && old(threads)[t].runs[run].status.Running?
      ensures n.None? ==> threads == old(threads)
      ensures n.Some? ==> n.value == old(threads)[t].runs[run].nextSeq
      ensures n.Some? ==> threads == old(threads)[t := old(threads)[t].(runs := old(threads)[t].runs[run :=
                            old(threads)[t].runs[run].(nextSeq := n.value + 1, version :=
                              old(threads)[t].runs[run].version + 1)])]
    {
      if t !in threads || run !in threads[t].runs { return None; }
      var row := threads[t].runs[run];
      if !row.status.Running? { return None; }
      row := row.(nextSeq := row.nextSeq + 1, version := row.version + 1);
      threads := threads[t := threads[t].(runs := threads[t].runs[run := row])];
      n := Some(row.nextSeq - 1);
    }

    /** Counts a stored message: the first user message becomes the input, every assistant message is a turn. */
    method RecordMessageProgress(t: Id, run: Id, id: Id, role: Role) returns (ok: bool)
      modifies this
      ensures ok <==> t in old(threads) && run in old(threads)[t].runs && old(threads)[t].runs[run].status.Running?
      ensures !ok ==> threads == old(threads)
      ensures ok ==> var before := old(threads)[t].runs[run];
                     threads == old(threads)[t := old(threads)[t].(runs := old(threads)[t].runs[run := before.(
                       input := if role.User? && before.input.None? then Some(id) else before.input,
                       turns := before.turns + (if role.Assistant? then 1 else 0),
                       version := before.version + 1)])]
    {
      if t !in threads || run !in threads[t].runs { return false; }
      var row := threads[t].runs[run];
      if !row.status.Running? { return false; }
      if role.User? && row.input.None? { row := row.(input := Some(id)); }
      if role.Assistant? { row := row.(turns := row.turns + 1); }
      row := row.(version := row.version + 1);
      threads := threads[t := threads[t].(runs := threads[t].runs[run := row])];
      ok := true;
    }

    method InsertMemory(t: Id, row: Row)
      requires t in threads
      modifies this
      ensures threads == old(threads)[t := old(threads)[t].(rows := InsertRow(old(threads)[t].rows, row))]
    {
      var rows := threads[t].rows;
      var clash := false;
      for i := 0 to |rows|
        invariant clash <==> exists j :: 0 <= j < i && Clash(rows[j], row)
      {
        if Clash(rows[i], row) { clash := true; }
      }
      if !clash { rows := rows + [row]; }
      threads := threads[t := threads[t].(rows := rows)];
    }

    /** The writes of an accepted append: both sequence numbers, the row, the progress counters. */
    method StoreMessage(t: Id, run: Id, d: Draft)
      requires t in threads && Threads.Append(threads[t], run, d).Done?
      modifies this
      ensures threads == old(threads)[t := Threads.Append(old(threads)[t], run, d).thread]
    {
      ghost var row := threads[t];
      ghost var runRow := row.runs[run];
      var threadSeq := AllocateThreadSequence(t);
      assert threads[t] == row.(nextSeq := row.nextSeq + 1, version := row.version + 1);
      var runSeq := AllocateRunSequence(t, run);
      assert threads[t].runs == row.runs[run := runRow.(nextSeq := runRow.nextSeq + 1, version := runRow.version + 1)];
      InsertMemory(t, MessageRow(Stored(d, run, threadSeq.value, runSeq.value)));
      var counted := RecordMessageProgress(t, run, d.id, d.role);
      assert threads[t].runs == row.runs[run := Progressed(runRow, d)];
    }

    /** Appends a message to a running run, if the tool protocol lets it follow. */
    method Append(t: Id, run: Id, d: Draft) returns (e: Option<StoreError>)
      modifies this
      ensures threads == Stepped(old(threads), t, Say(run, d)) && KeepsLived(old(threads), threads, t, Say(run, d))
      ensures e == Reported(old(threads), t, Say(run, d))
    {
      StepKeepsAll(threads, t, Say(run, d));
      if t !in threads { return Some(ThreadNotFound); }
      if threads[t].status != Active { return Some(Lifecycle(ThreadNotActive)); }
      if run !in threads[t].runs { return Some(Lifecycle(RunNotFound)); }
      if !threads[t].runs[run].status.Running? { return Some(Lifecycle(RunNotRunning)); }
      var refusal :=
        NewMessageError(ExistingOf(threads[t], run), Stored(d, run, threads[t].nextSeq, threads[t].runs[run].nextSeq));
      if refusal.Some? { return Some(Lifecycle(LifecycleError.Refused(refusal.value))); }
      StoreMessage(t, run, d);
      e := None;
    }

    method BeginRun(t: Id, run: Id) returns (e: Option<StoreError>)
      modifies this
      ensures threads == Stepped(old(threads), t, Begin(run)) && KeepsLived(old(threads), threads, t, Begin(run))
      ensures e == Reported(old(threads), t, Begin(run))
    {
      StepKeepsAll(threads, t, Begin(run));
      if t !in threads { return Some(ThreadNotFound); }
      var row := threads[t];
      if row.status != Active { return Some(Lifecycle(ThreadNotActive)); }
      if HasRunning(row) { return Some(Lifecycle(RunAlreadyRunning)); }
      var no := row.nextRunNo;
      var changed := row.(nextRunNo := no + 1, version := row.version + 1);
      changed := changed.(runs := InsertRun(changed.runs, run, Run(no, Running, 1, 1, None, None, 0, None)));
      if run !in changed.runs { return Some(Lifecycle(RunNotFound)); }
      threads := threads[t := changed];
      e := None;
    }

    method TransitionRun(t: Id, run: Id, target: RunStatus, reason: Option<string>, final: Option<Id>)
        returns (e: Option<StoreError>)
      modifies this
      ensures threads == Stepped(old(threads), t, Finish(run, target, reason, final))
        && KeepsLived(old(threads), threads, t, Finish(run, target, reason, final))
      ensures e == if target.Running?
        then Some(Lifecycle(RunTargetInvalid)) else Reported(old(threads), t, Finish(run, target, reason, final))
    {
      StepKeepsAll(threads, t, Finish(run, target, reason, final));
      if target.Running? { return Some(Lifecycle(RunTargetInvalid)); }
      if t !in threads { return Some(ThreadNotFound); }
      var row := threads[t];
      if run !in row.runs { return Some(Lifecycle(RunNotFound)); }
      var r := row.runs[run];
      if r.status == target {
        if r.reason != reason
            || (target.Completed? && r.final != final) { return Some(Lifecycle(RunIdempotencyConflict)); }
        assert threads == threads[t := row];
        return None;
      }
      if !r.status.Running? { return Some(Lifecycle(RunAlreadyTerminal)); }
      if final.Some? && !FinalMessageKnown(row, run, final.value) { return Some(Lifecycle(RunFinalMessageInvalid)); }
      var current := r.(status := target, version := r.version + 1,
                        reason := if target.Completed? then None else reason,
                        final := if target.Completed? then final else r.final);
      threads := threads[t := row.(runs := row.runs[run := current])];
      e := None;
    }

    method ArchiveThread(t: Id) returns (e: Option<StoreError>)
      modifies this
      ensures threads == Stepped(old(threads), t, Archive) && KeepsLived(old(threads), threads, t, Archive)
      ensures e == Reported(old(threads), t, Archive)
    {
      StepKeepsAll(threads, t, Archive);
      if t !in threads { return Some(ThreadNotFound); }
      if threads[t].status == Archived {
        assert threads[t := threads[t]] == threads;
        return None;
      }
      if HasRunning(threads[t]) { return Some(Lifecycle(ThreadHasRunningRun)); }
      threads := threads[t := threads[t].(status := Archived, version := threads[t].version + 1)];
      e := None;
    }

    /** After a crash: interrupts every run still marked running, in one thread or in all, and changes nothing else. */
    method RecoverRunning(only: Option<Id>) returns (e: Option<StoreError>)
      modifies this
      ensures e == if only.Some? && only.value !in old(threads) then Some(ThreadNotFound) else None
      ensures threads == AllRecovered(old(threads), Chosen(old(threads), only))
      ensures old(AllLived(threads)) ==> AllLived(threads)
    {
      ghost var before := threads;
      if only.Some? && only.value !in threads {
        NoneChosen(threads);
        return Some(ThreadNotFound);
      }
      var chosen := Chosen(threads, only);
      var todo := set t, r | t in chosen && t in threads && r in threads[t].runs
        && threads[t].runs[r].status.Running? :: (t, r);
      assert PartlyRecovered(before, threads, chosen, todo);
      while todo != {}
        invariant PartlyRecovered(before, threads, chosen, todo)
        decreases todo
      {
        var p :| p in todo;
        ghost var between := threads;
        var done := TransitionRun(p.0, p.1, Interrupted, Some("PROCESS_RECOVERY"), None);
        RecoverOne(before, between, threads, chosen, todo, p);
        todo := todo - {p};
      }
      AllSettled(before, threads, chosen);
      if AllLived(before) { RecoveredAllLived(before, chosen); }
      e := None;
    }
  }

  /** The threads a recovery looks at. */
  function Chosen(threads: map<Id, Thread>, only: Option<Id>): set<Id> {
    match only case None => threads.Keys case Some(t) => if t in threads then {t} else {}
  }

  ghost function AllRecovered(threads: map<Id, Thread>, chosen: set<Id>): map<Id, Thread> {
    map t | t in threads :: if t in chosen then Recovered(threads[t], threads[t].runs.Keys) else threads[t]
  }

  lemma NoneChosen(threads: map<Id, Thread>)
    ensures AllRecovered(threads, {}) == threads
  {
  }

  lemma RecoveredAllLived(threads: map<Id, Thread>, chosen: set<Id>)
    requires AllLived(threads)
    ensures AllLived(AllRecovered(threads, chosen))
  {
    forall t | t in threads ensures Lived(AllRecovered(threads, chosen)[t]) { RecoveryKeepsLived(threads[t]); }
  }

  /** The runs of a thread that are no longer waiting. */
  ghost function Settled(t: Thread, todo: set<(Id, Id)>, id: Id): set<Id> {
    set r | r in t.runs && (id, r) !in todo
  }

  /** Exactly the runs in `todo` are still to be interrupted. */
  ghost predicate PartlyRecovered(before: map<Id, Thread>, now: map<Id, Thread>, chosen: set<Id>, todo: set<(Id, Id)>) {
    && (forall p :: p in todo ==>
      p.0 in chosen && p.0 in before && p.1 in before[p.0].runs && before[p.0].runs[p.1].status.Running?)
    && now.Keys == before.Keys
    && (forall t :: t in before ==> now[t] == if t in chosen
      then Recovered(before[t], Settled(before[t], todo, t)) else before[t])
  }

  lemma AllSettled(before: map<Id, Thread>, now: map<Id, Thread>, chosen: set<Id>)
    requires PartlyRecovered(before, now, chosen, {})
    ensures now == AllRecovered(before, chosen)
  {
    forall t | t in before ensures Settled(before[t], {}, t) == before[t].runs.Keys { }
  }

  lemma RecoverOne(before: map<Id, Thread>, now: map<Id, Thread>, after: map<Id, Thread>, chosen: set<Id>,
      todo: set<(Id, Id)>, p: (Id, Id))
    requires PartlyRecovered(before, now, chosen, todo) && p in todo
    requires after == Stepped(now, p.0, Finish(p.1, Interrupted, Some("PROCESS_RECOVERY"), None))
    ensures PartlyRecovered(before, after, chosen, todo - {p})
  {
    var left := todo - {p};
    assert now[p.0].runs[p.1] == before[p.0].runs[p.1];
    forall t | t in before
      ensures after[t] == if t in chosen then Recovered(before[t], Settled(before[t], left, t)) else before[t]
    {
      if t == p.0 {
        assert after[t].runs == Recovered(before[t], Settled(before[t], left, t)).runs;
      } else {
        assert Settled(before[t], left, t) == Settled(before[t], todo, t);
      }
    }
  }
}
