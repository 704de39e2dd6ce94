/** Exactly when a builder's steps go through, and where the class of the summary they activate comes from. */
module SummaryCauses {
  import opened Basics
  import opened Messages
  import opened Pairing
  import opened Groups
  import opened LogOrder
  import opened Threads
  import opened ThreadLaws
  import opened Summaries
  import opened SummaryLaws
  import opened SummaryProgress

  // ----- The steps of a builder -----

  /** The active summary is the one summary row marked active. */
  lemma {:induction false} ActiveIsMarked(rows: seq<Row>, a: ActiveSummary)
    requires OneActive(rows)
    ensures ActiveOf(rows) == Some(a) <==> exists n :: SummaryRow(a.summary, n, true, a.version) in rows
    ensures ActiveOf(rows).None? <==> forall row :: row in rows ==> !(row.SummaryRow? && row.active)
    decreases |rows|
  {
    if rows != [] {
      var front, last := rows[..|rows| - 1], rows[|rows| - 1];
      assert rows == front + [last];
      ActiveIsMarked(front, a);
      if IsActive(last) {
        forall row | row in front ensures !IsActive(row) {
          var i :| 0 <= i < |front| && front[i] == row;
          assert rows[i] == row;
        }
        assert ActiveOf(rows) == Some(ActiveSummary(last.summary, last.version));
        assert last == SummaryRow(last.summary, last.summarySeq, true, last.version);
      }
    }
  }

  /** A capture needs an active thread; it remembers the thread's version and its active summary. */
  lemma CaptureNeeds(s: System, b: Id)
    ensures CaptureStep(s, b).Went? <==> s.thread.status == Active
    ensures CaptureStep(s, b).Went? ==>
      CaptureStep(s, b).system.thread == s.thread
        && CaptureStep(s, b).system.builders == s.builders[b := Captured(s.thread.version, ActiveOf(s.thread.rows))]
  {
  }

  /** While the thread has not moved since the capture, a load goes through exactly when something is selectable: the
      resume check passes and no orphan is met. */
  lemma LoadNeeds(s: System, b: Id)
    requires SummariesOk(s) && b in s.builders && s.builders[b].Captured?
    requires s.builders[b].threadVersion == s.thread.version
    ensures Selectable(s.thread).Some?
    ensures LoadStep(s, b).Went? <==> s.thread.status == Active && Selectable(s.thread).value != []
    ensures LoadStep(s, b).Went? ==>
      LoadStep(s, b).system.thread == s.thread
        && LoadStep(s, b).system.builders
          == s.builders[b := Loaded(s.thread.version, ActiveOf(s.thread.rows), Selectable(s.thread).value)]
  {
    assert BuilderOk(s.builders[b], s.thread);
    LivedThreadResumes(s.thread);
    var n := RestIsReadable(s);
  }

  /** A loaded builder activates exactly when the thread is active and its version is the captured one: then its
      summary and its sources are as captured too. */
  lemma ActivateNeeds(s: System, b: Id, id: Id, evaluated: Classification)
    requires SummariesOk(s)
    ensures ActivateStep(s, b, id, evaluated).Went? <==>
      b in s.builders && s.builders[b].Loaded? && s.thread.status == Active
        && s.thread.version == s.builders[b].threadVersion
  {
    if b in s.builders && s.builders[b].Loaded? && s.thread.version == s.builders[b].threadVersion {
      assert BuilderOk(s.builders[b], s.thread);
      SelectedArePresent(s, s.builders[b].selected);
    }
  }

  /** The captured row is still the active one. */
  predicate StillActive(now: Option<ActiveSummary>, captured: Option<ActiveSummary>) {
    match (now, captured)
    case (None, None) => true
    case (Some(a), Some(c)) => a.summary.id == c.summary.id && a.version == c.version
    case _ => false
  }

  /** Some selected message is no longer stored under its number. */
  ghost predicate SomeMissing(t: Thread, selected: seq<Message>) {
    exists m :: m in selected && forall row :: row in t.rows ==> RowId(row) != m.id || RowSeq(row) != m.threadSeq
  }

  /** The same guards in any state, whatever was captured. */
  lemma ActivationCompares(s: System, b: Id, id: Id, evaluated: Classification)
    requires b in s.builders && s.builders[b].Loaded? && s.builders[b].selected != [] && s.thread.status == Active
    ensures var now, was := ActiveOf(s.thread.rows), s.builders[b].previous;
            var moved := s.thread.version != s.builders[b].threadVersion;
            && (ActivateStep(s, b, id, evaluated) == Stopped(SummaryConflict) <==> !moved && !StillActive(now, was))
            && (ActivateStep(s, b, id, evaluated) == Stopped(SourceChanged) <==>
              moved || (StillActive(now, was) && SomeMissing(s.thread, s.builders[b].selected)))
  {
  }

  // ----- The class of a summary -----

  lemma {:induction false} HighestIsOneOf(ms: seq<Message>, floor: Classification)
    ensures HighestOf(ms, floor) == floor || exists m :: m in ms && m.classification == HighestOf(ms, floor)
    decreases |ms|
  {
    if ms != [] {
      var front, last := ms[..|ms| - 1], ms[|ms| - 1];
      HighestIsOneOf(front, floor);
      assert last in ms && forall m :: m in front ==> m in ms;
    }
  }

  /** A draft follows the captured summary by one revision; its class is that of a selected message, of the captured
      summary, or the evaluator's, and none of these is higher. */
  lemma DraftFollows(b: Builder, id: Id, evaluated: Classification)
    requires b.Loaded? && b.selected != []
    ensures var draft := Drafted(b, id, evaluated);
            && draft.id == id && draft.covered == b.selected[|b.selected| - 1].threadSeq
            && draft.revision == (if b.previous.Some? then b.previous.value.summary.revision + 1 else 1)
            && (draft.classification == evaluated
              || (b.previous.Some? && draft.classification == b.previous.value.summary.classification)
              || exists m :: m in b.selected && m.classification == draft.classification)
            && Rank(evaluated) <= Rank(draft.classification)
            && (b.previous.Some? ==> Rank(b.previous.value.summary.classification) <= Rank(draft.classification))
            && forall m :: m in b.selected ==> Rank(m.classification) <= Rank(draft.classification)
  {
    var floor := match b.previous case None => evaluated case Some(a) => a.summary.classification;
    HighestIsOneOf(b.selected, floor);
    HighestBounds(b.selected, floor);
  }

  lemma {:induction false} HighestBounds(ms: seq<Message>, floor: Classification)
    ensures Rank(floor) <= Rank(HighestOf(ms, floor))
    ensures forall m :: m in ms ==> Rank(m.classification) <= Rank(HighestOf(ms, floor))
    decreases |ms|
  {
    if ms != [] {
      HighestBounds(ms[..|ms| - 1], floor);
      assert ms == ms[..|ms| - 1] + [ms[|ms| - 1]];
    }
  }

  /** Some build among the steps was evaluated to this class. */
  ghost predicate Evaluated(steps: seq<Step>, c: Classification) {
    exists step :: step in steps && step.Activate? && step.evaluated == c
  }

  /** The class of the summary is that of a message it covers, or one an evaluator gave. */
  ghost predicate ClassHasCause(s: Summary, log: seq<Message>, steps: seq<Step>) {
    Evaluated(steps, s.classification)
      || exists m :: m in log && m.threadSeq <= s.covered && m.classification == s.classification
  }

  lemma CauseStays(s: Summary, log: seq<Message>, longer: seq<Message>, steps: seq<Step>, step: Step)
    requires ClassHasCause(s, log, steps) && log <= longer
    ensures ClassHasCause(s, longer, steps + [step])
  {
    if Evaluated(steps, s.classification) {
      var x :| x in steps && x.Activate? && x.evaluated == s.classification;
      assert x in steps + [step];
    } else {
      var m :| m in log && m.threadSeq <= s.covered && m.classification == s.classification;
      assert m in longer;
    }
  }

  /** The class of the active summary is never higher than it must be: over every interleaving it is that of a message
      the summary covers, or one that an evaluator gave to it or to a summary before it. */
  lemma {:induction false} ActiveClassHasCause(steps: seq<Step>)
    requires FreshTakes(NEW_SYSTEM, steps)
    ensures var t := Interleave(NEW_SYSTEM, steps).thread;
            ActiveOf(t.rows).Some? ==> ClassHasCause(ActiveOf(t.rows).value.summary, Log(t), steps)
    decreases |steps|
  {
    if steps != [] {
      var before, step := steps[..|steps| - 1], steps[|steps| - 1];
      assert steps == before + [step];
      ActiveClassHasCause(before);
      EveryInterleavingIsOk(before);
      StepKeepsCause(Interleave(NEW_SYSTEM, before), before, step);
    }
  }

  lemma {:induction false} StepKeepsCause(s: System, before: seq<Step>, step: Step)
    requires SummariesOk(s) && FreshTake(s, step)
    requires var t := s.thread;
             ActiveOf(t.rows).Some? ==> ClassHasCause(ActiveOf(t.rows).value.summary, Log(t), before)
    ensures var t := Take(s, step).thread;
            ActiveOf(t.rows).Some? ==> ClassHasCause(ActiveOf(t.rows).value.summary, Log(t), before + [step])
  {
    var t, t' := s.thread, Take(s, step).thread;
    if step.Activate? && Try(s, step).Went? {
      ActivationKeepsCause(s, before, step);
    } else {
      if step.On? {
        EventKeepsSummaries(s, step.event);
        LogGrows(t, step.event);
      }
      if ActiveOf(t.rows).Some? { CauseStays(ActiveOf(t.rows).value.summary, Log(t), Log(t'), before, step); }
    }
  }

  lemma {:induction false} ActivationKeepsCause(s: System, before: seq<Step>, step: Step)
    requires SummariesOk(s) && FreshTake(s, step) && step.Activate? && Try(s, step).Went?
    requires var t := s.thread;
             ActiveOf(t.rows).Some? ==> ClassHasCause(ActiveOf(t.rows).value.summary, Log(t), before)
    ensures var t := Take(s, step).thread;
            ActiveOf(t.rows).Some? && ClassHasCause(ActiveOf(t.rows).value.summary, Log(t), before + [step])
  {
    var b, log := s.builders[step.builder], Log(s.thread);
    ActivationGuards(s, step.builder, step.summaryId, step.evaluated);
    ActivationAdvances(s, step.builder, step.summaryId, step.evaluated);
    forall m | m in b.selected ensures m in log && m.threadSeq <= b.selected[|b.selected| - 1].threadSeq {
      SelectedInLog(s, b.selected, m);
    }
    DraftHasCause(b, log, before, step);
  }

  lemma {:induction false} DraftHasCause(b: Builder, log: seq<Message>, before: seq<Step>, step: Step)
    requires b.Loaded? && b.selected != [] && step.Activate?
    requires forall m :: m in b.selected ==> m in log && m.threadSeq <= b.selected[|b.selected| - 1].threadSeq
    requires b.previous.Some? ==>
      ClassHasCause(b.previous.value.summary, log, before)
        && b.previous.value.summary.covered <= b.selected[|b.selected| - 1].threadSeq
    ensures ClassHasCause(Drafted(b, step.summaryId, step.evaluated), log, before + [step])
  {
    var draft := Drafted(b, step.summaryId, step.evaluated);
    DraftFollows(b, step.summaryId, step.evaluated);
    assert step in before + [step];
    if b.previous.Some? && draft.classification == b.previous.value.summary.classification {
      var past := b.previous.value.summary;
      CauseStays(past, log, log, before, step);
      CauseReaches(past, draft, log, before + [step]);
    } else if draft.classification == step.evaluated {
      assert Evaluated(before + [step], draft.classification);
    }
  }

  lemma CauseReaches(past: Summary, draft: Summary, log: seq<Message>, steps: seq<Step>)
    requires ClassHasCause(past, log, steps) && draft.classification == past.classification
      && past.covered <= draft.covered
    ensures ClassHasCause(draft, log, steps)
  {
  }

  lemma {:induction false} SelectedInLog(s: System, selected: seq<Message>, m: Message)
    requires SummariesOk(s) && Selectable(s.thread) == Some(selected) && m in selected
    ensures m in Log(s.thread) && m.threadSeq <= selected[|selected| - 1].threadSeq
  {
    var log := Log(s.thread);
    var n := RestIsReadable(s);
    var groups := CompletePrefixGroups(log[n..]);
    SoundLogClimbs(s.thread);
    SuffixClimbs(log, n);
    LastOfPrefix(log[n..], selected);
    assert m in log[n..];
  }
}
