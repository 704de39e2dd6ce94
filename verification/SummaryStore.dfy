/** The rolling summary service over the mutable thread (`secminiagent/memory/summarizer.py`): `build` split at its
    transaction boundaries, so that other writers may run in between. */
module SummaryStore {
  import opened Basics
  import opened Messages
  import opened Pairing
  import opened Groups
  import opened GroupReaders
  import opened Threads
  import opened Summaries

  ghost function Report(s: System, step: Step): Option<BuildError> {
    match Try(s, step) { case Went(_) => None case Stopped(error) => Some(error) }
  }

  class RollingSummaryService {
    var thread: Thread
    var builders: map<Id, Builder>

    ghost function Now(): System
      reads this
    {
      System(thread, builders)
    }

    constructor (t: Thread)
      ensures Now() == System(t, map[])
    {
      thread, builders := t, map[];
    }

    /** First read: the thread's version and its active summary. */
    method Capture(b: Id) returns (e: Option<BuildError>)
      modifies this
      ensures Now() == Take(old(Now()), Step.Capture(b)) && e == Report(old(Now()), Step.Capture(b))
    {
      if thread.status != Active { return Some(SummaryThreadNotActive); }
      builders := builders[b := Captured(thread.version, ActiveOf(thread.rows))];
      e := None;
    }

    /** Second read: resume the transcript, then select the complete groups beyond the captured watermark. */
    method Load(b: Id) returns (e: Option<BuildError>)
      requires AllShaped(Log(thread))
      modifies this
      ensures Now() == Take(old(Now()), Step.Load(b)) && e == Report(old(Now()), Step.Load(b))
    {
      if b !in builders || !builders[b].Captured? { return Some(BuilderUnknown); }
      if thread.status != Active { return Some(SummaryThreadNotActive); }
      var captured := builders[b];
      var messages := Log(thread);
      var valid := ValidateSequenceAndPairs(messages);
      if !valid { return Some(TranscriptInvalid); }
      var selected := CompleteMessagesAfter(messages, Watermark(captured.previous));
      if selected.None? { return Some(OrphanResult); }
      if selected.value == [] { return Some(NoNewMessages); }
      builders := builders[b := Loaded(captured.threadVersion, captured.previous, selected.value)];
      e := None;
    }

    /** Writes the new summary as a candidate, supersedes the old one, and activates the new one. */
    method StoreSummary(summary: Summary)
      modifies this`thread
      ensures thread == ActivatedThread(old(thread), summary)
    {
      var current := ActiveOf(thread.rows);
      var sequence := thread.nextSeq;
      thread := thread.(nextSeq := sequence + 1, version := thread.version + 1);
      thread := thread.(rows := InsertRow(thread.rows, SummaryRow(summary, sequence, false, 1)));
      if current.Some? {
        thread := thread.(rows := SetStatus(thread.rows, current.value.summary.id, false));
      }
      thread := thread.(rows := SetStatus(thread.rows, summary.id, true));
    }

    /** The compare-and-swap: nothing is written unless the thread, its summary and every source are as captured. */
    method Activate(b: Id, id: Id, evaluated: Classification) returns (e: Option<BuildError>)
      modifies this
      ensures Now() == Take(old(Now()), Step.Activate(b, id, evaluated))
        && e == Report(old(Now()), Step.Activate(b, id, evaluated))
    {
      if b !in builders || !builders[b].Loaded? || builders[b].selected == [] { return Some(BuilderUnknown); }
      var loaded := builders[b];
      if thread.status != Active { return Some(SummaryThreadNotActive); }
      if thread.version != loaded.threadVersion { return Some(SourceChanged); }
      if !SameActive(ActiveOf(thread.rows), loaded.previous) { return Some(SummaryConflict); }
      if !SourcesPresent(thread, loaded.selected) { return Some(SourceChanged); }
      StoreSummary(Drafted(loaded, id, evaluated));
      builders := builders - {b};
      e := None;
    }
  }
}
