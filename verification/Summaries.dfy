/** Rolling summaries (`secminiagent/memory/summarizer.py`): builders that read the thread, generate at leisure, and
    activate under a compare-and-swap on the thread's version. */
module Summaries {
  import opened Basics
  import opened Messages
  import opened Pairing
  import opened Groups
  import opened Threads

  /** The active summary row as a builder captures it. */
  datatype ActiveSummary = ActiveSummary(summary: Summary, version: nat)

  /** A builder between its transactions. */
  datatype Builder =
    | Captured(threadVersion: nat, previous: Option<ActiveSummary>)
    | Loaded(threadVersion: nat, previous: Option<ActiveSummary>, selected: seq<Message>)

  datatype BuildError =
    | BuilderUnknown | SummaryThreadNotActive | TranscriptInvalid | OrphanResult | NoNewMessages
    | SourceChanged | SummaryConflict

  /** A thread with the builders at work on it. */
  datatype System = System(thread: Thread, builders: map<Id, Builder>)

  function HighestOf(ms: seq<Message>, floor: Classification): Classification {
    if ms == [] then floor else Higher(HighestOf(ms[..|ms| - 1], floor), ms[|ms| - 1].classification)
  }

  function Ids(ms: seq<Message>): (r: seq<Id>)
    ensures |r| == |ms|
  {
    seq(|ms|, i requires 0 <= i < |ms| => ms[i].id)
  }

  /** First occurrences only, in order. */
  function Dedupe(ids: seq<Id>): seq<Id> {
    if ids == [] then [] else
      var front := Dedupe(ids[..|ids| - 1]);
      if ids[|ids| - 1] in ids[..|ids| - 1] then front else front + [ids[|ids| - 1]]
  }

  function ActiveOf(rows: seq<Row>): Option<ActiveSummary> {
    if rows == [] then None
    else if rows[|rows| - 1].SummaryRow? && rows[|rows| - 1].active
    then Some(ActiveSummary(rows[|rows| - 1].summary, rows[|rows| - 1].version))
    else ActiveOf(rows[..|rows| - 1])
  }

  function Watermark(previous: Option<ActiveSummary>): nat {
    match previous case None => 0 case Some(a) => a.summary.covered
  }

  /** Sets the status of the summary row with this id. */
  function SetStatus(rows: seq<Row>, id: Id, active: bool): (r: seq<Row>)
    ensures |r| == |rows|
  {
    seq(|rows|, i requires 0 <= i < |rows| =>
      if rows[i].SummaryRow? && rows[i].summary.id == id
      then rows[i].(active := active, version := rows[i].version + 1) else rows[i])
  }

  function EarlierSources(previous: Option<ActiveSummary>): seq<Id> {
    match previous case None => [] case Some(a) => a.summary.sources
  }

  function NextRevision(previous: Option<ActiveSummary>): nat {
    match previous case None => 1 case Some(a) => a.summary.revision + 1
  }

  /** The highest of the sources' classifications, the old summary's and the evaluator's. */
  function DraftClass(previous: Option<ActiveSummary>, selected: seq<Message>,
      evaluated: Classification): Classification {
    Higher(HighestOf(selected, match previous { case None => evaluated case Some(a) => a.summary.classification }),
      evaluated)
  }

  /** The summary a loaded builder stores. */
  function Drafted(b: Builder, id: Id, evaluated: Classification): Summary
    requires b.Loaded? && b.selected != []
  {
    Summary(id, NextRevision(b.previous), Dedupe(EarlierSources(b.previous) + Ids(b.selected)),
      b.selected[|b.selected| - 1].threadSeq, DraftClass(b.previous, b.selected, evaluated))
  }

  // ----- The steps -----

  datatype Step =
    | On(event: Event)
    | Capture(builder: Id)
    | Load(builder: Id)
    | Activate(builder: Id, summaryId: Id, evaluated: Classification)

  datatype Built = Went(system: System) | Stopped(error: BuildError)

  /** First transaction: remember the thread version and the active summary. */
  function CaptureStep(s: System, b: Id): Built {
    if s.thread.status != Active then Stopped(SummaryThreadNotActive)
    else Went(s.(builders := s.builders[b := Captured(s.thread.version, ActiveOf(s.thread.rows))]))
  }

  /** Second transaction: resume the transcript and select the complete groups beyond the captured watermark. */
  ghost function LoadStep(s: System, b: Id): Built {
    if b !in s.builders || !s.builders[b].Captured? then Stopped(BuilderUnknown)
    else if s.thread.status != Active then Stopped(SummaryThreadNotActive)
    else if !Validated(Log(s.thread)) then Stopped(TranscriptInvalid)
    else
      var captured := s.builders[b];
      match CompletePrefix(After(Log(s.thread), Watermark(captured.previous))) {
        case None => Stopped(OrphanResult)
        case Some(selected) =>
          if selected == [] then Stopped(NoNewMessages)
          else Went(s.(builders := s.builders[b := Loaded(captured.threadVersion, captured.previous, selected)]))
      }
  }

  /** The rows an activation writes: the new summary as a candidate, the old one superseded, the new one active. */
  function ActivatedRows(t: Thread, previous: Option<ActiveSummary>, summary: Summary): seq<Row> {
    var inserted := InsertRow(t.rows, SummaryRow(summary, t.nextSeq, false, 1));
    var superseded := match previous { case None => inserted case Some(a) => SetStatus(inserted, a.summary.id, false) };
    SetStatus(superseded, summary.id, true)
  }

  /** The thread after an activation: a sequence number taken, the version bumped, the summary rows switched. */
  function ActivatedThread(t: Thread, s: Summary): Thread {
    t.(nextSeq := t.nextSeq + 1, version := t.version + 1, rows := ActivatedRows(t, ActiveOf(t.rows), s))
  }

  /** Every selected message is still stored under its sequence number. */
  predicate SourcesPresent(t: Thread, selected: seq<Message>) {
    forall m :: m in selected ==> exists row :: row in t.rows && RowId(row) == m.id && RowSeq(row) == m.threadSeq
  }

  /** Third transaction: store and activate, unless the thread or its summary moved since the capture. */
  function ActivateStep(s: System, b: Id, id: Id, evaluated: Classification): Built {
    if b !in s.builders || !s.builders[b].Loaded? || s.builders[b].selected == [] then Stopped(BuilderUnknown)
    else
      var loaded := s.builders[b];
      var t := s.thread;
      if t.status != Active then Stopped(SummaryThreadNotActive)
      else if t.version != loaded.threadVersion then Stopped(SourceChanged)
      else if !SameActive(ActiveOf(t.rows), loaded.previous) then Stopped(SummaryConflict)
      else if !SourcesPresent(t, loaded.selected) then Stopped(SourceChanged)
      else Went(System(ActivatedThread(t, Drafted(loaded, id, evaluated)), s.builders - {b}))
  }

  /** The captured row is still the active one: same id, same version; or there was and is none. */
  predicate SameActive(now: Option<ActiveSummary>, captured: Option<ActiveSummary>) {
    match captured
    case None => now.None?
    case Some(a) => now.Some? && now.value.summary.id == a.summary.id && now.value.version == a.version
  }

  ghost function Try(s: System, step: Step): Built {
    match step
    case On(e) => Went(s.(thread := Next(s.thread, e)))
    case Capture(b) => CaptureStep(s, b)
    case Load(b) => LoadStep(s, b)
    case Activate(b, id, evaluated) => ActivateStep(s, b, id, evaluated)
  }

  ghost function Take(s: System, step: Step): System {
    match Try(s, step) { case Went(s') => s' case Stopped(_) => s }
  }

  ghost function Interleave(s: System, steps: seq<Step>): System {
    if steps == [] then s else Take(Interleave(s, steps[..|steps| - 1]), steps[|steps| - 1])
  }

  ghost predicate FreshTake(s: System, step: Step) {
    match step
    case On(e) => FreshStep(s.thread, e)
    case Activate(_, id, _) => forall row :: row in s.thread.rows ==> RowId(row) != id
    case _ => true
  }

  ghost predicate FreshTakes(s: System, steps: seq<Step>) {
    steps != [] ==>
      FreshTakes(s, steps[..|steps| - 1]) && FreshTake(Interleave(s, steps[..|steps| - 1]), steps[|steps| - 1])
  }
}
