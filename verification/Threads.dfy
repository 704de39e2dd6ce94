/** One thread of a session: its row, its runs and its memory rows, with the atomic steps the stores make on them
    (`secminiagent/memory/thread_run_store.py`, `store_v2.py`, `transcript_v2.py`). */
module Threads {
  import opened Basics
  import opened Messages
  import opened Pairing
  import opened Sorting

  datatype ThreadStatus = Active | Archived

  datatype RunStatus = Running | Completed | Failed | Interrupted

  datatype Run = Run(
    no: nat, status: RunStatus, nextSeq: nat, version: nat, input: Option<Id>, final: Option<Id>,
    turns: nat, reason: Option<string>)

  /** A rolling summary: what it covers and the records it was made from. */
  datatype Summary = Summary(id: Id, revision: nat, sources: seq<Id>, covered: nat, classification: Classification)

  /** A memory row of thread scope. */
  datatype Row =
    | MessageRow(message: Message)
    | NoteRow(noteId: Id, noteSeq: nat)
    | SummaryRow(summary: Summary, summarySeq: nat, active: bool, version: nat)

  datatype Thread = Thread(
    status: ThreadStatus, nextRunNo: nat, nextSeq: nat, version: nat, runs: map<Id, Run>, rows: seq<Row>)

  datatype LifecycleError =
    | ThreadNotActive | RunAlreadyRunning | ThreadHasRunningRun | RunNotFound | RunNotRunning
    | RunTargetInvalid | RunIdempotencyConflict | RunAlreadyTerminal | RunFinalMessageInvalid
    | Refused(why: PairingError)

  datatype Outcome = Done(thread: Thread) | Fails(error: LifecycleError)

  const NEW_THREAD := Thread(Active, 1, 1, 1, map[], [])

  function RowId(row: Row): Id {
    match row
    case MessageRow(m) => m.id
    case NoteRow(id, _) => id
    case SummaryRow(s, _, _, _) => s.id
  }

  function RowSeq(row: Row): nat {
    match row
    case MessageRow(m) => m.threadSeq
    case NoteRow(_, n) => n
    case SummaryRow(_, n, _, _) => n
  }

  function MessagesOf(rows: seq<Row>): seq<Message> {
    if rows == [] then [] else
      var last := rows[|rows| - 1];
      MessagesOf(rows[..|rows| - 1]) + (if last.MessageRow? then [last.message] else [])
  }

  /** `ORDER BY thread_sequence, id` */
  predicate ThreadOrder(a: Message, b: Message) {
    a.threadSeq < b.threadSeq || (a.threadSeq == b.threadSeq && a.id <= b.id)
  }

  /** `ORDER BY run_sequence, id` */
  predicate RunOrder(a: Message, b: Message) {
    a.runSeq < b.runSeq || (a.runSeq == b.runSeq && a.id <= b.id)
  }

  /** The thread's transcript as resume reads it. */
  function Log(t: Thread): seq<Message> {
    SortBy(MessagesOf(t.rows), ThreadOrder)
  }

  /** The run's messages as an append reads them. */
  function ExistingOf(t: Thread, run: Id): seq<Message> {
    SortBy(RunLog(MessagesOf(t.rows), run), RunOrder)
  }

  predicate HasRunning(t: Thread) {
    exists r :: r in t.runs && t.runs[r].status.Running?
  }

  // ----- INSERT OR IGNORE -----

  /** The unique indexes of the memories table. */
  predicate Clash(a: Row, b: Row) {
    || RowId(a) == RowId(b)
    || RowSeq(a) == RowSeq(b)
    || (a.MessageRow? && b.MessageRow? && a.message.runId == b.message.runId && a.message.runSeq == b.message.runSeq)
  }

  /** A row that breaks a unique index is silently dropped. */
  function InsertRow(rows: seq<Row>, row: Row): seq<Row> {
    if exists i :: 0 <= i < |rows| && Clash(rows[i], row) then rows else rows + [row]
  }

  /** A run whose id or number is taken is silently dropped. */
  function InsertRun(runs: map<Id, Run>, id: Id, run: Run): map<Id, Run> {
    if id in runs || exists r :: r in runs && runs[r].no == run.no then runs else runs[id := run]
  }

  // ----- The steps -----

  function BeginRun(t: Thread, run: Id): Outcome {
    if t.status != Active then Fails(ThreadNotActive)
    else if HasRunning(t) then Fails(RunAlreadyRunning)
    else
      var runs := InsertRun(t.runs, run, Run(t.nextRunNo, Running, 1, 1, None, None, 0, None));
      if run !in runs then Fails(RunNotFound)
      else Done(t.(nextRunNo := t.nextRunNo + 1, version := t.version + 1, runs := runs))
  }

  /** A message before it is stored. */
  datatype Draft = Draft(id: Id, role: Role, calls: seq<Id>, result: Option<Id>, classification: Classification,
      size: nat)

  function Stored(d: Draft, run: Id, threadSeq: nat, runSeq: nat): Message {
    Message(d.id, run, threadSeq, runSeq, d.role, d.calls, d.result, d.classification, d.size)
  }

  /** Two version bumps: one for the sequence number, one for the progress counters. */
  function Progressed(r: Run, d: Draft): Run {
    r.(nextSeq := r.nextSeq + 1, version := r.version + 2,
       input := if d.role.User? && r.input.None? then Some(d.id) else r.input,
       turns := if d.role.Assistant? then r.turns + 1 else r.turns)
  }

  function Append(t: Thread, run: Id, d: Draft): Outcome {
    if t.status != Active then Fails(ThreadNotActive)
    else if run !in t.runs then Fails(RunNotFound)
    else if !t.runs[run].status.Running? then Fails(RunNotRunning)
    else
      var m := Stored(d, run, t.nextSeq, t.runs[run].nextSeq);
      match NewMessageError(ExistingOf(t, run), m) {
        case Some(why) => Fails(Refused(why))
        case None => Done(t.(nextSeq := t.nextSeq + 1, version := t.version + 1,
                             runs := t.runs[run := Progressed(t.runs[run], d)],
                             rows := InsertRow(t.rows, MessageRow(m))))
      }
  }

  /** A structured note takes a thread sequence number like a message does. */
  function AddNote(t: Thread, id: Id): Outcome {
    if t.status != Active then Fails(ThreadNotActive)
    else Done(t.(nextSeq := t.nextSeq + 1, version := t.version + 1, rows := InsertRow(t.rows, NoteRow(id, t.nextSeq))))
  }

  /** The final message must be a stored message of the run, not a tool result. */
  predicate FinalMessageKnown(t: Thread, run: Id, id: Id) {
    exists m :: m in MessagesOf(t.rows) && m.runId == run && m.id == id && !m.role.Tool?
  }

  function TransitionRun(t: Thread, run: Id, target: RunStatus, reason: Option<string>, final: Option<Id>): Outcome {
    if target.Running? then Fails(RunTargetInvalid)
    else if run !in t.runs then Fails(RunNotFound)
    else
      var r := t.runs[run];
      if r.status == target then
        if r.reason == reason && (target.Completed? ==> r.final == final)
            then Done(t) else Fails(RunIdempotencyConflict)
      else if !r.status.Running? then Fails(RunAlreadyTerminal)
      else if final.Some? && !FinalMessageKnown(t, run, final.value) then Fails(RunFinalMessageInvalid)
      else Done(t.(runs := t.runs[run := r.(status := target, version := r.version + 1,
                   reason := if target.Completed? then None else reason,
                   final := if target.Completed? then final else r.final)]))
  }

  function ArchiveThread(t: Thread): Outcome {
    if t.status == Archived then Done(t)
    else if HasRunning(t) then Fails(ThreadHasRunningRun)
    else Done(t.(status := Archived, version := t.version + 1))
  }

  datatype Event =
    | Begin(run: Id)
    | Say(run: Id, draft: Draft)
    | Jot(noteId: Id)
    | Finish(run: Id, target: RunStatus, reason: Option<string>, final: Option<Id>)
    | Archive

  function Attempt(t: Thread, e: Event): Outcome {
    match e
    case Begin(run) => BeginRun(t, run)
    case Say(run, d) => Append(t, run, d)
    case Jot(id) => AddNote(t, id)
    case Finish(run, target, reason, final) => TransitionRun(t, run, target, reason, final)
    case Archive => ArchiveThread(t)
  }

  /** A refused step rolls back. */
  function Next(t: Thread, e: Event): Thread {
    match Attempt(t, e) { case Done(t') => t' case Fails(_) => t }
  }

  function Replay(t: Thread, events: seq<Event>): Thread {
    if events == [] then t else Next(Replay(t, events[..|events| - 1]), events[|events| - 1])
  }

  /** Ids are minted at random: a step's new id is not in use, and drafts have the shape `_message_shape` gives them. */
  ghost predicate FreshStep(t: Thread, e: Event) {
    match e
    case Begin(run) => run !in t.runs
    case Say(run, d) => (forall row :: row in t.rows ==> RowId(row) != d.id) && Shaped(Stored(d, run, 0, 0))
    case Jot(id) => forall row :: row in t.rows ==> RowId(row) != id
    case _ => true
  }

  ghost predicate FreshSteps(t: Thread, events: seq<Event>) {
    events != [] ==>
      FreshSteps(t, events[..|events| - 1]) && FreshStep(Replay(t, events[..|events| - 1]), events[|events| - 1])
  }
}
