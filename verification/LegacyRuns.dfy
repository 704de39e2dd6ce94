/** Run inference over a legacy event stream (`infer_legacy_runs` in `secminiagent/memory/migration_v1_v2.py`). */
module LegacyRuns {
  import opened Basics
  import opened Messages
  import opened Sorting
  import opened Threads

  /** A legacy event; a role of None stands for any the inference does not look for. */
  datatype LegacyEvent = LegacyEvent(id: Id, number: nat, role: Option<Role>, calls: bool)

  datatype LegacyRun = LegacyRun(
    runId: Id, no: nat, status: RunStatus, unassigned: bool, input: Option<Id>, final: Option<Id>, events: seq<Id>)

  /** The sort key: sequence number, then id. */
  predicate EventOrder(a: LegacyEvent, b: LegacyEvent) {
    a.number < b.number || (a.number == b.number && a.id <= b.id)
  }

  // ----- Blocks: the declarative reading of the stream -----

  predicate Opens(e: LegacyEvent) {
    e.role == Some(User)
  }

  /** An assistant message without tool calls answers the user. */
  predicate Closes(e: LegacyEvent) {
    e.role == Some(Assistant) && !e.calls
  }

  /** The user event whose run is open just before event `k`. */
  function OpenAt(es: seq<LegacyEvent>, k: nat): Option<nat>
    requires k <= |es|
  {
    if k == 0 then None
    else if Opens(es[k - 1]) then Some(k - 1)
    else if Closes(es[k - 1]) then None
    else OpenAt(es, k - 1)
  }

  /** The block an event belongs to, named by its user event; None for the unassigned events. */
  function BlockOf(es: seq<LegacyEvent>, j: nat): Option<nat>
    requires j < |es|
  {
    if Opens(es[j]) then Some(j) else OpenAt(es, j)
  }

  /** A run is open at `k` exactly when its user event is followed by neither another user event nor an answer. */
  lemma {:induction false} OpenMeansUnanswered(es: seq<LegacyEvent>, k: nat, i: nat)
    requires k <= |es|
    ensures OpenAt(es, k) == Some(i)
      <==> i < k && Opens(es[i]) && forall j :: i < j < k ==> !Opens(es[j]) && !Closes(es[j])
    decreases k
  {
    if k > 0 { OpenMeansUnanswered(es, k - 1, i); }
  }

  /** The blocks in the order of their first events. */
  function Blocks(es: seq<LegacyEvent>, k: nat): seq<Option<nat>>
    requires k <= |es|
  {
    if k == 0 then [] else
      var before := Blocks(es, k - 1);
      if BlockOf(es, k - 1) in before then before else before + [BlockOf(es, k - 1)]
  }

  /** The ids of a block's events, in order. */
  function EventsOf(es: seq<LegacyEvent>, k: nat, b: Option<nat>): seq<Id>
    requires k <= |es|
  {
    if k == 0 then [] else EventsOf(es, k - 1, b) + (if BlockOf(es, k - 1) == b then [es[k - 1].id] else [])
  }

  /** One more than the position of a block's last event; 0 if it has none. */
  function AfterLast(es: seq<LegacyEvent>, k: nat, b: Option<nat>): (n: nat)
    requires k <= |es|
    ensures n <= k && (n > 0 ==> BlockOf(es, n - 1) == b)
  {
    if k == 0 then 0 else if BlockOf(es, k - 1) == b then k else AfterLast(es, k - 1, b)
  }

  /** A block has been answered when its last event closes it. */
  predicate Answered(es: seq<LegacyEvent>, k: nat, b: Option<nat>)
    requires k <= |es|
  {
    b.Some? && AfterLast(es, k, b) > 0 && Closes(es[AfterLast(es, k, b) - 1])
  }

  function StatusOf(es: seq<LegacyEvent>, k: nat, b: Option<nat>): RunStatus
    requires k <= |es|
  {
    if b.Some? && OpenAt(es, k) == b then Running else if Answered(es, k, b) then Completed else Interrupted
  }

  /** The run of a block. */
  function RowOf(es: seq<LegacyEvent>, k: nat, b: Option<nat>, no: nat, name: (nat, bool) -> Id): LegacyRun
    requires k <= |es|
  {
    LegacyRun(name(no, b.None?), no, StatusOf(es, k, b), b.None?,
              if b.Some? && b.value < |es| then Some(es[b.value].id) else None,
              if Answered(es, k, b) then Some(es[AfterLast(es, k, b) - 1].id) else None,
              EventsOf(es, k, b))
  }

  function Rows(es: seq<LegacyEvent>, k: nat, name: (nat, bool) -> Id): (r: seq<LegacyRun>)
    requires k <= |es|
    ensures |r| == |Blocks(es, k)|
  {
    seq(|Blocks(es, k)|, i requires 0 <= i < |Blocks(es, k)| => RowOf(es, k, Blocks(es, k)[i], i + 1, name))
  }

  function IndexOf(s: seq<Option<nat>>, x: Option<nat>): (i: nat)
    requires x in s
    ensures i < |s| && s[i] == x
  {
    if s[|s| - 1] == x then |s| - 1 else IndexOf(s[..|s| - 1], x)
  }

  /** Where each event goes: its run and its position there. */
  function Placed(es: seq<LegacyEvent>, k: nat, name: (nat, bool) -> Id): map<Id, (Id, nat)>
    requires k <= |es|
  {
    if k == 0 then map[] else
      var b := BlockOf(es, k - 1);
      BlocksHold(es, k, k - 1);
      Placed(es, k - 1, name)[es[k - 1].id := (name(IndexOf(Blocks(es, k), b) + 1, b.None?), |EventsOf(es, k, b)|)]
  }

  lemma {:induction false} BlocksHold(es: seq<LegacyEvent>, k: nat, j: nat)
    requires j < k <= |es|
    ensures BlockOf(es, j) in Blocks(es, k)
    decreases k
  {
    if j < k - 1 { BlocksHold(es, k - 1, j); }
  }

  // ----- Facts about blocks -----

  lemma {:induction false} BlocksDistinct(es: seq<LegacyEvent>, k: nat)
    requires k <= |es|
    ensures forall i, j :: 0 <= i < j < |Blocks(es, k)| ==> Blocks(es, k)[i] != Blocks(es, k)[j]
    ensures forall b :: b in Blocks(es, k) && b.Some? ==> b.value < k && Opens(es[b.value])
    decreases k
  {
    if k > 0 {
      BlocksDistinct(es, k - 1);
      var b := BlockOf(es, k - 1);
      if !Opens(es[k - 1]) && b.Some? { OpenMeansUnanswered(es, k - 1, b.value); }
    }
  }

  lemma {:induction false} OpenIsBlock(es: seq<LegacyEvent>, k: nat)
    requires k <= |es| && OpenAt(es, k).Some?
    ensures OpenAt(es, k) in Blocks(es, k)
  {
    var i := OpenAt(es, k).value;
    OpenMeansUnanswered(es, k, i);
    BlocksHold(es, k, i);
  }

  lemma {:induction false} OpenIsUnanswered(es: seq<LegacyEvent>, k: nat)
    requires k <= |es| && OpenAt(es, k).Some?
    ensures !Answered(es, k, OpenAt(es, k))
  {
    var i := OpenAt(es, k).value;
    var n := AfterLast(es, k, Some(i));
    if n > 0 {
      BlockStartsBefore(es, n - 1, i);
      NotClosing(es, k, i, n - 1);
    }
  }

  lemma {:induction false} NotClosing(es: seq<LegacyEvent>, k: nat, i: nat, j: nat)
    requires k <= |es| && OpenAt(es, k) == Some(i) && i <= j < k
    ensures !Closes(es[j])
  {
    OpenMeansUnanswered(es, k, i);
  }

  lemma {:induction false} BlockStartsBefore(es: seq<LegacyEvent>, j: nat, i: nat)
    requires j < |es| && BlockOf(es, j) == Some(i)
    ensures i <= j && Opens(es[i])
  {
    if !Opens(es[j]) { OpenMeansUnanswered(es, j, i); }
  }

  // ----- One event -----

  lemma {:induction false} NoEventsYet(es: seq<LegacyEvent>, k: nat, b: Option<nat>)
    requires k <= |es| && b !in Blocks(es, k)
    ensures EventsOf(es, k, b) == [] && AfterLast(es, k, b) == 0
    decreases k
  {
    if k > 0 { NoEventsYet(es, k - 1, b); }
  }

  /** A run the next event does not go to: interrupted if it was open, otherwise unchanged. */
  lemma {:induction false} OtherRow(es: seq<LegacyEvent>, k: nat, b: Option<nat>, no: nat, name: (nat, bool) -> Id)
    requires k < |es| && BlockOf(es, k) != b && (b.Some? ==> b.value < k)
    ensures RowOf(es, k + 1, b, no, name)
         == RowOf(es, k, b, no, name).(status := if b.Some? && OpenAt(es, k) == b
           then Interrupted else StatusOf(es, k, b))
  {
    if b.Some? && OpenAt(es, k) == b { OpenIsUnanswered(es, k); }
  }

  /** A run the next event continues. */
  lemma {:induction false} ContinuedRow(es: seq<LegacyEvent>, k: nat, no: nat, name: (nat, bool) -> Id)
    requires k < |es| && !Opens(es[k])
    ensures var b := OpenAt(es, k);
            var closing := b.Some? && Closes(es[k]);
            RowOf(es, k + 1, b, no, name) == RowOf(es, k, b, no, name).(
              events := EventsOf(es, k, b) + [es[k].id],
              status := if closing then Completed else StatusOf(es, k, b), final := if closing
                then Some(es[k].id) else None)
  {
    if OpenAt(es, k).Some? { OpenIsUnanswered(es, k); }
  }

  /** The run a user event starts. */
  lemma {:induction false} OpenedRow(es: seq<LegacyEvent>, k: nat, no: nat, name: (nat, bool) -> Id)
    requires k < |es| && Opens(es[k])
    ensures Some(k) !in Blocks(es, k)
    ensures RowOf(es, k + 1, Some(k), no, name)
      == LegacyRun(name(no, false), no, Running, false, Some(es[k].id), None, [es[k].id])
  {
    BlocksDistinct(es, k);
    NoEventsYet(es, k, Some(k));
  }

  /** The run for events no run is open for. */
  lemma {:induction false} UnassignedRow(es: seq<LegacyEvent>, k: nat, no: nat, name: (nat, bool) -> Id)
    requires k < |es| && !Opens(es[k]) && OpenAt(es, k).None? && None !in Blocks(es, k)
    ensures RowOf(es, k + 1, None, no, name) == LegacyRun(name(no, true), no, Interrupted, true, None, None, [es[k].id])
  {
    NoEventsYet(es, k, None);
  }

  predicate Points(es: seq<LegacyEvent>, k: nat, at: Option<nat>, b: Option<nat>)
    requires k <= |es|
  {
    at.Some? ==> at.value < |Blocks(es, k)| && Blocks(es, k)[at.value] == b
  }

  /** The loop's state after `k` events. */
  predicate Inferring(es: seq<LegacyEvent>, k: nat, runs: seq<LegacyRun>, current: Option<nat>,
      unassigned: Option<nat>, name: (nat, bool) -> Id)
    requires k <= |es|
  {
    && runs == Rows(es, k, name)
    && (current.Some? <==> OpenAt(es, k).Some?) && Points(es, k, current, OpenAt(es, k))
    && (unassigned.Some? <==> None in Blocks(es, k)) && Points(es, k, unassigned, None)
  }

  function Interrupt(runs: seq<LegacyRun>, at: Option<nat>): seq<LegacyRun> {
    if at.Some? && at.value < |runs| then runs[at.value := runs[at.value].(status := Interrupted)] else runs
  }

  /** The current run is the one whose block is open. */
  lemma {:induction false} CurrentIsOpen(es: seq<LegacyEvent>, k: nat, current: Option<nat>, i: nat)
    requires k <= |es| && (current.Some? <==> OpenAt(es, k).Some?) && Points(es, k, current, OpenAt(es, k))
      && i < |Blocks(es, k)|
    ensures current == Some(i) <==> Blocks(es, k)[i].Some? && OpenAt(es, k) == Blocks(es, k)[i]
  {
    BlocksDistinct(es, k);
  }

  lemma {:induction false} BlocksGrow(es: seq<LegacyEvent>, k: nat, i: nat)
    requires k < |es| && i < |Blocks(es, k)|
    ensures i < |Blocks(es, k + 1)| && Blocks(es, k + 1)[i] == Blocks(es, k)[i]
    ensures Blocks(es, k)[i].Some? ==> Blocks(es, k)[i].value < k
  {
    BlocksDistinct(es, k);
  }

  /** The rows of runs the next event does not go to. */
  lemma {:induction false} OtherRows(es: seq<LegacyEvent>, k: nat, runs: seq<LegacyRun>, current: Option<nat>,
      unassigned: Option<nat>, name: (nat, bool) -> Id, i: nat)
    requires k < |es| && Inferring(es, k, runs, current, unassigned, name) && i < |runs|
      && Blocks(es, k)[i] != BlockOf(es, k)
    ensures i < |Rows(es, k + 1, name)|
    ensures Rows(es, k + 1, name)[i] == (if current == Some(i) then runs[i].(status := Interrupted) else runs[i])
  {
    BlocksGrow(es, k, i);
    OtherRow(es, k, Blocks(es, k)[i], i + 1, name);
    CurrentIsOpen(es, k, current, i);
  }

  lemma {:induction false} UserEvent(es: seq<LegacyEvent>, k: nat, runs: seq<LegacyRun>, current: Option<nat>,
      unassigned: Option<nat>, name: (nat, bool) -> Id)
    requires k < |es| && Inferring(es, k, runs, current, unassigned, name) && Opens(es[k])
    ensures var no := |runs| + 1;
            var now := Interrupt(runs, current)
              + [LegacyRun(name(no, false), no, Running, false, Some(es[k].id), None, [es[k].id])];
            Inferring(es, k + 1, now, Some(|runs|), unassigned, name)
    ensures JoinsAt(es, k, |runs|)
  {
    OpenedRow(es, k, |runs| + 1, name);
    forall i | 0 <= i < |runs| ensures Rows(es, k + 1, name)[i] == Interrupt(runs, current)[i] {
      OtherRows(es, k, runs, current, unassigned, name, i);
    }
  }

  function Continued(runs: seq<LegacyRun>, at: nat, id: Id, closing: bool): seq<LegacyRun>
    requires at < |runs|
  {
    var r := runs[at].(events := runs[at].events + [id]);
    runs[at := if closing then r.(status := Completed, final := Some(id)) else r]
  }

  lemma {:induction false} OpenRunEvent(es: seq<LegacyEvent>, k: nat, runs: seq<LegacyRun>, current: nat,
      unassigned: Option<nat>, name: (nat, bool) -> Id)
    requires k < |es| && Inferring(es, k, runs, Some(current), unassigned, name) && !Opens(es[k])
    ensures var closing := Closes(es[k]);
            Inferring(es, k + 1, Continued(runs, current, es[k].id, closing), if closing
              then None else Some(current), unassigned, name)
    ensures JoinsAt(es, k, current)
  {
    OpenIsBlock(es, k);
    OpenIsUnanswered(es, k);
    ContinuedRow(es, k, current + 1, name);
    assert Blocks(es, k + 1) == Blocks(es, k);
    forall i | 0 <= i < |runs| && i != current ensures Rows(es, k + 1, name)[i] == runs[i] {
      BlocksDistinct(es, k);
      OtherRows(es, k, runs, Some(current), unassigned, name, i);
    }
    assert Rows(es, k + 1, name)[current] == Continued(runs, current, es[k].id, Closes(es[k]))[current];
  }

  lemma {:induction false} StrayEvent(es: seq<LegacyEvent>, k: nat, runs: seq<LegacyRun>, unassigned: nat,
      name: (nat, bool) -> Id)
    requires k < |es| && Inferring(es, k, runs, None, Some(unassigned), name) && !Opens(es[k])
    ensures Inferring(es, k + 1, Continued(runs, unassigned, es[k].id, false), None, Some(unassigned), name)
    ensures JoinsAt(es, k, unassigned)
  {
    ContinuedRow(es, k, unassigned + 1, name);
    assert Blocks(es, k + 1) == Blocks(es, k);
    forall i | 0 <= i < |runs| && i != unassigned ensures Rows(es, k + 1, name)[i] == runs[i] {
      BlocksDistinct(es, k);
      OtherRows(es, k, runs, None, Some(unassigned), name, i);
    }
  }

  lemma {:induction false} FirstStrayEvent(es: seq<LegacyEvent>, k: nat, runs: seq<LegacyRun>, name: (nat, bool) -> Id)
    requires k < |es| && Inferring(es, k, runs, None, None, name) && !Opens(es[k])
    ensures var no := |runs| + 1;
            Inferring(es, k + 1, runs + [LegacyRun(name(no, true), no, Interrupted, true, None, None, [es[k].id])],
              None, Some(|runs|), name)
    ensures JoinsAt(es, k, |runs|)
  {
    UnassignedRow(es, k, |runs| + 1, name);
    forall i | 0 <= i < |runs| ensures Rows(es, k + 1, name)[i] == runs[i] {
      OtherRows(es, k, runs, None, None, name, i);
    }
  }

  // ----- The whole stream -----

  /** The run of a block once the stream has ended: nothing stays running. */
  function FinalRow(es: seq<LegacyEvent>, b: Option<nat>, no: nat, name: (nat, bool) -> Id): LegacyRun {
    RowOf(es, |es|, b, no, name).(status := if Answered(es, |es|, b) then Completed else Interrupted)
  }

  function InferredRuns(es: seq<LegacyEvent>, name: (nat, bool) -> Id): (r: seq<LegacyRun>)
    ensures |r| == |Blocks(es, |es|)|
  {
    seq(|Blocks(es, |es|)|, i requires 0 <= i < |Blocks(es, |es|)| => FinalRow(es, Blocks(es, |es|)[i], i + 1, name))
  }

  lemma {:induction false} StreamEnds(
    es: seq<LegacyEvent>, runs: seq<LegacyRun>, current: Option<nat>, unassigned: Option<nat>, name: (nat, bool) -> Id)
    requires Inferring(es, |es|, runs, current, unassigned, name)
    ensures Interrupt(runs, current) == InferredRuns(es, name)
  {
    if OpenAt(es, |es|).Some? { OpenIsUnanswered(es, |es|); }
    forall i | 0 <= i < |runs| ensures Interrupt(runs, current)[i] == InferredRuns(es, name)[i] {
      CurrentIsOpen(es, |es|, current, i);
    }
  }

  lemma {:induction false} IndexIsUnique(es: seq<LegacyEvent>, k: nat, i: nat)
    requires k <= |es| && i < |Blocks(es, k)|
    ensures IndexOf(Blocks(es, k), Blocks(es, k)[i]) == i
  {
    BlocksDistinct(es, k);
  }

  lemma {:induction false} PlacedStep(es: seq<LegacyEvent>, k: nat, i: nat, name: (nat, bool) -> Id)
    requires k < |es| && JoinsAt(es, k, i)
    ensures Placed(es, k + 1, name)
      == Placed(es, k, name)[es[k].id := (name(i + 1, BlockOf(es, k).None?), |EventsOf(es, k + 1, BlockOf(es, k))|)]
  {
    IndexIsUnique(es, k + 1, i);
  }

  lemma {:induction false} JoinedRow(es: seq<LegacyEvent>, k: nat, i: nat, name: (nat, bool) -> Id)
    requires k < |es| && JoinsAt(es, k, i)
    ensures Rows(es, k + 1, name)[i].runId == name(i + 1, BlockOf(es, k).None?)
    ensures Rows(es, k + 1, name)[i].events == EventsOf(es, k + 1, BlockOf(es, k))
  {
  }

  /** The run a step's event goes to is the one at `i`. */
  predicate JoinsAt(es: seq<LegacyEvent>, k: nat, i: nat)
    requires k < |es|
  {
    i < |Blocks(es, k + 1)| && Blocks(es, k + 1)[i] == BlockOf(es, k)
  }

  /** One event: it opens a run, joins the open one, or goes to the one run for stray events. */
  method InferEvent(es: seq<LegacyEvent>, k: nat, runs: seq<LegacyRun>, current: Option<nat>, unassigned: Option<nat>,
      name: (nat, bool) -> Id)
    returns (runs': seq<LegacyRun>, current': Option<nat>, unassigned': Option<nat>, joined: nat)
    requires k < |es| && Inferring(es, k, runs, current, unassigned, name)
    ensures Inferring(es, k + 1, runs', current', unassigned', name) && JoinsAt(es, k, joined)
  {
    var e := es[k];
    runs', current', unassigned' := runs, current, unassigned;
    if Opens(e) {
      UserEvent(es, k, runs, current, unassigned, name);
      runs' := Interrupt(runs, current)
        + [LegacyRun(name(|runs| + 1, false), |runs| + 1, Running, false, Some(e.id), None, [e.id])];
      joined := |runs|;
      current' := Some(joined);
    } else if current.None? {
      if unassigned.None? {
        FirstStrayEvent(es, k, runs, name);
        runs' := runs + [LegacyRun(name(|runs| + 1, true), |runs| + 1, Interrupted, true, None, None, [e.id])];
        unassigned' := Some(|runs|);
      } else {
        StrayEvent(es, k, runs, unassigned.value, name);
        runs' := Continued(runs, unassigned.value, e.id, false);
      }
      joined := unassigned'.value;
    } else {
      OpenRunEvent(es, k, runs, current.value, unassigned, name);
      joined := current.value;
      runs' := Continued(runs, joined, e.id, Closes(e));
      if Closes(e) { current' := None; }
    }
  }

  /** The inference over the events in order. */
  method InferLegacyRuns(events: seq<LegacyEvent>, name: (nat, bool) -> Id)
      returns (runs: seq<LegacyRun>, assignments: map<Id, (Id, nat)>)
    ensures var es := SortBy(events, EventOrder);
      runs == InferredRuns(es, name) && assignments == Placed(es, |es|, name)
  {
    var es := SortBy(events, EventOrder);
    runs, assignments := [], map[];
    var current: Option<nat>, unassigned: Option<nat> := None, None;
    for k := 0 to |es|
      invariant Inferring(es, k, runs, current, unassigned, name) && assignments == Placed(es, k, name)
    {
      var joined;
      runs, current, unassigned, joined := InferEvent(es, k, runs, current, unassigned, name);
      PlacedStep(es, k, joined, name);
      JoinedRow(es, k, joined, name);
      assignments := assignments[es[k].id := (runs[joined].runId, |runs[joined].events|)];
    }
    StreamEnds(es, runs, current, unassigned, name);
    runs := Interrupt(runs, current);
  }
}
