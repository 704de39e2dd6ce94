/** What run inference promises: a partition of the events into runs, each inferred run one block from its user event
    to its answer, and at most one run for the rest. */
module LegacyLaws {
  import opened Basics
  import opened Messages
  import opened Sorting
  import opened Threads
  import opened LegacyRuns

  ghost predicate DistinctIds(es: seq<LegacyEvent>) {
    forall i, j :: 0 <= i < j < |es| ==> es[i].id != es[j].id
  }

  /** The position of an event in its run, from 1. */
  function PositionOf(es: seq<LegacyEvent>, j: nat): nat
    requires j < |es|
  {
    |EventsOf(es, j + 1, BlockOf(es, j))|
  }

  lemma {:induction false} EventsGrow(es: seq<LegacyEvent>, k: nat, m: nat, b: Option<nat>)
    requires k <= m <= |es|
    ensures |EventsOf(es, k, b)| <= |EventsOf(es, m, b)|
    ensures EventsOf(es, m, b)[..|EventsOf(es, k, b)|] == EventsOf(es, k, b)
    decreases m
  {
    if k < m { EventsGrow(es, k, m - 1, b); }
  }

  lemma {:induction false} BlocksExtend(es: seq<LegacyEvent>, k: nat, m: nat)
    requires k <= m <= |es|
    ensures |Blocks(es, k)| <= |Blocks(es, m)| && Blocks(es, m)[..|Blocks(es, k)|] == Blocks(es, k)
    decreases m
  {
    if k < m { BlocksExtend(es, k, m - 1); }
  }

  lemma {:induction false} EventInRun(es: seq<LegacyEvent>, k: nat, j: nat)
    requires j < k <= |es|
    ensures 1 <= PositionOf(es, j) <= |EventsOf(es, k, BlockOf(es, j))|
    ensures EventsOf(es, k, BlockOf(es, j))[PositionOf(es, j) - 1] == es[j].id
  {
    EventsGrow(es, j + 1, k, BlockOf(es, j));
    var first := EventsOf(es, j + 1, BlockOf(es, j));
    assert first[|first| - 1] == es[j].id;
  }

  /** Every place in a run holds one event of the stream. */
  lemma {:induction false} PlaceHasEvent(es: seq<LegacyEvent>, k: nat, b: Option<nat>, p: nat) returns (j: nat)
    requires k <= |es| && p < |EventsOf(es, k, b)|
    ensures j < k && BlockOf(es, j) == b && PositionOf(es, j) == p + 1 && EventsOf(es, k, b)[p] == es[j].id
    decreases k
  {
    if p < |EventsOf(es, k - 1, b)| {
      j := PlaceHasEvent(es, k - 1, b, p);
    } else {
      j := k - 1;
    }
  }

  lemma {:induction false} PlacedAt(es: seq<LegacyEvent>, k: nat, j: nat, i: nat, name: (nat, bool) -> Id)
    requires DistinctIds(es) && j < k <= |es| && i < |Blocks(es, k)| && Blocks(es, k)[i] == BlockOf(es, j)
    ensures es[j].id in Placed(es, k, name)
    ensures Placed(es, k, name)[es[j].id] == (name(i + 1, BlockOf(es, j).None?), PositionOf(es, j))
    decreases k
  {
    IndexIsUnique(es, k, i);
    if j < k - 1 {
      BlocksHold(es, k - 1, j);
      BlocksExtend(es, k - 1, k);
      IndexIsUnique(es, k, IndexOf(Blocks(es, k - 1), BlockOf(es, j)));
      PlacedAt(es, k - 1, j, i, name);
    }
  }

  /** Every event is assigned to a run, at its position there. */
  lemma {:induction false} EveryEventIsPlaced(es: seq<LegacyEvent>, j: nat, name: (nat, bool) -> Id) returns (i: nat)
    requires DistinctIds(es) && j < |es|
    ensures i < |InferredRuns(es, name)|
    ensures var run := InferredRuns(es, name)[i];
            && es[j].id in Placed(es, |es|, name) && Placed(es, |es|, name)[es[j].id] == (run.runId, PositionOf(es, j))
            && 1 <= PositionOf(es, j) <= |run.events| && run.events[PositionOf(es, j) - 1] == es[j].id
    ensures Blocks(es, |es|)[i] == BlockOf(es, j)
  {
    BlocksHold(es, |es|, j);
    i := IndexOf(Blocks(es, |es|), BlockOf(es, j));
    PlacedAt(es, |es|, j, i, name);
    EventInRun(es, |es|, j);
  }

  /** No event has two places. */
  lemma {:induction false} NoEventTwice(es: seq<LegacyEvent>, name: (nat, bool) -> Id, i: nat, p: nat, i': nat, p': nat)
    requires DistinctIds(es) && i < |InferredRuns(es, name)| && i' < |InferredRuns(es, name)|
    requires p < |InferredRuns(es, name)[i].events| && p' < |InferredRuns(es, name)[i'].events|
    requires InferredRuns(es, name)[i].events[p] == InferredRuns(es, name)[i'].events[p']
    ensures i == i' && p == p'
  {
    var j := PlaceHasEvent(es, |es|, Blocks(es, |es|)[i], p);
    var j' := PlaceHasEvent(es, |es|, Blocks(es, |es|)[i'], p');
    assert j == j';
    BlocksDistinct(es, |es|);
  }

  // ----- The shape of a run -----

  function IdsIn(es: seq<LegacyEvent>, s: nat, e: nat): seq<Id>
    requires s <= e <= |es|
  {
    seq<Id>(e - s, i requires 0 <= i < e - s => es[s + i].id)
  }

  /** Events from a user event up to one of its block all belong to the block, and none of them opens or answers
      before. */
  lemma {:induction false} BlockIsContiguous(es: seq<LegacyEvent>, s: nat, j: nat, m: nat)
    requires j < |es| && BlockOf(es, j) == Some(s) && s <= m <= j
    ensures BlockOf(es, m) == Some(s) && (m > s ==> !Opens(es[m])) && (m < j ==> !Closes(es[m]))
  {
    BlockStartsBefore(es, j, s);
    if s < j {
      OpenMeansUnanswered(es, j, s);
      if m > s { OpenMeansUnanswered(es, m, s); }
    }
  }

  lemma {:induction false} BlockEvents(es: seq<LegacyEvent>, k: nat, s: nat)
    requires k <= |es| && AfterLast(es, k, Some(s)) > 0
    ensures s < AfterLast(es, k, Some(s))
    ensures EventsOf(es, k, Some(s)) == IdsIn(es, s, AfterLast(es, k, Some(s)))
    decreases k
  {
    var j := AfterLast(es, k, Some(s)) - 1;
    BlockStartsBefore(es, j, s);
    if j < k - 1 {
      BlockEvents(es, k - 1, s);
    } else if s < j {
      BlockIsContiguous(es, s, j, j - 1);
      BlockEvents(es, k - 1, s);
    } else {
      EarlierBlocks(es, j, s);
    }
  }

  /** A block has no event before its user event. */
  lemma {:induction false} EarlierBlocks(es: seq<LegacyEvent>, k: nat, s: nat)
    requires k <= s < |es|
    ensures EventsOf(es, k, Some(s)) == [] && AfterLast(es, k, Some(s)) == 0
    decreases k
  {
    if k > 0 {
      EarlierBlocks(es, k - 1, s);
      if BlockOf(es, k - 1) == Some(s) { BlockStartsBefore(es, k - 1, s); }
    }
  }

  /** An inferred run is one block: its only user event comes first and is its input, and it is completed exactly when
      its last event is an assistant message without tool calls, which is then its final message. */
  lemma {:induction false} InferredRunIsOneBlock(es: seq<LegacyEvent>, name: (nat, bool) -> Id, i: nat)
      returns (s: nat, e: nat)
    requires i < |InferredRuns(es, name)| && !InferredRuns(es, name)[i].unassigned
    ensures s < e <= |es| && InferredRuns(es, name)[i].events == IdsIn(es, s, e)
    ensures es[s].role == Some(User) && (forall m :: s < m < e ==> es[m].role != Some(User))
      && forall m :: s <= m < e - 1 ==> es[m].role != Some(Assistant) || es[m].calls
    ensures InferredRuns(es, name)[i].input == Some(es[s].id)
    ensures InferredRuns(es, name)[i].status == if es[e - 1].role == Some(Assistant) && !es[e - 1].calls
      then Completed else Interrupted
    ensures InferredRuns(es, name)[i].final == if es[e - 1].role == Some(Assistant) && !es[e - 1].calls
      then Some(es[e - 1].id) else None
    ensures e < |es| ==> (es[e - 1].role == Some(Assistant) && !es[e - 1].calls) || es[e].role == Some(User)
  {
    s := Blocks(es, |es|)[i].value;
    BlocksDistinct(es, |es|);
    LastIsThere(es, |es|, s);
    e := AfterLast(es, |es|, Some(s));
    BlockEvents(es, |es|, s);
    forall m | s < m < e ensures !Opens(es[m]) { BlockIsContiguous(es, s, e - 1, m); }
    forall m | s <= m < e - 1 ensures !Closes(es[m]) { BlockIsContiguous(es, s, e - 1, m); }
    if e < |es| { NextLeaves(es, s, e); }
  }

  lemma {:induction false} LastIsThere(es: seq<LegacyEvent>, k: nat, s: nat)
    requires s < k <= |es| && Opens(es[s])
    ensures AfterLast(es, k, Some(s)) > s
    decreases k
  {
    if BlockOf(es, k - 1) != Some(s) { LastIsThere(es, k - 1, s); }
  }

  /** A block ends only at an answer or at the next user event. */
  lemma {:induction false} NextLeaves(es: seq<LegacyEvent>, s: nat, e: nat)
    requires s < e < |es| && AfterLast(es, |es|, Some(s)) == e
    ensures Closes(es[e - 1]) || Opens(es[e])
  {
    AfterLastIsLast(es, |es|, s, e);
  }

  lemma {:induction false} AfterLastIsLast(es: seq<LegacyEvent>, k: nat, s: nat, j: nat)
    requires j < k <= |es| && AfterLast(es, k, Some(s)) <= j
    ensures BlockOf(es, j) != Some(s)
    decreases k
  {
    if j < k - 1 { AfterLastIsLast(es, k - 1, s, j); }
  }

  /** The run for stray events, of which there is at most one, holds exactly the events no run was open for. */
  lemma {:induction false} StrayRunHoldsTheRest(es: seq<LegacyEvent>, name: (nat, bool) -> Id, i: nat, x: Id)
    requires i < |InferredRuns(es, name)| && InferredRuns(es, name)[i].unassigned
    ensures x in InferredRuns(es, name)[i].events
      <==> exists j: nat :: j < |es| && es[j].id == x && BlockOf(es, j).None?
    ensures forall q :: 0 <= q < |InferredRuns(es, name)| && InferredRuns(es, name)[q].unassigned ==> q == i
    ensures InferredRuns(es, name)[i].status.Interrupted?
  {
    BlocksDistinct(es, |es|);
    var events := InferredRuns(es, name)[i].events;
    if x in events {
      var p :| 0 <= p < |events| && events[p] == x;
      var j := PlaceHasEvent(es, |es|, None, p);
    }
    if j: nat :| j < |es| && es[j].id == x && BlockOf(es, j).None? {
      EventInRun(es, |es|, j);
    }
  }

  /** Runs are numbered 1 to n in the order of their first events, and none is left running. */
  lemma {:induction false} RunsAreNumbered(es: seq<LegacyEvent>, name: (nat, bool) -> Id, i: nat)
    requires i < |InferredRuns(es, name)|
    ensures InferredRuns(es, name)[i].no == i + 1
      && InferredRuns(es, name)[i].runId == name(i + 1, InferredRuns(es, name)[i].unassigned)
    ensures !InferredRuns(es, name)[i].status.Running? && InferredRuns(es, name)[i].events != []
  {
    FirstEvents(es, |es|, i);
  }

  lemma {:induction false} FirstEvents(es: seq<LegacyEvent>, k: nat, i: nat)
    requires k <= |es| && i < |Blocks(es, k)|
    ensures EventsOf(es, k, Blocks(es, k)[i]) != []
    decreases k
  {
    if i < |Blocks(es, k - 1)| { FirstEvents(es, k - 1, i); }
  }
}
