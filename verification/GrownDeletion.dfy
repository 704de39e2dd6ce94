/** Growth and deletion together: in every grown store a deletion is refused only for its root, its limits, or a
    recorded conflict, which stands in its way for good. */
module GrownDeletion {
  import opened Basics
  import opened Messages
  import opened Records
  import opened Closure
  import opened Cycles
  import opened DeletionPlan
  import opened Provenance
  import opened ProvenanceLaws

  /** No record of the set has a live recorded conflict. */
  ghost predicate ConflictFree(relations: Relations, s: set<Id>) {
    forall r :: r in relations && relations[r].live && relations[r].kind.ConflictsWith? ==>
      relations[r].source !in s && relations[r].target !in s
  }

  lemma GrownIsAcyclic(l: Library, closure: set<Id>)
    requires Grown(l) && ConflictFree(l.relations, closure)
    ensures !Cyclic(AdjacencyOf(l.relations, closure))
  {
    var adjacency := AdjacencyOf(l.relations, closure);
    var rank: map<Id, int> := map x | x in l.births :: l.clock - l.births[x];
    forall a, b | b in Children(adjacency, a) ensures a in rank && b in rank && rank[b] < rank[a] {
      var r :| r in LiveInto(l.relations, closure) && l.relations[r].target == a && l.relations[r].source == b;
      assert Older(l.births, a, b);
    }
    RankedIsAcyclic(adjacency, rank);
  }

  /** Every record of a grown store has its provenance in order. */
  lemma GrownIsProven(l: Library, id: Id)
    requires Grown(l) && id in l.memories
    ensures ProvenanceOk(l.memories, l.relations, id)
  {
    var m := l.memories[id];
    assert TargetsMatch(l.relations, id, KindOf(m), m.refs);
    forall x | x in m.refs ensures LiveRow(l.memories, x) {
      assert x in TargetsOf(l.relations, id, KindOf(m));
    }
  }

  lemma GrownHasNoGaps(l: Library, direct: set<Id>)
    requires Grown(l) && direct <= l.memories.Keys
    ensures DerivedPresent(l.memories, l.relations, direct)
  {
    assert Closed(l.relations, l.memories.Keys);
    ClosureIsLeast(l.relations, direct);
  }

  /** A recorded conflict makes a cycle in every closure it touches. */
  lemma ConflictIsCyclic(l: Library, t: Tables, root: Root, limits: Limits)
    requires Grown(l) && t.relations == l.relations && !ConflictFree(t.relations, DeletionClosure(t, root))
    ensures !PlanOk(t, root, limits)
  {
    var closure := DeletionClosure(t, root);
    var r :| r in t.relations && t.relations[r].live && t.relations[r].kind.ConflictsWith?
      && (t.relations[r].source in closure || t.relations[r].target in closure);
    assert Opposed(t.relations, t.relations[r].target, t.relations[r].source);
    var q :| q in t.relations && t.relations[q].kind.ConflictsWith? && t.relations[q].source == t.relations[r].target
      && t.relations[q].target == t.relations[r].source;
    if t.relations[r].target in closure {
      MutualRelationsBlockDeletion(t, root, limits, r, q);
    } else {
      MutualRelationsBlockDeletion(t, root, limits, q, r);
    }
  }

  /** In every store that steps can reach, a deletion is planned exactly when its root is there, the limits hold, and no
      record of its closure has a recorded conflict. */
  lemma ReachableDeletionsArePlanned(h: seq<Library>, actions: seq<Action>, k: nat, t: Tables, root: Root,
      limits: Limits)
    requires Growth(h, actions) && k < |h| && t.memories == h[k].memories && t.relations == h[k].relations
    ensures PlanOk(t, root, limits)
      <==> RootOk(t, root) && WithinLimits(t.relations, Direct(t, root), limits.depth, limits.nodes)
           && ConflictFree(t.relations, DeletionClosure(t, root))
  {
    EveryGrowthIsGrown(h, actions, k);
    if ConflictFree(t.relations, DeletionClosure(t, root)) {
      GrownIsAcyclic(h[k], DeletionClosure(t, root));
    } else {
      ConflictIsCyclic(h[k], t, root, limits);
    }
    GrownHasNoGaps(h[k], Direct(t, root));
    forall id | id in DeletionClosure(t, root) && id in t.memories ensures ProvenanceOk(t.memories, t.relations, id) {
      GrownIsProven(h[k], id);
    }
  }

  /** Two live relations in opposite directions, such as a conflict recorded from both sides, stop every deletion whose
      closure reaches them. */
  lemma MutualRelationsBlockDeletion(t: Tables, root: Root, limits: Limits, r: Id, q: Id)
    requires r in t.relations && q in t.relations && t.relations[r].live && t.relations[q].live
    requires t.relations[r].source == t.relations[q].target && t.relations[r].target == t.relations[q].source
    requires t.relations[r].target in DeletionClosure(t, root)
    ensures Cyclic(AdjacencyOf(t.relations, DeletionClosure(t, root))) && !PlanOk(t, root, limits)
  {
    var closure := DeletionClosure(t, root);
    ClosureIsLeast(t.relations, Direct(t, root));
    var a, b := t.relations[r].target, t.relations[r].source;
    var adjacency := AdjacencyOf(t.relations, closure);
    assert r in LiveInto(t.relations, closure) && q in LiveInto(t.relations, closure);
    assert b in Children(adjacency, a) && a in Children(adjacency, b);
    assert Loop(adjacency, [a, b, a]);
  }

  // ----- Promotions -----

  predicate SamePromotion(m: Memory, n: Memory) {
    m.origin.NotePromotion? && n.origin.NotePromotion? && m.refs == n.refs && m.scope == n.scope
  }

  /** A note has at most one promotion to each scope. */
  ghost predicate PromotedOnce(memories: Memories) {
    forall x, y :: x in memories && y in memories && SamePromotion(memories[x], memories[y]) ==> x == y
  }

  lemma RestatedKeepsPromotedOnce(before: Memories, now: Memories)
    requires PromotedOnce(before) && Restated(before, now)
    ensures PromotedOnce(now)
  {
    forall x, y | x in now && y in now && SamePromotion(now[x], now[y]) ensures x == y {
      assert SameRecord(before[x], now[x]) && SameRecord(before[y], now[y]);
      assert SamePromotion(before[x], before[y]);
    }
  }

  lemma AddingKeepsPromotedOnce(before: Memories, id: Id, m: Memory)
    requires PromotedOnce(before) && id !in before
    requires forall y :: y in before ==> !SamePromotion(m, before[y])
    ensures PromotedOnce(before[id := m])
  {
  }

  /** Promoting a note that has no promotion to the scope adds the first one. */
  lemma PromoteAddsFirst(l: Library, note: Id, target: Scope, y: Id)
    requires Grown(l) && note in l.memories && y in l.memories && Promotions(l, note, target) == {}
    ensures !SamePromotion(PromotedRow(l.memories[note], note, target), l.memories[y])
  {
    if SamePromotion(PromotedRow(l.memories[note], note, target), l.memories[y]) { PromotedBefore(l, note, y); }
  }

  /** A stored promotion of a note is among its promotions. */
  lemma PromotedBefore(l: Library, note: Id, y: Id)
    requires Grown(l) && y in l.memories && l.memories[y].origin.NotePromotion? && l.memories[y].refs == [note]
    ensures y in Promotions(l, note, l.memories[y].scope)
  {
    assert TargetsMatch(l.relations, y, PromotedFrom, [note]);
    assert note in [note];
    assert note in TargetsOf(l.relations, y, PromotedFrom);
  }

  lemma StatusStepIsRestated(l: Library, a: Action)
    requires Allowed(l, a) && Minted(l, a)
    requires a.RecordConflict? || a.Confirm? || a.Retract? || a.Reject? || AlreadyDone(l, a)
    ensures Restated(l.memories, Done(l, a).memories)
  {
  }

  /** The record a storing step adds. */
  ghost function AddedRow(l: Library, a: Action): Memory
    requires Allowed(l, a) && Minted(l, a) && (a.Record? || a.AddNote? || a.ProposeRevision? || a.Summarize?)
  {
    match a
    case AddNote(id, thread, content, floor, refs, _, revision, former, _, _) =>
      NoteRow(l, thread, content, floor, refs, if former.Some? then NextRevision(l, former) else revision)
    case ProposeRevision(id, thread, content, floor, refs, related, _, _) => NoteRow(l, thread, content, floor, refs,
      NextRevision(l, Some(related)))
    case Summarize(id, thread, content, floor, refs, previous, _) => SummaryRow(l, thread, content, floor, refs,
      NextRevision(l, previous))
    case Record(_, thread, run, content, classification) =>
      Memory(ThreadScope, Some(thread), Some(run), Transcript, content, [], classification, false, Active, false,
        NotIndexed, 1, 1)
  }

  lemma StoringStepAdds(l: Library, a: Action)
    requires Allowed(l, a) && Minted(l, a) && (a.Record? || a.AddNote? || a.ProposeRevision? || a.Summarize?)
    ensures a.id !in l.memories && !AddedRow(l, a).origin.NotePromotion?
    ensures Restated(l.memories[a.id := AddedRow(l, a)], Done(l, a).memories)
  {
    match a
    case AddNote(_, _, _, _, _, _, _, former, _, _) => ReplacedIsRestated(l.memories[a.id := AddedRow(l, a)],
      AsList(former));
    case Summarize(_, _, _, _, _, previous, _) => ReplacedIsRestated(l.memories[a.id := AddedRow(l, a)],
      AsList(previous));
    case _ =>
  }

  lemma StepKeepsPromotedOnce(l: Library, a: Action)
    requires Grown(l) && PromotedOnce(l.memories) && Allowed(l, a) && Minted(l, a)
    ensures PromotedOnce(Done(l, a).memories)
  {
    if a.RecordConflict? || a.Confirm? || a.Retract? || a.Reject? || AlreadyDone(l, a) {
      StatusStepIsRestated(l, a);
      RestatedKeepsPromotedOnce(l.memories, Done(l, a).memories);
    } else if a.Promote? {
      forall y | y in l.memories
          ensures !SamePromotion(PromotedRow(l.memories[a.note], a.note, a.target), l.memories[y]) {
        PromoteAddsFirst(l, a.note, a.target, y);
      }
      AddingKeepsPromotedOnce(l.memories, a.id, PromotedRow(l.memories[a.note], a.note, a.target));
    } else {
      StoringStepAdds(l, a);
      AddingKeepsPromotedOnce(l.memories, a.id, AddedRow(l, a));
      RestatedKeepsPromotedOnce(l.memories[a.id := AddedRow(l, a)], Done(l, a).memories);
    }
  }

  lemma {:induction false} EveryNoteIsPromotedOnce(h: seq<Library>, actions: seq<Action>, k: nat)
    requires Growth(h, actions) && k < |h|
    ensures PromotedOnce(h[k].memories)
    decreases k
  {
    if k > 0 {
      EveryNoteIsPromotedOnce(h, actions, k - 1);
      EveryGrowthIsGrown(h, actions, k - 1);
      StepKeepsPromotedOnce(h[k - 1], actions[k - 1]);
    }
  }
}
