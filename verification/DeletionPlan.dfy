/** The deletion plan (`_plan` in `secminiagent/memory/cascade_delete.py`): the records a run or thread owns, everything
    made from them, and the checks that make the plan safe to carry out. */
module DeletionPlan {
  import opened Basics
  import opened Messages
  import opened Records
  import opened Closure
  import opened Cycles

  datatype ThreadRow = ThreadRow(active: bool, deleted: bool)

  datatype RunRow = RunRow(thread: Id, deleted: bool)

  datatype Tables = Tables(memories: Memories, relations: Relations, threads: map<Id, ThreadRow>, runs: map<Id, RunRow>)

  datatype Root = RunRoot(thread: Id, run: Id) | ThreadRoot(thread: Id)

  datatype Limits = Limits(depth: int, nodes: int)

  datatype Plan = Plan(direct: set<Id>, derived: set<Id>, runs: set<Id>, relations: set<Id>, promoted: set<Id>)

  datatype PlanError =
    | RootNotFound | ThreadNotActive | ClosureLimitExceeded | DerivedRecordMissing | ProvenanceCycle | ProvenanceInvalid

  datatype PlanOutcome = Planned(plan: Plan) | Refused(error: PlanError)

  // ----- The root -----

  /** The root and its ancestors are stored, not deleted, and the thread is active. */
  predicate RootFound(t: Tables, root: Root) {
    && root.thread in t.threads && !t.threads[root.thread].deleted
    && (root.RunRoot? ==> root.run in t.runs && t.runs[root.run].thread == root.thread && !t.runs[root.run].deleted)
  }

  predicate RootOk(t: Tables, root: Root) {
    RootFound(t, root) && t.threads[root.thread].active
  }

  predicate Owns(root: Root, m: Memory) {
    m.thread == Some(root.thread) && (root.RunRoot? ==> m.run == Some(root.run))
  }

  /** The live records the root owns. */
  function Direct(t: Tables, root: Root): set<Id> {
    set id | id in t.memories && !t.memories[id].deleted && Owns(root, t.memories[id])
  }

  function AffectedRuns(t: Tables, root: Root): set<Id> {
    match root
    case RunRoot(_, run) => {run}
    case ThreadRoot(thread) => set r | r in t.runs && t.runs[r].thread == thread && !t.runs[r].deleted
  }

  // ----- Provenance -----

  /** The records a record was made from, by live relations of one kind. */
  function TargetsOf(relations: Relations, id: Id, kind: RelationKind): set<Id> {
    set r | r in relations && relations[r].live && relations[r].source == id && relations[r].kind == kind ::
      relations[r].target
  }

  predicate Distinct(ids: seq<Id>) {
    forall i, j :: 0 <= i < j < |ids| ==> ids[i] != ids[j]
  }

  /** The payload's source ids and the relation rows list the same records. The unique index keeps one row for each
      target, so a payload that repeats an id can never match. */
  predicate TargetsMatch(relations: Relations, id: Id, kind: RelationKind, refs: seq<Id>) {
    Distinct(refs) && (set x | x in refs) == TargetsOf(relations, id, kind)
  }

  function NoteKind(m: Memory): RelationKind {
    if m.origin.NotePromotion? then PromotedFrom else DerivedFrom
  }

  /** A note matches its relations and every source is still there; a summary matches its relations. */
  predicate ProvenanceOk(memories: Memories, relations: Relations, id: Id)
    requires id in memories
  {
    var m := memories[id];
    if IsNote(m)
        then TargetsMatch(relations, id, NoteKind(m), m.refs) && forall x :: x in m.refs ==> LiveRow(memories, x)
    else if m.origin.RollingSummary? then TargetsMatch(relations, id, Summarizes, m.refs)
    else true
  }

  // ----- The plan -----

  /** The records made from each record of the closure. */
  function AdjacencyOf(relations: Relations, closure: set<Id>): map<Id, set<Id>> {
    map n | n in closure :: MadeFrom(relations, LiveInto(relations, closure), n)
  }

  function PromotedIn(memories: Memories, derived: set<Id>): set<Id> {
    set id | id in derived && id in memories && memories[id].scope.WorkspaceScope? && memories[id].origin.NotePromotion?
  }

  ghost function DeletionClosure(t: Tables, root: Root): set<Id> {
    ClosureOf(t.relations, Direct(t, root))
  }

  ghost predicate AllProvenanceOk(t: Tables, root: Root) {
    forall id :: id in DeletionClosure(t, root) && id in t.memories ==> ProvenanceOk(t.memories, t.relations, id)
  }

  /** Everything a plan needs to succeed. */
  ghost predicate PlanOk(t: Tables, root: Root, limits: Limits) {
    && RootOk(t, root)
    && WithinLimits(t.relations, Direct(t, root), limits.depth, limits.nodes)
    && DerivedPresent(t.memories, t.relations, Direct(t, root))
    && !Cyclic(AdjacencyOf(t.relations, DeletionClosure(t, root)))
    && AllProvenanceOk(t, root)
  }

  ghost function PlanOf(t: Tables, root: Root): Plan {
    var direct, closure := Direct(t, root), DeletionClosure(t, root);
    Plan(direct, closure - direct, AffectedRuns(t, root), LiveInto(t.relations, closure),
      PromotedIn(t.memories, closure - direct))
  }

  /** What a plan names, record by record: as direct, the live records of the root; as runs, the live runs of the root
      thread, or the root run alone; as promoted, the derived workspace copies of notes; as relations, the live ones
      into the closure. */
  lemma PlanNames(t: Tables, root: Root, limits: Limits)
    requires PlanOk(t, root, limits)
    ensures forall id :: id in PlanOf(t, root).direct <==>
      id in t.memories && !t.memories[id].deleted && t.memories[id].thread == Some(root.thread)
        && (root.RunRoot? ==> t.memories[id].run == Some(root.run))
    ensures forall r :: r in PlanOf(t, root).runs <==>
      r in t.runs && !t.runs[r].deleted && t.runs[r].thread == root.thread && (root.RunRoot? ==> r == root.run)
    ensures forall id :: id in PlanOf(t, root).promoted <==>
      id in PlanOf(t, root).derived && t.memories[id].scope == WorkspaceScope && t.memories[id].origin == NotePromotion
    ensures forall r :: r in PlanOf(t, root).relations <==>
      r in t.relations && t.relations[r].live
        && (t.relations[r].target in PlanOf(t, root).direct || t.relations[r].target in PlanOf(t, root).derived)
    ensures forall id :: id in PlanOf(t, root).derived ==> id in t.memories && id !in PlanOf(t, root).direct
  {
    ClosureIsLeast(t.relations, Direct(t, root));
  }

  /** Provenance is in order exactly when a note or summary names each source once, its live relations lead to just
      these sources, and, for a note, every source is still there. */
  lemma ProvenanceMeans(memories: Memories, relations: Relations, id: Id)
    requires id in memories
    ensures ProvenanceOk(memories, relations, id)
       <==> var m := memories[id];
            var note := m.origin in {StructuredNote, NotePromotion, IndependentRetention};
            note || m.origin == RollingSummary ==>
              && (forall i, j :: 0 <= i < j < |m.refs| ==> m.refs[i] != m.refs[j])
              && (forall x :: x in m.refs <==> LeadsTo(relations, id, x, match m.origin
                                                 case NotePromotion => PromotedFrom
                                                 case RollingSummary => Summarizes
                                                 case _ => DerivedFrom))
              && (note ==> forall x :: x in m.refs ==> x in memories && !memories[x].deleted)
  {
    var m := memories[id];
    var kind :=
      match m.origin case NotePromotion => PromotedFrom case RollingSummary => Summarizes case _ => DerivedFrom;
    forall x ensures x in TargetsOf(relations, id, kind) <==> LeadsTo(relations, id, x, kind) { }
    assert forall x :: x in m.refs <==> x in set y | y in m.refs;
  }

  /** A live relation of this kind leads from `a` to `b`. */
  predicate LeadsTo(relations: Relations, a: Id, b: Id, kind: RelationKind) {
    exists r ::
      r in relations && relations[r].live && relations[r].source == a && relations[r].target == b
        && relations[r].kind == kind
  }

  lemma SameChildrenSameCycles(a: map<Id, set<Id>>, b: map<Id, set<Id>>)
    requires forall n :: Children(a, n) == Children(b, n)
    ensures Cyclic(a) <==> Cyclic(b)
  {
    forall p: seq<Id> ensures Loop(a, p) <==> Loop(b, p) { }
  }

  /** The recorded adjacency is the closure's. */
  lemma RecordedAdjacency(t: Tables, root: Root, f: Found)
    requires f.closure == DeletionClosure(t, root) && Recorded(t.relations, Direct(t, root), f.closure, f)
    ensures forall n :: Children(f.adjacency, n) == Children(AdjacencyOf(t.relations, f.closure), n)
    ensures forall n :: n in f.closure ==> Children(f.adjacency, n) <= f.closure
    ensures forall n :: Children(f.adjacency, n) != {} ==> n in f.closure
  {
    ClosureIsLeast(t.relations, Direct(t, root));
    forall n | n !in f.closure ensures MadeFrom(t.relations, f.relationIds, n) == {} { }
  }

  method CheckProvenance(t: Tables, closure: set<Id>) returns (ok: bool)
    ensures ok <==> forall id :: id in closure && id in t.memories ==> ProvenanceOk(t.memories, t.relations, id)
  {
    var todo := closure;
    while todo != {}
      invariant todo <= closure
      invariant forall id :: id in closure - todo && id in t.memories ==> ProvenanceOk(t.memories, t.relations, id)
      decreases todo
    {
      var id :| id in todo;
      if id in t.memories && !ProvenanceOk(t.memories, t.relations, id) { return false; }
      todo := todo - {id};
    }
    ok := true;
  }

  /** Plans a deletion: it succeeds exactly when nothing stands in the way, and then names exactly the closure. */
  method MakePlan(t: Tables, root: Root, limits: Limits) returns (r: PlanOutcome)
    ensures r.Planned? <==> PlanOk(t, root, limits)
    ensures r.Planned? ==> r.plan == PlanOf(t, root)
    ensures r == Refused(RootNotFound) <==>
      root.thread !in t.threads || t.threads[root.thread].deleted || (root.RunRoot? && (root.run !in t.runs
        || t.runs[root.run].thread != root.thread || t.runs[root.run].deleted))
    ensures r == Refused(ThreadNotActive) ==> root.thread in t.threads && !t.threads[root.thread].active
    ensures r.Planned? ==> root.thread in t.threads && t.threads[root.thread].active
    ensures r == Refused(ProvenanceCycle) ==> Cyclic(AdjacencyOf(t.relations, DeletionClosure(t, root)))
    ensures r == Refused(ClosureLimitExceeded) ==>
      !WithinLimits(t.relations, Direct(t, root), limits.depth, limits.nodes)
    ensures r == Refused(DerivedRecordMissing) ==> !DerivedPresent(t.memories, t.relations, Direct(t, root))
    ensures r == Refused(ProvenanceInvalid) ==> !AllProvenanceOk(t, root)
  {
    if !RootFound(t, root) { return Refused(RootNotFound); }
    if !t.threads[root.thread].active { return Refused(ThreadNotActive); }
    var direct := Direct(t, root);
    var search := CollectClosure(t.memories, t.relations, direct, limits.depth, limits.nodes);
    match search {
      case LimitExceeded => return Refused(ClosureLimitExceeded);
      case DerivedMissing => return Refused(DerivedRecordMissing);
      case Collected(f) =>
        RecordedAdjacency(t, root, f);
        SameChildrenSameCycles(f.adjacency, AdjacencyOf(t.relations, f.closure));
        var check := new CycleCheck(f.adjacency, f.closure);
        var acyclic := check.VisitAll(f.closure);
        if !acyclic { return Refused(ProvenanceCycle); }
        var provenanceOk := CheckProvenance(t, f.closure);
        if !provenanceOk { return Refused(ProvenanceInvalid); }
        r := Planned(Plan(direct, f.derived, AffectedRuns(t, root), f.relationIds, PromotedIn(t.memories, f.derived)));
    }
  }
}
