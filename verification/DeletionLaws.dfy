/** What a deletion job keeps over every run of calls, crashes and index failures, and what it leaves behind. */
module DeletionLaws {
  import opened Basics
  import opened Messages
  import opened Records
  import opened Closure
  import opened DeletionPlan
  import opened DeletionJob

  predicate Forward(a: Option<JobStatus>, b: Option<JobStatus>) {
    match (a, b)
    case (None, _) => true
    case (Some(Authorized), Some(_)) => true
    case (Some(IndexPending), Some(IndexPending)) => true
    case (Some(_), Some(Complete)) => true
    case _ => false
  }

  /** Every record of a plan is stored and not deleted. */
  lemma PlannedAreLive(t: Tables, s: Setting, items: map<Id, Item>, retained: set<Id>)
    requires ItemsPlanned(t, s, items, retained)
    ensures items.Keys == DeletionClosure(t, s.root)
    ensures forall id :: id in items ==> LiveRow(t.memories, id) && !items[id].committed && items[id].copy == None
    ensures forall id :: id in items ==> (items[id].action.DeleteRecord? <==> id in Direct(t, s.root))
    ensures forall id :: id in items ==> (items[id].action.RetainIndependent? <==> id in retained)
  {
    ClosureIsLeast(t.relations, Direct(t, s.root));
  }

  /** Copies are neither items nor stored before. */
  lemma CopiesAreFresh(t: Tables, s: Setting, items: map<Id, Item>, now: map<Id, Item>)
    requires FreshMint(s.mint, t.memories) && items.Keys <= t.memories.Keys
      && ItemsAfter(t.memories, items, s, items.Keys, now)
    requires forall id :: id in items ==> items[id].copy == None
    ensures CopiesIn(now) == CopyIds(t.memories, items, s, items.Keys)
    ensures CopiesIn(now) !! t.memories.Keys && CopiesIn(now) !! now.Keys
  {
  }

  lemma CommitFollows(d0: Deletion, s: Setting, retained: set<Id>, d: Deletion, d': Deletion)
    requires Initial(d0, s) && d.job == Some(Authorized) && Follows(d0, s, retained, d) && Commits(d, d', s)
    ensures Follows(d0, s, retained, d')
  {
    PlannedAreLive(d0.tables, s, d.items, retained);
    CopiesAreFresh(d0.tables, s, d.items, d'.items);
  }

  lemma SyncedMemories(
    memories: Memories, items: map<Id, Item>, s: Setting, copies: set<Id>, now: Memories, now': Memories)
    requires FreshMint(s.mint, memories) && copies == CopyIds(memories, items, s, items.Keys)
    requires MemoriesAfter(memories, items, s, items.Keys, now) && SameButCopies(now, now', copies)
    ensures MemoriesAfter(memories, items, s, items.Keys, now')
  {
    forall id | id in items && Copies(memories, items, id) && id in s.mint
      ensures s.mint[id] in now' && CopyOf(memories[id], s.hasIndex, now'[s.mint[id]])
    {
      SyncedCopy(memories[id], s.hasIndex, now[s.mint[id]], now'[s.mint[id]]);
    }
  }

  lemma SyncedCopy(m: Memory, hasIndex: bool, row: Memory, row': Memory)
    requires CopyOf(m, hasIndex, row) && (row' == row || RowMoves(row, row'))
    ensures CopyOf(m, hasIndex, row')
  {
  }

  lemma SyncFollows(d0: Deletion, s: Setting, retained: set<Id>, d: Deletion, d': Deletion)
    requires Initial(d0, s) && d.job == Some(IndexPending) && Follows(d0, s, retained, d) && Syncs(d, d', s)
    ensures Follows(d0, s, retained, d')
  {
    var items := PlannedItems(PlanOf(d0.tables, s.root), retained);
    PlannedAreLive(d0.tables, s, items, retained);
    CopiesAreFresh(d0.tables, s, items, d.items);
    SyncedMemories(d0.tables.memories, items, s, CopiesIn(d.items), d.tables.memories, d'.tables.memories);
  }

  lemma StepFollows(d0: Deletion, s: Setting, retained: set<Id>, d: Deletion, d': Deletion) returns (chosen: set<Id>)
    requires Initial(d0, s) && Follows(d0, s, retained, d) && Step(d, d', s)
    ensures Follows(d0, s, chosen, d') && Forward(d.job, d'.job) && (d.job.Some? ==> chosen == retained)
  {
    chosen := retained;
    if d' == d {
    } else if Commits(d, d', s) {
      CommitFollows(d0, s, retained, d, d');
    } else if Syncs(d, d', s) {
      SyncFollows(d0, s, retained, d, d');
    } else {
      chosen :| Creates(d, d', s, chosen);
    }
  }

  /** Over every run of calls, crashes and index failures: the job only moves forward, its items are chosen once, and
      the tables are those before the deletion until they are those of an uninterrupted one. */
  lemma {:induction false} EveryRunFollows(h: seq<Deletion>, s: Setting, k: nat) returns (retained: set<Id>)
    requires Run(h, s) && Initial(h[0], s) && k < |h|
    ensures Follows(h[0], s, retained, h[k])
    ensures forall j :: 0 <= j <= k ==> Forward(h[j].job, h[k].job)
    decreases k
  {
    if k == 0 {
      retained := {};
    } else {
      var before := EveryRunFollows(h, s, k - 1);
      assert Step(h[k - 1], h[k], s);
      retained := StepFollows(h[0], s, before, h[k - 1], h[k]);
      forall j | 0 <= j <= k ensures Forward(h[j].job, h[k].job) {
        if j < k { assert Forward(h[j].job, h[k - 1].job); }
      }
    }
  }

  // ----- What a deletion leaves -----

  /** A runs-or-thread root is gone once the deletion is carried out. */
  predicate RootGone(t: Tables, root: Root) {
    match root
    case RunRoot(_, run) => run in t.runs && t.runs[run].deleted
    case ThreadRoot(thread) =>
      && thread in t.threads && t.threads[thread].deleted && !t.threads[thread].active
      && forall r :: r in t.runs && t.runs[r].thread == thread ==> t.runs[r].deleted
  }

  lemma RootIsGone(d0: Deletion, s: Setting, retained: set<Id>, d: Deletion)
    requires Initial(d0, s) && Carried(d0, s, retained, d)
    ensures RootGone(d.tables, s.root) && !RootFound(d.tables, s.root)
    ensures d.tables.runs.Keys == d0.tables.runs.Keys
    ensures forall r :: r in d0.tables.runs && r in d.tables.runs ==>
      d.tables.runs[r].thread == d0.tables.runs[r].thread
        && (d0.tables.runs[r].thread != s.root.thread || (s.root.RunRoot? && r != s.root.run) ==>
          d.tables.runs[r] == d0.tables.runs[r])
    ensures d.tables.threads.Keys == d0.tables.threads.Keys
    ensures s.root.RunRoot? ==> d.tables.threads == d0.tables.threads
    ensures forall x :: x in d0.tables.threads && x != s.root.thread ==>
      x in d.tables.threads && d.tables.threads[x] == d0.tables.threads[x]
  {
  }

  /** The root owns the record: it is of the root thread and, for a run, of that run. */
  predicate OfRoot(m: Memory, root: Root) {
    m.thread == Some(root.thread) && (root.RunRoot? ==> m.run == Some(root.run))
  }

  /** Deletion marks go exactly to the root's own records that were neither deleted nor retracted before; each gets
      one, and keeps its content. */
  lemma RootRecordsAreDeleted(d0: Deletion, s: Setting, retained: set<Id>, d: Deletion, id: Id)
    requires Initial(d0, s) && Carried(d0, s, retained, d) && id in d0.tables.memories
    ensures id in d.tables.memories
    ensures var was, now := d0.tables.memories[id], d.tables.memories[id];
            now.deleted <==> was.deleted || (OfRoot(was, s.root) && was.status != Retracted && was.status != Deleted)
  {
    if id in DeletionClosure(d0.tables, s.root) {
      ClosureIsRevoked(d0, s, retained, d, id);
    } else {
      OthersAreKept(d0, s, retained, d, id);
      ClosureIsLeast(d0.tables.relations, Direct(d0.tables, s.root));
    }
  }

  /** What a record of the closure becomes: nothing else if it was retracted before; otherwise it takes its new status
      and a new version, the root's own get their deletion mark, and a workspace record leaves the index. */
  function RevokedRow(was: Memory, root: Root): Memory {
    if was.status == Retracted || was.status == Status.Deleted then was else
      was.(status := if OfRoot(was, root) then Status.Deleted else Retracted, deleted := OfRoot(was, root),
        version := was.version + 1, index := if was.scope == WorkspaceScope then PendingDelete else was.index)
  }

  lemma ClosureRow(d0: Deletion, s: Setting, retained: set<Id>, d: Deletion, id: Id)
    requires Initial(d0, s) && Carried(d0, s, retained, d) && id in DeletionClosure(d0.tables, s.root)
    ensures LiveRow(d0.tables.memories, id) && id in d.tables.memories
    ensures d.tables.memories[id] == RevokedRow(d0.tables.memories[id], s.root)
  {
    var items := PlannedItems(PlanOf(d0.tables, s.root), retained);
    PlannedAreLive(d0.tables, s, items, retained);
    assert id in items.Keys;
    assert d.tables.memories[id] == RowAfter(d0.tables.memories, items, items.Keys, id);
  }

  /** Every record of the closure is revoked. One the root owns gets its deletion mark unless it was retracted before:
      such a record keeps none. */
  lemma ClosureIsRevoked(d0: Deletion, s: Setting, retained: set<Id>, d: Deletion, id: Id)
    requires Initial(d0, s) && Carried(d0, s, retained, d) && id in DeletionClosure(d0.tables, s.root)
    ensures id in d0.tables.memories && id in d.tables.memories
    ensures d.tables.memories[id] == RevokedRow(d0.tables.memories[id], s.root)
    ensures d.tables.memories[id].status in {Status.Deleted, Retracted}
    ensures id in Direct(d0.tables, s.root) ==> (d.tables.memories[id].deleted <==> Revocable(d0.tables.memories[id]))
    ensures id !in Direct(d0.tables, s.root) ==> !d.tables.memories[id].deleted
    ensures d.tables.memories[id].content == d0.tables.memories[id].content
  {
    ClosureRow(d0, s, retained, d, id);
  }

  /** No live relation touches a record of the closure; every other relation is as before. */
  lemma RelationsAreCut(d0: Deletion, s: Setting, retained: set<Id>, d: Deletion, r: Id)
    requires Initial(d0, s) && Carried(d0, s, retained, d)
    ensures r in d.tables.relations <==> r in d0.tables.relations
    ensures r in d0.tables.relations ==>
      var was, c := d0.tables.relations[r], DeletionClosure(d0.tables, s.root);
      d.tables.relations[r] == was.(live := was.live && was.source !in c && was.target !in c)
  {
    PlannedAreLive(d0.tables, s, PlannedItems(PlanOf(d0.tables, s.root), retained), retained);
  }

  /** Records outside the closure are as before, and the only new records are the copies. */
  lemma OthersAreKept(d0: Deletion, s: Setting, retained: set<Id>, d: Deletion, id: Id)
    requires Initial(d0, s) && Carried(d0, s, retained, d) && id !in DeletionClosure(d0.tables, s.root)
    ensures id in d0.tables.memories ==> id in d.tables.memories && d.tables.memories[id] == d0.tables.memories[id]
    ensures id in d.tables.memories && id !in d0.tables.memories ==>
      exists x :: x in retained && x in s.mint && id == s.mint[x]
  {
    PlannedAreLive(d0.tables, s, PlannedItems(PlanOf(d0.tables, s.root), retained), retained);
  }

  /** A confirmed retention has one new record of its own, the same in content and without sources, exactly when the
      record was not retracted before. */
  lemma RetentionIsCopied(d0: Deletion, s: Setting, retained: set<Id>, d: Deletion, id: Id)
    requires Initial(d0, s) && Carried(d0, s, retained, d) && id in retained
    ensures id in d0.tables.memories && id in s.mint && s.mint[id] !in d0.tables.memories
    ensures s.mint[id] in d.tables.memories <==> Revocable(d0.tables.memories[id])
    ensures s.mint[id] in d.tables.memories ==>
      CopyOf(d0.tables.memories[id], s.hasIndex, d.tables.memories[s.mint[id]])
    ensures s.mint[id] in d.tables.memories ==>
      var was, copy := d0.tables.memories[id], d.tables.memories[s.mint[id]];
      && copy.content == was.content && copy.classification == was.classification && copy.refs == []
      && copy.scope == WorkspaceScope && copy.thread == None && copy.run == None && copy.origin == IndependentRetention
      && copy.status == Active && copy.confirmed && !copy.deleted && copy.revision == 1
      && (copy.index == NotIndexed <==> !s.hasIndex || was.classification == Secret)
    ensures d0.tables.memories[id].scope == WorkspaceScope && d0.tables.memories[id].origin == NotePromotion
      && id !in Direct(d0.tables, s.root)
    ensures forall other :: other in retained && other in s.mint && other != id ==> s.mint[other] != s.mint[id]
  {
    PlannedAreLive(d0.tables, s, PlannedItems(PlanOf(d0.tables, s.root), retained), retained);
  }

  /** The job's items are the closure; each says what was to be done and whether it was, and names the copy. */
  lemma ItemsTellOutcome(d0: Deletion, s: Setting, retained: set<Id>, d: Deletion, id: Id)
    requires Initial(d0, s) && Carried(d0, s, retained, d)
    ensures id in d.items <==> id in DeletionClosure(d0.tables, s.root)
    ensures id in d.items ==> id in d0.tables.memories && id in s.mint
    ensures id in d.items ==>
      var was, item := d0.tables.memories[id], d.items[id];
      var skipped := was.status == Retracted || was.status == Deleted;
      && item.action == (if OfRoot(was, s.root) then DeleteRecord else if id in retained then RetainIndependent
           else RetractRecord)
      && item.committed == !skipped && item.copy == if id in retained && !skipped then Some(s.mint[id]) else None
  {
    PlannedAreLive(d0.tables, s, PlannedItems(PlanOf(d0.tables, s.root), retained), retained);
  }

  lemma NoCopyHere(memories: Memories, items: map<Id, Item>, s: Setting, retained: set<Id>, id: Id)
    requires forall x :: x in items ==> (items[x].action.RetainIndependent? <==> x in retained)
    requires forall x :: x in retained && x in s.mint ==> id != s.mint[x]
    ensures id !in CopyIds(memories, items, s, items.Keys)
  {
  }

  lemma OnlyOthers(rows: map<Id, Item>, keys: set<Id>, before: set<Id>, now: set<Id>, id: Id)
    requires IndexKept(rows, before, now) && rows.Keys == keys && id !in keys && id !in CopiesIn(rows)
    ensures id in now <==> id in before
  {
    assert id !in rows;
  }

  /** The index gains only copies and loses only records of the closure. */
  lemma IndexOfOthersIsKept(d0: Deletion, s: Setting, retained: set<Id>, d: Deletion, id: Id)
    requires Initial(d0, s) && Carried(d0, s, retained, d) && id !in DeletionClosure(d0.tables, s.root)
    requires forall x :: x in retained && x in s.mint ==> id != s.mint[x]
    ensures id in d.index <==> id in d0.index
  {
    var items := PlannedItems(PlanOf(d0.tables, s.root), retained);
    PlannedAreLive(d0.tables, s, items, retained);
    var memories, planned := d0.tables.memories, PlanOf(d0.tables, s.root);
    assert ItemsAfter(memories, items, s, items.Keys, d.items);
    CopiesAreFresh(d0.tables, s, items, d.items);
    NoCopyHere(memories, items, s, retained, id);
    OnlyOthers(d.items, items.Keys, d0.index, d.index, id);
  }

  /** Nothing outside the closure loses a source: provenance that was in order stays in order. */
  lemma OthersStayProven(d0: Deletion, s: Setting, retained: set<Id>, d: Deletion, id: Id)
    requires Initial(d0, s) && Carried(d0, s, retained, d) && id in d0.tables.memories
      && id !in DeletionClosure(d0.tables, s.root)
    requires ProvenanceOk(d0.tables.memories, d0.tables.relations, id)
    ensures id in d.tables.memories && ProvenanceOk(d.tables.memories, d.tables.relations, id)
  {
    OthersAreKept(d0, s, retained, d, id);
    ClosureIsLeast(d0.tables.relations, Direct(d0.tables, s.root));
    SourcesOutside(d0, s, retained, d, id, NoteKind(d0.tables.memories[id]));
    SourcesOutside(d0, s, retained, d, id, Summarizes);
    forall x | x in d0.tables.memories && LiveRow(d0.tables.memories, x) && x !in DeletionClosure(d0.tables, s.root)
      ensures LiveRow(d.tables.memories, x)
    {
      OthersAreKept(d0, s, retained, d, x);
    }
  }

  lemma SourcesOutside(d0: Deletion, s: Setting, retained: set<Id>, d: Deletion, id: Id, kind: RelationKind)
    requires Initial(d0, s) && Carried(d0, s, retained, d) && id !in DeletionClosure(d0.tables, s.root)
    ensures TargetsOf(d.tables.relations, id, kind) == TargetsOf(d0.tables.relations, id, kind)
    ensures TargetsOf(d.tables.relations, id, kind) !! DeletionClosure(d0.tables, s.root)
  {
    var items := PlannedItems(PlanOf(d0.tables, s.root), retained);
    PlannedAreLive(d0.tables, s, items, retained);
    ClosureIsLeast(d0.tables.relations, Direct(d0.tables, s.root));
    CutKeepsOthers(d0.tables.relations, items, id, kind);
  }

  lemma CutKeepsOthers(relations: Relations, items: map<Id, Item>, id: Id, kind: RelationKind)
    requires Closed(relations, items.Keys) && id !in items
    ensures TargetsOf(relations, id, kind) !! items.Keys
    ensures TargetsOf(AppliedRelations(relations, items), id, kind) == TargetsOf(relations, id, kind)
  {
    var cut := AppliedRelations(relations, items);
    forall x | x in TargetsOf(relations, id, kind) ensures x in TargetsOf(cut, id, kind) && x !in items {
      var r :| r in relations && relations[r].live && relations[r].source == id && relations[r].kind == kind
        && relations[r].target == x;
      assert cut[r] == relations[r];
    }
    forall x | x in TargetsOf(cut, id, kind) ensures x in TargetsOf(relations, id, kind) {
      var r :| r in cut && cut[r].live && cut[r].source == id && cut[r].kind == kind && cut[r].target == x;
      assert cut[r] == relations[r];
    }
  }

  /** Two deletions carried out from the same tables with the same retentions agree on everything but the indexing of
      copies, however they were interrupted. */
  lemma OutcomeIsUnique(d0: Deletion, s: Setting, retained: set<Id>, a: Deletion, b: Deletion)
    requires Initial(d0, s) && Carried(d0, s, retained, a) && Carried(d0, s, retained, b)
    ensures a.items == b.items && a.tables.relations == b.tables.relations
    ensures a.tables.threads == b.tables.threads && a.tables.runs == b.tables.runs
    ensures a.tables.memories.Keys == b.tables.memories.Keys
    ensures forall id :: id in a.tables.memories && id in b.tables.memories ==>
      var m, n := a.tables.memories[id], b.tables.memories[id];
              m == n || (id !in d0.tables.memories && m == n.(index := m.index, version := m.version))
  {
    forall id | id in a.tables.memories ensures SameRow(d0, a, b, id) { SameRows(d0, s, retained, a, b, id); }
    SameItems(d0.tables.memories, PlannedItems(PlanOf(d0.tables, s.root), retained), s, a.items, b.items);
  }

  lemma SameItems(memories: Memories, items: map<Id, Item>, s: Setting, a: map<Id, Item>, b: map<Id, Item>)
    requires ItemsAfter(memories, items, s, items.Keys, a) && ItemsAfter(memories, items, s, items.Keys, b)
    ensures a == b
  {
    forall id | id in a ensures id in b && a[id] == b[id] { assert id in items.Keys; }
  }

  ghost predicate SameRow(d0: Deletion, a: Deletion, b: Deletion, id: Id)
    requires id in a.tables.memories
  {
    id in b.tables.memories && var m, n := a.tables.memories[id], b.tables.memories[id];
    m == n || (id !in d0.tables.memories && m == n.(index := m.index, version := m.version))
  }

  lemma SameRows(d0: Deletion, s: Setting, retained: set<Id>, a: Deletion, b: Deletion, id: Id)
    requires Initial(d0, s) && Carried(d0, s, retained, a) && Carried(d0, s, retained, b) && id in a.tables.memories
    ensures SameRow(d0, a, b, id)
  {
  }

  /** A copy of the record is made, and belongs in the derived index. */
  predicate Showable(memories: Memories, id: Id) {
    id in memories && Revocable(memories[id]) && !memories[id].classification.Secret?
  }

  /** A complete job: no record of the closure is in the derived index, and every retained copy that belongs there
      is. */
  lemma CompleteMeansClean(d0: Deletion, s: Setting, retained: set<Id>, d: Deletion)
    requires Initial(d0, s) && s.hasIndex && d.job == Some(Complete) && Follows(d0, s, retained, d)
    ensures DeletionClosure(d0.tables, s.root) !! d.index
    ensures forall id :: id in retained && id in s.mint && Showable(d0.tables.memories, id) ==> s.mint[id] in d.index
  {
    var items := PlannedItems(PlanOf(d0.tables, s.root), retained);
    PlannedAreLive(d0.tables, s, items, retained);
    CopiesAreFresh(d0.tables, s, items, d.items);
    forall id | id in retained && id in s.mint && Showable(d0.tables.memories, id) ensures s.mint[id] in d.index {
      assert Copies(d0.tables.memories, items, id);
      assert d.items[id] == ItemAfter(d0.tables.memories, items, s, items.Keys, id);
      assert CopySettled(d.items, d.tables.memories, id);
    }
  }

  lemma CarriedCopiesAreLive(d0: Deletion, s: Setting, retained: set<Id>, d: Deletion)
    requires Initial(d0, s) && Carried(d0, s, retained, d)
    ensures CopiesIn(d.items) !! d.items.Keys && forall c :: c in CopiesIn(d.items) ==> LiveRow(d.tables.memories, c)
  {
    var items := PlannedItems(PlanOf(d0.tables, s.root), retained);
    PlannedAreLive(d0.tables, s, items, retained);
    CopiesAreFresh(d0.tables, s, items, d.items);
  }
}
