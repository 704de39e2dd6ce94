/** The recoverable deletion job (`execute`, `resume`, `_create_job`, `_apply_sqlite`, `_sync_index` in
    `secminiagent/memory/cascade_delete.py`): what each call does to the tables, the job and the derived index. */
module DeletionJob {
  import opened Basics
  import opened Messages
  import opened Records
  import opened Closure
  import opened DeletionPlan

  datatype JobStatus = Authorized | IndexPending | Complete

  datatype Action = DeleteRecord | RetractRecord | RetainIndependent

  /** One record of the job; `copy` is the independent copy made for it. */
  datatype Item = Item(action: Action, committed: bool, copy: Option<Id>)

  /** The authoritative tables, the job, and the ids the derived index holds. */
  datatype Deletion = Deletion(tables: Tables, job: Option<JobStatus>, items: map<Id, Item>, index: set<Id>)

  /** What does not change over a job: the root, the limits, the ids minted for copies, and whether there is an
      index. */
  datatype Setting = Setting(root: Root, limits: Limits, mint: map<Id, Id>, hasIndex: bool)

  // ----- Creating the job -----

  function ActionFor(plan: Plan, retained: set<Id>, id: Id): Action {
    if id in plan.direct then DeleteRecord else if id in retained then RetainIndependent else RetractRecord
  }

  function PlannedItems(plan: Plan, retained: set<Id>): map<Id, Item> {
    map id | id in plan.direct + plan.derived :: Item(ActionFor(plan, retained, id), false, None)
  }

  // ----- Applying it -----

  /** Records already gone or retracted are skipped. */
  predicate Revocable(m: Memory) {
    !m.deleted && m.status != Retracted && m.status != Deleted
  }

  function Revoked(m: Memory, action: Action): Memory {
    m.(status := if action.DeleteRecord? then Deleted else Retracted,
       deleted := if action.DeleteRecord? then true else m.deleted,
       index := if m.scope.WorkspaceScope? then PendingDelete else m.index,
       version := m.version + 1)
  }

  /** A fresh workspace record with the same content and no sources. */
  function IndependentCopy(m: Memory, hasIndex: bool): Memory {
    Memory(WorkspaceScope, None, None, IndependentRetention, m.content, [], m.classification, true, Active, false,
           if hasIndex && !m.classification.Secret? then PendingIndex else NotIndexed, 1, 1)
  }

  predicate Applies(memories: Memories, items: map<Id, Item>, id: Id) {
    id in items && id in memories && Revocable(memories[id])
  }

  predicate Copies(memories: Memories, items: map<Id, Item>, id: Id) {
    Applies(memories, items, id) && items[id].action.RetainIndependent?
  }

  /** Ids minted for copies are fresh and distinct. */
  ghost predicate FreshMint(mint: map<Id, Id>, memories: Memories) {
    && (forall id :: id in memories ==> id in mint && mint[id] !in memories)
    && (forall a, b :: a in memories && b in memories && mint[a] == mint[b] ==> a == b)
  }

  /** The copy made for a record, whatever its indexing has come to since. */
  predicate CopyOf(m: Memory, hasIndex: bool, row: Memory) {
    var fresh_copy := IndependentCopy(m, hasIndex);
    && row.(index := fresh_copy.index, version := 1) == fresh_copy
    && (row.index.NotIndexed? <==> fresh_copy.index.NotIndexed?) && !row.index.PendingDelete?
  }

  function RowAfter(memories: Memories, items: map<Id, Item>, done: set<Id>, id: Id): Memory
    requires id in memories
  {
    if id in done && Applies(memories, items, id) then Revoked(memories[id], items[id].action) else memories[id]
  }

  function ItemAfter(memories: Memories, items: map<Id, Item>, s: Setting, done: set<Id>, id: Id): Item
    requires id in items
  {
    if id in done && Applies(memories, items, id)
    then Item(items[id].action, true, if items[id].action.RetainIndependent? && id in s.mint
      then Some(s.mint[id]) else None)
    else items[id]
  }

  /** The ids of the copies made for the items in `done`. */
  function CopyIds(memories: Memories, items: map<Id, Item>, s: Setting, done: set<Id>): set<Id> {
    set id | id in done && Copies(memories, items, id) && id in s.mint :: s.mint[id]
  }

  // What the tables hold once the items in `done` have been applied to `memories`.

  ghost predicate OldRows(memories: Memories, items: map<Id, Item>, done: set<Id>, now: Memories) {
    forall id :: id in memories ==> id in now && now[id] == RowAfter(memories, items, done, id)
  }

  ghost predicate NewRows(memories: Memories, items: map<Id, Item>, s: Setting, done: set<Id>, now: Memories) {
    forall id :: id in done && Copies(memories, items, id) && id in s.mint ==>
      s.mint[id] in now && CopyOf(memories[id], s.hasIndex, now[s.mint[id]])
  }

  ghost predicate MemoriesAfter(memories: Memories, items: map<Id, Item>, s: Setting, done: set<Id>, now: Memories) {
    && OldRows(memories, items, done, now) && NewRows(memories, items, s, done, now)
    && now.Keys == memories.Keys + CopyIds(memories, items, s, done)
  }

  ghost predicate ItemsAfter(memories: Memories, items: map<Id, Item>, s: Setting, done: set<Id>, now: map<Id, Item>) {
    now.Keys == items.Keys && forall id :: id in items ==> now[id] == ItemAfter(memories, items, s, done, id)
  }

  /** Applying one item: skipped if the record is gone or retracted, otherwise copied if retained, then revoked. */
  function AppliedOne(now: Memories, item: Item, s: Setting, id: Id): Memories
    requires id in now && Revocable(now[id])
  {
    var copied := if item.action.RetainIndependent? && id in s.mint
      then now[s.mint[id] := IndependentCopy(now[id], s.hasIndex)] else now;
    copied[id := Revoked(now[id], item.action)]
  }

  lemma SkipStep(memories: Memories, items: map<Id, Item>, s: Setting, done: set<Id>, id: Id, now: Memories,
      rows: map<Id, Item>)
    requires MemoriesAfter(memories, items, s, done, now) && ItemsAfter(memories, items, s, done, rows)
    requires !Applies(memories, items, id)
    ensures MemoriesAfter(memories, items, s, done + {id}, now) && ItemsAfter(memories, items, s, done + {id}, rows)
  {
    assert CopyIds(memories, items, s, done + {id}) == CopyIds(memories, items, s, done);
  }

  lemma OldRowsStep(memories: Memories, items: map<Id, Item>, s: Setting, done: set<Id>, id: Id, now: Memories)
    requires FreshMint(s.mint, memories) && OldRows(memories, items, done, now)
    requires Applies(memories, items, id) && id !in done
    ensures now[id] == memories[id] && OldRows(memories, items, done + {id}, AppliedOne(now, items[id], s, id))
  {
  }

  lemma NewRowsStep(memories: Memories, items: map<Id, Item>, s: Setting, done: set<Id>, id: Id, now: Memories)
    requires FreshMint(s.mint, memories) && OldRows(memories, items, done, now)
      && NewRows(memories, items, s, done, now)
    requires Applies(memories, items, id) && id !in done
    ensures now[id] == memories[id] && NewRows(memories, items, s, done + {id}, AppliedOne(now, items[id], s, id))
  {
  }

  lemma CopyIdsStep(memories: Memories, items: map<Id, Item>, s: Setting, done: set<Id>, id: Id)
    requires id in s.mint && Applies(memories, items, id)
    ensures CopyIds(memories, items, s, done + {id})
         == CopyIds(memories, items, s, done) + (if items[id].action.RetainIndependent? then {s.mint[id]} else {})
  {
  }

  lemma MemoriesStep(memories: Memories, items: map<Id, Item>, s: Setting, done: set<Id>, id: Id, now: Memories)
    requires FreshMint(s.mint, memories) && MemoriesAfter(memories, items, s, done, now)
    requires Applies(memories, items, id) && id !in done
    ensures now[id] == memories[id] && MemoriesAfter(memories, items, s, done + {id}, AppliedOne(now, items[id], s, id))
  {
    OldRowsStep(memories, items, s, done, id, now);
    NewRowsStep(memories, items, s, done, id, now);
    CopyIdsStep(memories, items, s, done, id);
  }

  /** Every live relation that touches an item is tombstoned. */
  function AppliedRelations(relations: Relations, items: map<Id, Item>): Relations {
    map r | r in relations ::
      if relations[r].source in items || relations[r].target in items
          then relations[r].(live := false) else relations[r]
  }

  function AppliedRuns(t: Tables, root: Root): map<Id, RunRow> {
    map r | r in t.runs :: if r in AffectedRuns(t, root) then t.runs[r].(deleted := true) else t.runs[r]
  }

  function AppliedThreads(t: Tables, root: Root): map<Id, ThreadRow> {
    match root
    case RunRoot(_, _) => t.threads
    case ThreadRoot(thread) =>
      map x | x in t.threads :: if x == thread then ThreadRow(false, true) else t.threads[x]
  }

  ghost predicate TablesAfter(t: Tables, items: map<Id, Item>, s: Setting, now: Tables) {
    && MemoriesAfter(t.memories, items, s, items.Keys, now.memories)
    && now.relations == AppliedRelations(t.relations, items)
    && now.threads == AppliedThreads(t, s.root) && now.runs == AppliedRuns(t, s.root)
  }

  // ----- The steps of a job, each one transaction -----

  ghost predicate Creates(d: Deletion, d': Deletion, s: Setting, retained: set<Id>) {
    && d.job.None? && PlanOk(d.tables, s.root, s.limits) && retained <= PlanOf(d.tables, s.root).promoted
    && d' == Deletion(d.tables, Some(Authorized), PlannedItems(PlanOf(d.tables, s.root), retained), d.index)
  }

  ghost predicate Commits(d: Deletion, d': Deletion, s: Setting) {
    && d.job == Some(Authorized) && d'.job == Some(IndexPending) && d'.index == d.index
    && TablesAfter(d.tables, d.items, s, d'.tables) && NoneIndexed(d.tables.memories, d'.tables.memories)
    && ItemsAfter(d.tables.memories, d.items, s, d.items.Keys, d'.items)
  }

  /** No new record claims to be in the index yet. */
  ghost predicate NoneIndexed(memories: Memories, now: Memories) {
    forall c :: c in now && c !in memories ==> !now[c].index.Indexed?
  }

  function CopiesIn(items: map<Id, Item>): set<Id> {
    set id | id in items && items[id].copy.Some? :: items[id].copy.value
  }

  predicate IndexMoves(i: IndexStatus, j: IndexStatus) {
    i == j || ((i.PendingIndex? || i.IndexFailed?) && (j.Indexed? || j.IndexFailed?))
  }

  /** Only the indexing of copies may have moved on. */
  ghost predicate SameButCopies(a: Memories, b: Memories, copies: set<Id>) {
    && a.Keys == b.Keys
    && forall x :: x in a ==> b[x] == a[x] || (x in copies && RowMoves(a[x], b[x]))
  }

  predicate RowMoves(m: Memory, m': Memory) {
    m' == m.(index := m'.index, version := m'.version) && IndexMoves(m.index, m'.index)
  }

  ghost predicate IndexAgrees(items: map<Id, Item>, memories: Memories, index: set<Id>) {
    forall c :: c in CopiesIn(items) && c in memories && memories[c].index.Indexed? ==> c in index
  }

  /** Apart from items and copies, the index holds what it held. */
  ghost predicate IndexKept(items: map<Id, Item>, before: set<Id>, now: set<Id>) {
    forall x :: x !in items && x !in CopiesIn(items) ==> (x in before <==> x in now)
  }

  predicate CopySettled(items: map<Id, Item>, memories: Memories, id: Id)
    requires id in items
  {
    items[id].copy.Some? ==>
      items[id].copy.value in memories
        && (memories[items[id].copy.value].index.Indexed? || memories[items[id].copy.value].index.NotIndexed?
        || memories[items[id].copy.value].index.PendingDelete?)
  }

  /** The derived index no longer shows any item, and every copy that belongs in it is there. */
  ghost predicate Cleaned(items: map<Id, Item>, memories: Memories, index: set<Id>, done: set<Id>) {
    forall id :: id in done && id in items ==> id !in index && CopySettled(items, memories, id)
  }

  ghost predicate SyncMoves(d: Deletion, memories: Memories, index: set<Id>) {
    && SameButCopies(d.tables.memories, memories, CopiesIn(d.items)) && IndexKept(d.items, d.index, index)
    && (IndexAgrees(d.items, d.tables.memories, d.index) ==> IndexAgrees(d.items, memories, index))
  }

  /** One pass over the index, possibly with failures, possibly cut short by a crash. */
  ghost predicate Syncs(d: Deletion, d': Deletion, s: Setting) {
    && d.job == Some(IndexPending) && (d'.job == Some(IndexPending) || d'.job == Some(Complete)) && d'.items == d.items
    && d'.tables == d.tables.(memories := d'.tables.memories) && SyncMoves(d, d'.tables.memories, d'.index)
    && (d'.job == Some(Complete) && s.hasIndex ==> Cleaned(d'.items, d'.tables.memories, d'.index, d'.items.Keys))
  }

  ghost predicate Step(d: Deletion, d': Deletion, s: Setting) {
    d' == d || (exists retained :: Creates(d, d', s, retained)) || Commits(d, d', s) || Syncs(d, d', s)
  }

  ghost predicate Run(h: seq<Deletion>, s: Setting) {
    h != [] && forall k :: 0 <= k < |h| - 1 ==> Step(h[k], h[k + 1], s)
  }

  /** Before the deletion: no job, minted ids are fresh, and relations join stored records. */
  ghost predicate Initial(d: Deletion, s: Setting) {
    && d.job.None? && d.items == map[] && FreshMint(s.mint, d.tables.memories)
    && forall r :: r in d.tables.relations ==> d.tables.relations[r].source in d.tables.memories
  }

  // ----- What holds whatever crashed or failed -----

  ghost predicate ItemsPlanned(t: Tables, s: Setting, items: map<Id, Item>, retained: set<Id>) {
    && PlanOk(t, s.root, s.limits) && retained <= PlanOf(t, s.root).promoted
    && items == PlannedItems(PlanOf(t, s.root), retained)
  }

  /** The tables, items and index are those of an uninterrupted deletion, but for the indexing of copies. */
  ghost predicate Carried(d0: Deletion, s: Setting, retained: set<Id>, d: Deletion) {
    var items := PlannedItems(PlanOf(d0.tables, s.root), retained);
    && ItemsPlanned(d0.tables, s, items, retained)
    && TablesAfter(d0.tables, items, s, d.tables) && ItemsAfter(d0.tables.memories, items, s, items.Keys, d.items)
    && IndexKept(d.items, d0.index, d.index) && IndexAgrees(d.items, d.tables.memories, d.index)
  }

  ghost predicate Follows(d0: Deletion, s: Setting, retained: set<Id>, d: Deletion) {
    match d.job
    case None => d == d0
    case Some(Authorized) => d.tables == d0.tables && d.index == d0.index
      && ItemsPlanned(d0.tables, s, d.items, retained)
    case Some(IndexPending) => Carried(d0, s, retained, d)
    case Some(Complete) =>
      Carried(d0, s, retained, d) && (s.hasIndex ==> Cleaned(d.items, d.tables.memories, d.index, d.items.Keys))
  }
}
