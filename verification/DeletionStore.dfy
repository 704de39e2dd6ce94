/** The deletion service's calls (`execute`, `resume`, `_create_job`, `_apply_sqlite`, `_sync_index` in
    `secminiagent/memory/cascade_delete.py`), updating the tables, the job and the derived index in place. */
module DeletionStore {
  import opened Basics
  import opened Messages
  import opened Records
  import opened Closure
  import opened DeletionPlan
  import opened DeletionJob
  import opened DeletionLaws

  /** Where a failpoint or a crash ends a call. */
  datatype Failpoint = NoFailpoint | AfterPlanned | AfterSqlite

  /** What goes wrong in one index pass: the deletes and index writes that fail, and how many items it handles before
      the process dies, if it does. */
  datatype Trouble = Trouble(deleteFails: set<Id>, indexFails: set<Id>, diesAfter: Option<nat>)

  predicate NoTrouble(w: Trouble) {
    w == Trouble({}, {}, None)
  }

  datatype Outcome = Receipt(status: JobStatus) | NotFound | NotConfirmed | CannotPlan(error: PlanError) | Died

  // ----- One item of an index pass -----

  predicate Waiting(memories: Memories, c: Id) {
    c in memories && !memories[c].deleted && (memories[c].index.PendingIndex? || memories[c].index.IndexFailed?)
  }

  function Reindexed(m: Memory, ok: bool): Memory {
    m.(index := if ok then Indexed else IndexFailed, version := m.version + 1)
  }

  /** Copies are stored and live, and no copy is an item. */
  ghost predicate CopiesLive(items: map<Id, Item>, memories: Memories) {
    CopiesIn(items) !! items.Keys && forall c :: c in CopiesIn(items) ==> LiveRow(memories, c)
  }

  /** An index pass that has handled the items in `done`; `clean` while nothing has failed. */
  ghost predicate Passing(d: Deletion, memories: Memories, index: set<Id>, done: set<Id>, clean: bool) {
    && SyncMoves(d, memories, index) && CopiesLive(d.items, memories)
    && (clean ==> Cleaned(d.items, memories, index, done))
  }

  lemma PassDeletes(d: Deletion, memories: Memories, index: set<Id>, done: set<Id>, clean: bool, id: Id)
    requires Passing(d, memories, index, done, clean) && id in d.items
    ensures Passing(d, memories, index - {id}, done, clean)
  {
  }

  lemma PassIndexes(d: Deletion, memories: Memories, index: set<Id>, done: set<Id>, clean: bool, c: Id, ok: bool)
    requires Passing(d, memories, index, done, clean) && c in CopiesIn(d.items) && Waiting(memories, c)
    ensures Passing(d, memories[c := Reindexed(memories[c], ok)], if ok then index + {c} else index, done, clean && ok)
  {
  }

  lemma PassFinishesItem(d: Deletion, memories: Memories, index: set<Id>, done: set<Id>, clean: bool, id: Id)
    requires Passing(d, memories, index, done, clean) && id in d.items
    requires clean ==> id !in index && (d.items[id].copy.Some? ==> !Waiting(memories, d.items[id].copy.value))
    ensures Passing(d, memories, index, done + {id}, clean)
  {
    if d.items[id].copy.Some? { assert d.items[id].copy.value in CopiesIn(d.items); }
  }

  predicate Extends(before: seq<Deletion>, now: seq<Deletion>) {
    |before| <= |now| && now[..|before|] == before
  }

  lemma RunSnoc(h: seq<Deletion>, d: Deletion, s: Setting)
    requires Run(h, s) && Step(h[|h| - 1], d, s)
    ensures Run(h + [d], s)
  {
    var g := h + [d];
    forall k | 0 <= k < |h| - 1 ensures Step(g[k], g[k + 1], s) {
      assert g[k] == h[k] && g[k + 1] == h[k + 1];
    }
    assert g[|h| - 1] == h[|h| - 1] && g[|h|] == d;
  }

  function Handled(item: Item, s: Setting, id: Id): Item
    requires id in s.mint
  {
    Item(item.action, true, if item.action.RetainIndependent? then Some(s.mint[id]) else None)
  }

  /** The memories and item rows once one item has been applied: a record already gone or retracted is skipped. */
  function MemoryStep(now: Memories, rows: map<Id, Item>, s: Setting, id: Id): Memories
    requires id in rows
  {
    if id in now && Revocable(now[id]) then AppliedOne(now, rows[id], s, id) else now
  }

  function ItemStep(now: Memories, rows: map<Id, Item>, s: Setting, id: Id): map<Id, Item>
    requires id in rows && id in s.mint
  {
    if id in now && Revocable(now[id]) then rows[id := Handled(rows[id], s, id)] else rows
  }

  ghost predicate AppliedSoFar(
    memories: Memories, items: map<Id, Item>, s: Setting, done: set<Id>, now: Memories, rows: map<Id, Item>)
  {
    MemoriesAfter(memories, items, s, done, now) && ItemsAfter(memories, items, s, done, rows)
      && NoneIndexed(memories, now)
  }

  /** Applying the next item, whichever it is. */
  lemma NextItem(
    memories: Memories, items: map<Id, Item>, s: Setting, done: set<Id>, id: Id, now: Memories, rows: map<Id, Item>)
    requires FreshMint(s.mint, memories) && items.Keys <= memories.Keys && id in items && id !in done
    requires AppliedSoFar(memories, items, s, done, now, rows)
    ensures id in rows && id in s.mint
    ensures AppliedSoFar(memories, items, s, done + {id}, MemoryStep(now, rows, s, id), ItemStep(now, rows, s, id))
  {
    if Applies(memories, items, id) {
      MemoriesStep(memories, items, s, done, id, now);
      StillUnindexed(memories, now, items[id], s, id);
      NextRow(memories, items, s, done, id, rows);
    } else {
      SkipStep(memories, items, s, done, id, now, rows);
    }
  }

  lemma NextRow(memories: Memories, items: map<Id, Item>, s: Setting, done: set<Id>, id: Id, rows: map<Id, Item>)
    requires id in items && id in s.mint && id !in done && Applies(memories, items, id)
      && ItemsAfter(memories, items, s, done, rows)
    ensures rows[id] == items[id] && ItemsAfter(memories, items, s, done + {id}, rows[id := Handled(rows[id], s, id)])
  {
  }

  lemma StillUnindexed(memories: Memories, now: Memories, item: Item, s: Setting, id: Id)
    requires NoneIndexed(memories, now) && id in memories && id in now && Revocable(now[id])
    ensures NoneIndexed(memories, AppliedOne(now, item, s, id))
  {
  }

  lemma NothingDone(memories: Memories, items: map<Id, Item>, s: Setting)
    ensures AppliedSoFar(memories, items, s, items.Keys - items.Keys, memories, items)
  {
    assert CopyIds(memories, items, s, items.Keys - items.Keys) == {};
  }

  class DeletionService {
    var tables: Tables
    var job: Option<JobStatus>
    var items: map<Id, Item>
    var index: set<Id>
    const s: Setting
    ghost var history: seq<Deletion>

    ghost function Now(): Deletion
      reads this
    {
      Deletion(tables, job, items, index)
    }

    /** Everything that has happened is a run of the job's steps. */
    ghost predicate Valid()
      reads this
    {
      Run(history, s) && Initial(history[0], s) && history[|history| - 1] == Now()
    }

    constructor (d: Deletion, setting: Setting)
      requires Initial(d, setting)
      ensures Valid() && Now() == d && history == [d] && s == setting
    {
      tables, job, items, index, s := d.tables, d.job, d.items, d.index, setting;
      history := [d];
    }

    method DeleteFromIndex(id: Id, trouble: Trouble) returns (ok: bool)
      modifies this`index
      ensures ok == (id !in trouble.deleteFails) && index == if ok then old(index) - {id} else old(index)
    {
      ok := id !in trouble.deleteFails;
      if ok { index := index - {id}; }
    }

    /** Writes a waiting copy to the index and records how that went. */
    method IndexCopy(c: Id, trouble: Trouble) returns (ok: bool)
      requires Waiting(tables.memories, c)
      modifies this`index, this`tables
      ensures ok == (c !in trouble.indexFails) && index == if ok then old(index) + {c} else old(index)
      ensures tables == old(tables).(memories := old(tables).memories[c := Reindexed(old(tables).memories[c], ok)])
    {
      ok := c !in trouble.indexFails;
      if ok { index := index + {c}; }
      tables := tables.(memories := tables.memories[c := Reindexed(tables.memories[c], ok)]);
    }

    /** One item of a pass. It fails when the delete fails, when the copy is missing, or when the copy cannot be
        indexed. */
    method SyncItem(id: Id, trouble: Trouble, ghost d: Deletion, ghost done: set<Id>, ghost clean: bool)
        returns (ok: bool)
      requires id in items && items == d.items && tables == d.tables.(memories := tables.memories)
      requires Passing(d, tables.memories, index, done, clean)
      modifies this`index, this`tables
      ensures tables == d.tables.(memories := tables.memories)
        && Passing(d, tables.memories, index, done + {id}, clean && ok)
      ensures NoTrouble(trouble) ==> ok
    {
      var deleted := DeleteFromIndex(id, trouble);
      if deleted { PassDeletes(d, old(tables).memories, old(index), done, clean, id); }
      ok := deleted;
      if items[id].copy.Some? {
        var c := items[id].copy.value;
        assert c in CopiesIn(d.items);
        if !LiveRow(tables.memories, c) {
          ok := false;
        } else if Waiting(tables.memories, c) {
          PassIndexes(d, tables.memories, index, done, clean, c, c !in trouble.indexFails);
          var indexed := IndexCopy(c, trouble);
          ok := ok && indexed;
        }
      }
      PassFinishesItem(d, tables.memories, index, done, clean && ok, id);
    }

    /** The items of a pass, up to where the process dies. */
    method SyncItems(trouble: Trouble) returns (ok: bool, died: bool)
      requires CopiesLive(items, tables.memories)
      modifies this`index, this`tables
      ensures tables == old(tables).(memories := tables.memories) && SyncMoves(old(Now()), tables.memories, index)
      ensures ok && !died ==> Cleaned(items, tables.memories, index, items.Keys)
      ensures NoTrouble(trouble) ==> ok && !died
    {
      ghost var d := Now();
      var todo, handled := items.Keys, 0;
      ok, died := true, false;
      while todo != {} && !died
        invariant todo <= items.Keys && tables == d.tables.(memories := tables.memories)
        invariant Passing(d, tables.memories, index, items.Keys - todo, ok)
        invariant NoTrouble(trouble) ==> ok && !died
        decreases todo, !died
      {
        if trouble.diesAfter == Some(handled) {
          died := true;
        } else {
          var id :| id in todo;
          var fine := SyncItem(id, trouble, d, items.Keys - todo, ok);
          ok := ok && fine;
          OneLess(items.Keys, todo, id);
          todo, handled := todo - {id}, handled + 1;
        }
      }
      NothingTodo(items.Keys);
    }

    /** One index pass. The job completes exactly when the pass neither failed nor died. */
    method SyncIndex(trouble: Trouble) returns (r: Outcome)
      requires Valid() && job.Some? && !job.value.Authorized?
      modifies this
      ensures Valid() && Extends(old(history), history) && Forward(old(job), job)
      ensures r == Died || r == Receipt(job.value)
      ensures NoTrouble(trouble) || !s.hasIndex || old(job) == Some(Complete) ==>
        job == Some(Complete) && r == Receipt(Complete)
      ensures old(job) == Some(Complete) ==> Now() == old(Now())
    {
      if job.value.Complete? { return Receipt(Complete); }
      ReadyToSync();
      ghost var d := Now();
      var ok, died := true, false;
      if s.hasIndex {
        ok, died := SyncItems(trouble);
      }
      if !died { job := if ok then Some(Complete) else Some(IndexPending); }
      assert Syncs(d, Now(), s);
      Record(d);
      r := if died then Died else Receipt(job.value);
    }

    /** Extends the history by the step just made. */
    ghost method Record(d: Deletion)
      requires Run(history, s) && Initial(history[0], s) && history[|history| - 1] == d && Step(d, Now(), s)
      modifies this`history
      ensures Valid() && history == old(history) + [Now()]
    {
      RunSnoc(history, Now(), s);
      history := history + [Now()];
    }

    lemma ReadyToSync()
      requires Valid() && job.Some? && !job.value.Authorized?
      ensures CopiesLive(items, tables.memories)
    {
      var retained := EveryRunFollows(history, s, |history| - 1);
      CarriedCopiesAreLive(history[0], s, retained, Now());
    }

    // ----- Carrying the job out -----

    /** Applies one item: a record already gone or retracted is skipped. */
    method ApplyOne(id: Id)
      requires id in items && id in s.mint
      modifies this`tables, this`items
      ensures tables == old(tables).(memories := MemoryStep(old(tables).memories, old(items), s, id))
      ensures items == ItemStep(old(tables).memories, old(items), s, id)
    {
      if id in tables.memories && Revocable(tables.memories[id]) {
        var row, action, memories := tables.memories[id], items[id].action, tables.memories;
        var copy: Option<Id> := None;
        if action.RetainIndependent? {
          copy := Some(s.mint[id]);
          memories := memories[s.mint[id] := IndependentCopy(row, s.hasIndex)];
        }
        memories := memories[id := Revoked(row, action)];
        tables := tables.(memories := memories);
        items := items[id := Item(action, true, copy)];
      }
    }

    method ApplyItems()
      requires FreshMint(s.mint, tables.memories) && items.Keys <= tables.memories.Keys
      modifies this`tables, this`items
      ensures AppliedSoFar(old(tables).memories, old(items), s, old(items).Keys, tables.memories, items)
      ensures tables == old(tables).(memories := tables.memories)
    {
      ghost var memories0, items0 := tables.memories, items;
      var todo := items.Keys;
      NothingDone(memories0, items0, s);
      while todo != {}
        invariant todo <= items0.Keys && tables == old(tables).(memories := tables.memories)
        invariant AppliedSoFar(memories0, items0, s, items0.Keys - todo, tables.memories, items)
        decreases todo
      {
        var id :| id in todo;
        ghost var done := items0.Keys - todo;
        NextItem(memories0, items0, s, done, id, tables.memories, items);
        ApplyOne(id);
        OneLess(items0.Keys, todo, id);
        todo := todo - {id};
      }
      NothingTodo(items0.Keys);
    }

    /** Revokes everything in one transaction: items, relations, the root, then the job. Done already, it does
        nothing. */
    method ApplySqlite()
      requires Valid() && job.Some?
      modifies this
      ensures Valid() && Extends(old(history), history) && Forward(old(job), job)
      ensures old(job) == Some(Authorized) ==> job == Some(IndexPending)
      ensures old(job) != Some(Authorized) ==> Now() == old(Now())
    {
      if job != Some(Authorized) { return; }
      ghost var d := Now();
      ReadyToApply();
      RevokeAll();
      job := Some(IndexPending);
      Record(d);
    }

    lemma SameCut(relations: Relations, rows: map<Id, Item>, items: map<Id, Item>)
      requires rows.Keys == items.Keys
      ensures AppliedRelations(relations, rows) == AppliedRelations(relations, items)
    {
      forall x ensures x in rows <==> x in items { assert x in rows.Keys <==> x in items.Keys; }
    }

    method RevokeAll()
      requires FreshMint(s.mint, tables.memories) && items.Keys <= tables.memories.Keys
      modifies this`tables, this`items
      ensures TablesAfter(old(tables), old(items), s, tables) && NoneIndexed(old(tables).memories, tables.memories)
      ensures ItemsAfter(old(tables).memories, old(items), s, old(items).Keys, items)
    {
      ApplyItems();
      SameCut(tables.relations, items, old(items));
      tables := Tables(tables.memories, AppliedRelations(tables.relations, items), AppliedThreads(tables, s.root),
        AppliedRuns(tables, s.root));
    }

    /** Until the job is carried out the tables are as planned, so a new plan succeeds too. */
    lemma ReadyToApply()
      requires Valid() && job == Some(Authorized)
      ensures FreshMint(s.mint, tables.memories) && items.Keys <= tables.memories.Keys
        && PlanOk(tables, s.root, s.limits)
    {
      var retained := EveryRunFollows(history, s, |history| - 1);
      PlannedAreLive(tables, s, items, retained);
    }

    // ----- The calls -----

    method CreateJob(plan: Plan, retained: set<Id>)
      requires Valid() && job.None? && PlanOk(tables, s.root, s.limits) && plan == PlanOf(tables, s.root)
        && retained <= plan.promoted
      modifies this
      ensures Valid() && Extends(old(history), history) && tables == old(tables) && index == old(index)
      ensures job == Some(Authorized) && items == PlannedItems(plan, retained)
    {
      ghost var d := Now();
      items := PlannedItems(plan, retained);
      job := Some(Authorized);
      assert Creates(d, Now(), s, retained);
      Record(d);
    }

    /** Takes a job up where it was left. A job that was begun is never refused, and without new trouble it
        completes. */
    method Resume(trouble: Trouble) returns (r: Outcome)
      requires Valid()
      modifies this
      ensures Valid() && Extends(old(history), history) && Forward(old(job), job)
      ensures old(job).None? ==> r == NotFound && Now() == old(Now())
      ensures old(job).Some? ==> job.Some? && !job.value.Authorized? && (r == Died || r == Receipt(job.value))
      ensures old(job).Some? && NoTrouble(trouble) ==> job == Some(Complete) && r == Receipt(Complete)
      ensures old(job) == Some(Complete) ==> Now() == old(Now())
    {
      if job.None? { return NotFound; }
      if job.value.Authorized? {
        ReadyToApply();
        var planned := MakePlan(tables, s.root, s.limits);
        if planned.Refused? { assert false; }
        ApplySqlite();
      }
      r := SyncIndex(trouble);
    }

    /** Deletes the root: plans, creates the job, revokes, cleans the index. Called again, it resumes an unfinished
        job. */
    method Execute(confirmed: bool, retained: set<Id>, failpoint: Failpoint, trouble: Trouble) returns (r: Outcome)
      requires Valid()
      modifies this
      ensures Valid() && Extends(old(history), history) && Forward(old(job), job)
      ensures old(job).None? && r != Died && !r.Receipt? ==> Now() == old(Now())
      ensures old(job).None? ==>
        (job.Some? <==>
          PlanOk(old(tables), s.root, s.limits) && confirmed && retained <= PlanOf(old(tables), s.root).promoted)
      ensures old(job).None? ==> (r.CannotPlan? <==> !PlanOk(old(tables), s.root, s.limits))
      ensures old(job).None? && job.None? && !r.CannotPlan? ==> r == NotConfirmed
      ensures failpoint == NoFailpoint && NoTrouble(trouble) && job.Some? ==>
        job == Some(Complete) && r == Receipt(Complete)
      ensures old(job) == Some(Complete) ==> Now() == old(Now()) && r == Receipt(Complete)
    {
      if job.Some? {
        if job != Some(Complete) && failpoint == NoFailpoint {
          r := Resume(trouble);
        } else {
          r := Receipt(job.value);
        }
        return;
      }
      var planned := MakePlan(tables, s.root, s.limits);
      if planned.Refused? { return CannotPlan(planned.error); }
      if !confirmed || !(retained <= planned.plan.promoted) { return NotConfirmed; }
      r := Begin(planned.plan, retained, failpoint, trouble);
    }

    method Begin(plan: Plan, retained: set<Id>, failpoint: Failpoint, trouble: Trouble) returns (r: Outcome)
      requires Valid() && job.None? && PlanOk(tables, s.root, s.limits) && plan == PlanOf(tables, s.root)
        && retained <= plan.promoted
      modifies this
      ensures Valid() && Extends(old(history), history) && job.Some? && (r == Died || r == Receipt(job.value))
      ensures failpoint == AfterPlanned ==> job == Some(Authorized)
      ensures failpoint == AfterSqlite ==> job == Some(IndexPending)
      ensures failpoint == NoFailpoint && NoTrouble(trouble) ==> job == Some(Complete) && r == Receipt(Complete)
    {
      CreateJob(plan, retained);
      if failpoint == AfterPlanned { return Died; }
      ApplySqlite();
      if failpoint == AfterSqlite { return Died; }
      r := SyncIndex(trouble);
    }
  }
}
