/** The note services over mutable tables (`add_candidate` of `secminiagent/memory/notes.py`; `confirm_note`,
    `retract_note` and `promote_note` of `secminiagent/memory/long_term_memory.py`), each method one transaction. */
module NotesStore {
  import opened Basics
  import opened Messages
  import opened Records
  import opened DeletionPlan
  import opened Provenance
  import opened ProvenanceLaws
  import opened GrownDeletion

  /** Confirming a note, once the replaced notes of `done` have been visited. */
  function ConfirmedSoFar(memories: Memories, note: Id, done: set<Id>): Memories
    requires note in memories
  {
    map x | x in memories ::
      if x == note then WithStatus(memories[x], Active).(confirmed := true)
      else if x in done && (memories[x].status.Active? || memories[x].status.Disputed?)
        then WithStatus(memories[x], Superseded)
      else memories[x]
  }

  lemma NoneVisited(memories: Memories, note: Id)
    requires note in memories
    ensures ConfirmedSoFar(memories, note, {})
      == memories[note := WithStatus(memories[note], Active).(confirmed := true)]
  {
  }

  lemma OneVisited(memories: Memories, note: Id, done: set<Id>, x: Id)
    requires note in memories && x in memories && x != note && x !in done
    ensures var now := ConfirmedSoFar(memories, note, done);
            ConfirmedSoFar(memories, note, done + {x})
              == if now[x].status.Active? || now[x].status.Disputed?
                then now[x := WithStatus(now[x], Superseded)] else now
  {
  }

  lemma AllVisited(l: Library, note: Id)
    requires note in l.memories
    ensures ConfirmedSoFar(l.memories, note, ReplacedBy(l.relations, note)) == Confirmed(l, note)
  {
  }

  /** In a grown store a note never replaces itself, and what it replaces is stored. */
  lemma ReplacesOthers(l: Library, note: Id, x: Id)
    requires Grown(l) && x in ReplacedBy(l.relations, note)
    ensures x != note && x in l.memories
  {
    var r :| r in l.relations && l.relations[r].source == note && l.relations[r].target == x;
    assert Older(l.births, x, note);
  }

  lemma StepKeepsLibrary(l: Library, a: Action)
    requires Grown(l) && PromotedOnce(l.memories) && Allowed(l, a) && Minted(l, a)
    ensures Grown(Done(l, a)) && PromotedOnce(Done(l, a).memories)
  {
    StepKeepsGrown(l, a);
    StepKeepsPromotedOnce(l, a);
  }

  class NotesService {
    var memories: Memories
    var relations: Relations
    var births: map<Id, nat>
    var clock: nat

    function Now(): Library
      reads this
    {
      Library(memories, relations, births, clock)
    }

    ghost predicate Valid()
      reads this
    {
      Grown(Now()) && PromotedOnce(memories)
    }

    constructor ()
      ensures Valid() && Now() == Library(map[], map[], map[], 0)
    {
      memories, relations, births, clock := map[], map[], map[], 0;
    }

    /** Reads the sources: each must be reachable; their highest classification is inherited. */
    method SourceRows(thread: Id, refs: seq<Id>, floor: Classification) returns (ok: bool, highest: Classification)
      ensures ok <==> forall x :: x in refs ==> Reachable(Now(), thread, x)
      ensures ok ==> highest == Inherited(memories, refs, floor)
    {
      highest := floor;
      for k := 0 to |refs|
        invariant forall i :: 0 <= i < k ==> Reachable(Now(), thread, refs[i])
        invariant highest == Inherited(memories, refs[..k], floor)
      {
        var id := refs[k];
        if !Reachable(Now(), thread, id) { return false, floor; }
        assert refs[..k + 1][..k] == refs[..k];
        highest := Higher(highest, memories[id].classification);
      }
      assert refs[..|refs|] == refs;
      ok := true;
    }

    /** One relation row for each target, in order, ignoring rows the unique index has already. */
    method InsertRelations(rids: seq<Id>, source: Id, targets: seq<Id>, kind: RelationKind)
      requires |rids| == |targets|
      modifies this`relations
      ensures relations == RelateAll(old(relations), rids, source, targets, kind)
    {
      for k := 0 to |targets|
        invariant relations == RelateAll(old(relations), rids[..k], source, targets[..k], kind)
      {
        assert rids[..k + 1][..k] == rids[..k] && targets[..k + 1][..k] == targets[..k];
        relations := Relate(relations, rids[k], Relation(source, targets[k], kind, true));
      }
      assert rids[..|rids|] == rids && targets[..|targets|] == targets;
    }

    /** Stores a record and its relations. */
    method Store(id: Id, m: Memory, rids: seq<Id>, former: seq<Id>, rid: seq<Id>)
      requires |rids| == |m.refs| && |rid| == |former|
      modifies this
      ensures Now() == Stored(old(Now()), id, m, rids, former, rid)
    {
      memories, births, clock := memories[id := m], births[id := clock], clock + 1;
      InsertRelations(rids, id, m.refs, KindOf(m));
      InsertRelations(rid, id, former, Supersedes);
    }

    /** Stores an allowed candidate and moves the note it replaces on. */
    method StoreCandidate(a: Action, inherited: Classification, revision: nat)
      requires Valid() && a.AddNote? && Allowed(Now(), a) && Minted(Now(), a)
      requires inherited == Inherited(memories, a.refs, a.floor)
      requires revision == if a.former.Some? then NextRevision(Now(), a.former) else a.revision
      modifies this
      ensures Valid() && Now() == Done(old(Now()), a)
    {
      StepKeepsLibrary(Now(), a);
      var m := Memory(ThreadScope, Some(a.thread), None, StructuredNote, a.content, a.refs, inherited, false, Candidate,
        false, NotIndexed, revision, 1);
      Store(a.id, m, a.rids, AsList(a.former), a.rid);
      memories := Replaced(memories, AsList(a.former));
    }

    method AddCandidate(a: Action) returns (ok: bool)
      requires Valid() && a.AddNote? && Minted(Now(), a)
      modifies this
      ensures Valid() && ok == Allowed(old(Now()), a) && Now() == if ok then Done(old(Now()), a) else old(Now())
    {
      var found, inherited := SourceRows(a.thread, a.refs, a.floor);
      if !found || !Distinct(a.refs) || (a.byModel && a.refs == []) || a.revision < 1 { return false; }
      var revision := a.revision;
      if a.former.Some? {
        if !RevisableNoteIn(Now(), a.thread, a.former.value) { return false; }
        revision := memories[a.former.value].revision + 1;
      }
      StoreCandidate(a, inherited, revision);
      ok := true;
    }

    /** Makes the note active, then supersedes whatever it replaces that is still in use. */
    method ApplyConfirm(note: Id)
      requires Valid() && note in memories
      modifies this`memories
      ensures memories == Confirmed(old(Now()), note)
    {
      ghost var l := Now();
      var replaced := ReplacedBy(relations, note);
      var todo := replaced;
      NoneVisited(memories, note);
      NoneDone(replaced);
      memories := memories[note := WithStatus(memories[note], Active).(confirmed := true)];
      while todo != {}
        invariant todo <= replaced
        invariant memories == ConfirmedSoFar(l.memories, note, replaced - todo)
        decreases todo
      {
        var x :| x in todo;
        ReplacesOthers(l, note, x);
        OneVisited(l.memories, note, replaced - todo, x);
        if memories[x].status.Active? || memories[x].status.Disputed? {
          memories := memories[x := WithStatus(memories[x], Superseded)];
        }
        OneLess(replaced, todo, x);
        todo := todo - {x};
      }
      NothingTodo(replaced);
      AllVisited(l, note);
    }

    method ConfirmNote(a: Action) returns (ok: bool)
      requires Valid() && a.Confirm?
      modifies this`memories
      ensures Valid() && ok == Allowed(old(Now()), a) && Now() == if ok then Done(old(Now()), a) else old(Now())
    {
      if !NoteOf(Now(), a.thread, a.note) || memories[a.note].revision != a.revision { return false; }
      if memories[a.note].status.Active? && memories[a.note].confirmed { return true; }
      if !memories[a.note].status.Candidate? { return false; }
      StepKeepsLibrary(Now(), a);
      ApplyConfirm(a.note);
      ok := true;
    }

    method RetractNote(a: Action) returns (ok: bool)
      requires Valid() && a.Retract?
      modifies this`memories
      ensures Valid() && ok == Allowed(old(Now()), a) && Now() == if ok then Done(old(Now()), a) else old(Now())
    {
      if !NoteOf(Now(), a.thread, a.note) || memories[a.note].revision != a.revision { return false; }
      if memories[a.note].status.Retracted? { return true; }
      if !Revisable(memories[a.note]) { return false; }
      StepKeepsLibrary(Now(), a);
      memories := memories[a.note := WithStatus(memories[a.note], Retracted)];
      ok := true;
    }

    /** Promotes a confirmed note to a broader scope, unless it has been promoted there already: then that promotion
        is the answer if it is still active, and the promotion fails otherwise. */
    method PromoteNote(a: Action) returns (ok: bool)
      requires Valid() && a.Promote? && Minted(Now(), a)
      modifies this
      ensures Valid() && ok == Allowed(old(Now()), a) && Now() == if ok then Done(old(Now()), a) else old(Now())
    {
      if !NoteOf(Now(), a.thread, a.note) || memories[a.note].revision != a.revision || !memories[a.note].status.Active?
        || !memories[a.note].confirmed || ScopeRank(a.target) <= ScopeRank(memories[a.note].scope) { return false; }
      var existing := Promotions(Now(), a.note, a.target);
      if existing != {} {
        ok := forall x :: x in existing ==> memories[x].status.Active?;
        return;
      }
      StepKeepsLibrary(Now(), a);
      Store(a.id, PromotedRow(memories[a.note], a.note, a.target), a.rids, [], []);
      ok := true;
    }
  }
}
