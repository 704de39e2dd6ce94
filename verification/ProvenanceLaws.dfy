/** What every grown store keeps: relations lead to older records, payloads and relations list the same sources, nothing
    ranks below its sources, and a confirmed note and what it replaces are never both in use. */
module ProvenanceLaws {
  import opened Basics
  import opened Messages
  import opened Records
  import opened Closure
  import opened Cycles
  import opened DeletionPlan
  import opened Provenance

  // ----- What every grown store keeps -----

  ghost predicate AllStored(l: Library) {
    && (forall x :: x in l.memories ==> x in l.births && l.births[x] < l.clock && !l.memories[x].deleted)
    && (forall r :: r in l.relations ==>
      l.relations[r].live && l.relations[r].source in l.memories && l.relations[r].target in l.memories)
  }

  /** Every relation but a conflict leads from a younger record to an older one. */
  ghost predicate Downward(l: Library) {
    forall r :: r in l.relations && !l.relations[r].kind.ConflictsWith? ==>
      Older(l.births, l.relations[r].target, l.relations[r].source)
  }

  /** Every conflict is recorded from both sides. */
  ghost predicate Mutual(relations: Relations) {
    forall r :: r in relations && relations[r].kind.ConflictsWith? ==>
      Opposed(relations, relations[r].target, relations[r].source)
  }

  ghost predicate Opposed(relations: Relations, a: Id, b: Id) {
    exists q ::
      q in relations && relations[q].kind.ConflictsWith? && relations[q].source == a && relations[q].target == b
  }

  predicate Older(births: map<Id, nat>, a: Id, b: Id) {
    a in births && b in births && births[a] < births[b]
  }

  /** Payloads and relation rows list the same sources. */
  ghost predicate Proven(l: Library) {
    forall x :: x in l.memories ==> TargetsMatch(l.relations, x, KindOf(l.memories[x]), l.memories[x].refs)
  }

  /** What a record is made from never ranks above it. */
  ghost predicate Classified(l: Library) {
    forall x, y :: x in l.memories && y in l.memories[x].refs ==>
      y in l.memories && Rank(l.memories[y].classification) <= Rank(l.memories[x].classification)
  }

  /** A note that replaces another has left it, or left it to its own confirmation. */
  ghost predicate Revised(l: Library) {
    forall r :: r in l.relations && l.relations[r].kind.Supersedes? ==>
        RevisedPair(l.memories, l.relations[r].source, l.relations[r].target)
  }

  predicate RevisedPair(memories: Memories, newer: Id, older: Id) {
    && newer in memories && older in memories && IsNote(memories[newer]) && IsNote(memories[older])
    && !memories[older].status.Candidate?
    && (memories[newer].status.Active? ==> !memories[older].status.Active? && !memories[older].status.Disputed?)
    && memories[newer].revision == memories[older].revision + 1
  }

  // ----- Relations of a fresh record -----

  /** `now` holds `before`, and beyond it exactly one live relation of this kind from `source` to each target. */
  ghost predicate Linked(before: Relations, now: Relations, source: Id, targets: seq<Id>, kind: RelationKind) {
    && (forall r :: r in before ==> r in now && now[r] == before[r])
    && (forall r :: r in now && r !in before ==>
      now[r] == Relation(source, now[r].target, kind, true) && now[r].target in targets)
    && (forall x :: x in targets ==> exists r :: r in now && r !in before && now[r].target == x)
  }

  ghost predicate NoneYet(relations: Relations, source: Id, kind: RelationKind) {
    forall r :: r in relations ==> relations[r].source != source || relations[r].kind != kind
  }

  /** Nothing is ignored: every insertion for a fresh source adds its row. */
  lemma {:induction false} RelateAllLinks(relations: Relations, rids: seq<Id>, source: Id, targets: seq<Id>,
      kind: RelationKind)
    requires |rids| == |targets| && Distinct(rids) && Distinct(targets) && NoneYet(relations, source, kind)
    requires forall r :: r in rids ==> r !in relations
    ensures Linked(relations, RelateAll(relations, rids, source, targets, kind), source, targets, kind)
    ensures RelateAll(relations, rids, source, targets, kind).Keys == relations.Keys + set r | r in rids
    decreases |targets|
  {
    if targets != [] {
      var n := |targets| - 1;
      var front := RelateAll(relations, rids[..n], source, targets[..n], kind);
      RelateAllLinks(relations, rids[..n], source, targets[..n], kind);
      LinkLast(relations, front, rids[n], source, targets[..n], targets[n], kind);
      assert targets[..n] + [targets[n]] == targets && rids[..n] + [rids[n]] == rids;
      assert rids[n] !in rids[..n];
    }
  }

  lemma LinkLast(before: Relations, front: Relations, rid: Id, source: Id, targets: seq<Id>, last: Id,
      kind: RelationKind)
    requires Linked(before, front, source, targets, kind) && rid !in front && last !in targets
      && NoneYet(before, source, kind)
    ensures Relate(front, rid, Relation(source, last, kind, true)) == front[rid := Relation(source, last, kind, true)]
    ensures Linked(before, front[rid := Relation(source, last, kind, true)], source, targets + [last], kind)
  {
  }

  // ----- Storing a record -----

  /** A record fit to be stored: its sources are stored, and minted ids are new. */
  ghost predicate Fit(l: Library, id: Id, m: Memory, rids: seq<Id>, former: seq<Id>, rid: seq<Id>) {
    && |rids| == |m.refs| && |rid| == |former| && id !in l.memories && NewIds(l, rids + rid)
    && Distinct(m.refs) && Distinct(former) && !m.deleted
    && (forall x :: x in m.refs ==> x in l.memories) && (forall x :: x in former ==> x in l.memories)
  }

  /** Between the two rounds of insertions. */
  ghost function Middle(l: Library, id: Id, m: Memory, rids: seq<Id>): Relations
    requires |rids| == |m.refs|
  {
    RelateAll(l.relations, rids, id, m.refs, KindOf(m))
  }

  lemma NewIdsSplit(l: Library, a: seq<Id>, b: seq<Id>)
    requires NewIds(l, a + b)
    ensures Distinct(a) && Distinct(b)
    ensures forall r :: r in a ==> r !in l.relations && r !in b
    ensures forall r :: r in b ==> r !in l.relations
  {
    forall i | 0 <= i < |a| ensures a[i] !in l.relations && a[i] !in b {
      assert (a + b)[i] == a[i];
      forall j | 0 <= j < |b| ensures b[j] != a[i] { assert (a + b)[|a| + j] == b[j]; }
    }
    forall j | 0 <= j < |b| ensures b[j] !in l.relations { assert (a + b)[|a| + j] == b[j]; }
    forall i, j | 0 <= i < j < |b| ensures b[i] != b[j] { assert (a + b)[|a| + i] == b[i] && (a + b)[|a| + j] == b[j]; }
    forall i, j | 0 <= i < j < |a| ensures a[i] != a[j] { assert (a + b)[i] == a[i] && (a + b)[j] == a[j]; }
  }

  /** Storing a record adds exactly its relations. */
  lemma StoredLinks(l: Library, id: Id, m: Memory, rids: seq<Id>, former: seq<Id>, rid: seq<Id>)
    requires AllStored(l) && Fit(l, id, m, rids, former, rid)
    ensures Linked(l.relations, Middle(l, id, m, rids), id, m.refs, KindOf(m))
    ensures Linked(Middle(l, id, m, rids), Stored(l, id, m, rids, former, rid).relations, id, former, Supersedes)
  {
    NewIdsSplit(l, rids, rid);
    RelateAllLinks(l.relations, rids, id, m.refs, KindOf(m));
    RelateAllLinks(Middle(l, id, m, rids), rid, id, former, Supersedes);
  }

  lemma LinkedTargets(before: Relations, now: Relations, source: Id, targets: seq<Id>, kind: RelationKind, x: Id,
      k: RelationKind)
    requires Linked(before, now, source, targets, kind)
    ensures TargetsOf(now, x, k)
      == TargetsOf(before, x, k) + (if x == source && k == kind then set t | t in targets else {})
  {
    forall t | t in TargetsOf(now, x, k)
        ensures t in TargetsOf(before, x, k) || (x == source && k == kind && t in targets) {
      var r :| r in now && now[r].live && now[r].source == x && now[r].kind == k && now[r].target == t;
      assert r in before ==> now[r] == before[r];
    }
    forall t | t in TargetsOf(before, x, k) ensures t in TargetsOf(now, x, k) {
      var r :| r in before && before[r].live && before[r].source == x && before[r].kind == k && before[r].target == t;
      assert now[r] == before[r];
    }
    if x == source && k == kind {
      forall t | t in targets ensures t in TargetsOf(now, x, k) {
        var r :| r in now && r !in before && now[r].target == t;
      }
    }
  }

  lemma StoredKeepsStored(l: Library, id: Id, m: Memory, rids: seq<Id>, former: seq<Id>, rid: seq<Id>)
    requires AllStored(l) && Downward(l) && Fit(l, id, m, rids, former, rid)
    ensures AllStored(Stored(l, id, m, rids, former, rid)) && Downward(Stored(l, id, m, rids, former, rid))
  {
    StoredLinks(l, id, m, rids, former, rid);
  }

  lemma LinkedKeepsMutual(before: Relations, now: Relations, source: Id, targets: seq<Id>, kind: RelationKind)
    requires Mutual(before) && Linked(before, now, source, targets, kind) && !kind.ConflictsWith?
    ensures Mutual(now)
  {
    forall r | r in now && now[r].kind.ConflictsWith? ensures Opposed(now, now[r].target, now[r].source) {
      assert r in before && Opposed(before, before[r].target, before[r].source);
      var q :| q in before && before[q].kind.ConflictsWith? && before[q].source == before[r].target
        && before[q].target == before[r].source;
      assert now[q] == before[q];
    }
  }

  lemma StoredKeepsMutual(l: Library, id: Id, m: Memory, rids: seq<Id>, former: seq<Id>, rid: seq<Id>)
    requires AllStored(l) && Mutual(l.relations) && Fit(l, id, m, rids, former, rid)
    ensures Mutual(Stored(l, id, m, rids, former, rid).relations)
  {
    StoredLinks(l, id, m, rids, former, rid);
    LinkedKeepsMutual(l.relations, Middle(l, id, m, rids), id, m.refs, KindOf(m));
    LinkedKeepsMutual(Middle(l, id, m, rids), Stored(l, id, m, rids, former, rid).relations, id, former, Supersedes);
  }

  lemma StoredKeepsProven(l: Library, id: Id, m: Memory, rids: seq<Id>, former: seq<Id>, rid: seq<Id>)
    requires AllStored(l) && Proven(l) && Fit(l, id, m, rids, former, rid)
    ensures Proven(Stored(l, id, m, rids, former, rid))
  {
    StoredLinks(l, id, m, rids, former, rid);
    var l' := Stored(l, id, m, rids, former, rid);
    forall x | x in l'.memories ensures TargetsMatch(l'.relations, x, KindOf(l'.memories[x]), l'.memories[x].refs) {
      var k := KindOf(l'.memories[x]);
      LinkedTargets(l.relations, Middle(l, id, m, rids), id, m.refs, KindOf(m), x, k);
      LinkedTargets(Middle(l, id, m, rids), l'.relations, id, former, Supersedes, x, k);
      if x == id { assert TargetsOf(l.relations, id, k) == {}; }
    }
  }

  lemma {:induction false} InheritsFrom(memories: Memories, refs: seq<Id>, floor: Classification, x: Id)
    requires x in refs && x in memories
    ensures Rank(memories[x].classification) <= Rank(Inherited(memories, refs, floor))
    decreases |refs|
  {
    var n := |refs| - 1;
    if x in refs[..n] { InheritsFrom(memories, refs[..n], floor, x); }
  }

  /** The record ranks at or above each of its sources. */
  ghost predicate RanksAbove(memories: Memories, m: Memory) {
    forall x :: x in m.refs && x in memories ==> Rank(memories[x].classification) <= Rank(m.classification)
  }

  lemma StoredKeepsClassified(l: Library, id: Id, m: Memory, rids: seq<Id>, former: seq<Id>, rid: seq<Id>)
    requires Classified(l) && Fit(l, id, m, rids, former, rid) && RanksAbove(l.memories, m)
    ensures Classified(Stored(l, id, m, rids, former, rid))
  {
  }

  // ----- Changing statuses -----

  predicate SameRecord(m: Memory, m': Memory) {
    m' == m.(status := m'.status, confirmed := m'.confirmed, version := m'.version)
  }

  /** Only statuses change. */
  ghost predicate Restated(a: Memories, b: Memories) {
    a.Keys == b.Keys && forall x :: x in a ==> x in b && SameRecord(a[x], b[x])
  }

  lemma RestatedKeeps(l: Library, now: Memories)
    requires Restated(l.memories, now)
    ensures AllStored(l) ==> AllStored(l.(memories := now))
    ensures Downward(l) ==> Downward(l.(memories := now))
    ensures Proven(l) ==> Proven(l.(memories := now))
    ensures Classified(l) ==> Classified(l.(memories := now))
  {
    forall x | x in l.memories ensures KindOf(now[x]) == KindOf(l.memories[x]) && now[x].refs == l.memories[x].refs {
      assert SameRecord(l.memories[x], now[x]);
    }
  }

  // ----- Revisions -----

  /** What the new record replaces: notes that have left or can leave it, one revision behind. */
  ghost predicate RevisesProperly(now: Memories, id: Id, former: seq<Id>) {
    forall x :: x in former ==> RevisedPair(now, id, x)
  }

  /** Storing keeps the rule when the statuses of replaced records have moved on with it. */
  lemma StoredKeepsRevised(l: Library, id: Id, m: Memory, rids: seq<Id>, former: seq<Id>, rid: seq<Id>, now: Memories)
    requires AllStored(l) && Revised(l) && Fit(l, id, m, rids, former, rid)
    requires Restated(Stored(l, id, m, rids, former, rid).memories, now) && RevisesProperly(now, id, former)
    requires forall x :: x in l.memories && now[x] != l.memories[x] ==> !Revisable(now[x])
    ensures Revised(Stored(l, id, m, rids, former, rid).(memories := now))
  {
    StoredLinks(l, id, m, rids, former, rid);
    var l' := Stored(l, id, m, rids, former, rid);
    forall r | r in l'.relations && l'.relations[r].kind.Supersedes?
      ensures RevisedPair(now, l'.relations[r].source, l'.relations[r].target)
    {
      if r in l.relations {
        KeepsPair(l.memories, l'.memories, now, l.relations[r].source, l.relations[r].target);
      } else {
        assert KindOf(m) != Supersedes;
      }
    }
  }

  lemma KeepsPair(before: Memories, stored: Memories, now: Memories, newer: Id, older: Id)
    requires RevisedPair(before, newer, older) && Restated(stored, now)
    requires newer in stored && older in stored && stored[newer] == before[newer] && stored[older] == before[older]
    requires now[newer] == before[newer] || !Revisable(now[newer])
    requires now[older] == before[older] || !Revisable(now[older])
    ensures RevisedPair(now, newer, older)
  {
    assert SameRecord(stored[newer], now[newer]) && SameRecord(stored[older], now[older]);
  }

  lemma LeavingKeepsRevised(l: Library, note: Id, status: Status)
    requires Revised(l) && note in l.memories && (status.Retracted? || status.Rejected?)
    ensures Revised(l.(memories := l.memories[note := WithStatus(l.memories[note], status)]))
  {
  }

  lemma ConfirmKeepsRevised(l: Library, note: Id)
    requires AllStored(l) && Revised(l) && note in l.memories && l.memories[note].status.Candidate?
    ensures Revised(l.(memories := Confirmed(l, note)))
  {
    var now := Confirmed(l, note);
    forall r | r in l.relations && l.relations[r].kind.Supersedes?
      ensures RevisedPair(now, l.relations[r].source, l.relations[r].target)
    {
      var newer, older := l.relations[r].source, l.relations[r].target;
      assert RevisedPair(l.memories, newer, older);
      if newer == note { assert older in ReplacedBy(l.relations, note); }
    }
  }

  // ----- Every step -----

  ghost predicate Grown(l: Library) {
    AllStored(l) && Downward(l) && Proven(l) && Classified(l) && Revised(l) && Mutual(l.relations)
  }

  lemma RestoredKeepsGrown(l: Library, id: Id, m: Memory, rids: seq<Id>, former: seq<Id>, rid: seq<Id>, now: Memories)
    requires Grown(l) && Fit(l, id, m, rids, former, rid) && RanksAbove(l.memories, m)
    requires Restated(Stored(l, id, m, rids, former, rid).memories, now) && RevisesProperly(now, id, former)
    requires forall x :: x in l.memories && now[x] != l.memories[x] ==> !Revisable(now[x])
    ensures Grown(Stored(l, id, m, rids, former, rid).(memories := now))
  {
    StoredKeepsStored(l, id, m, rids, former, rid);
    StoredKeepsProven(l, id, m, rids, former, rid);
    StoredKeepsClassified(l, id, m, rids, former, rid);
    StoredKeepsRevised(l, id, m, rids, former, rid, now);
    StoredKeepsMutual(l, id, m, rids, former, rid);
    RestatedKeeps(Stored(l, id, m, rids, former, rid), now);
  }

  lemma ReplacedIsRestated(memories: Memories, former: seq<Id>)
    ensures Restated(memories, Replaced(memories, former))
    ensures forall x :: x in memories && Replaced(memories, former)[x] != memories[x] ==>
      x in former && !Revisable(Replaced(memories, former)[x])
  {
  }

  lemma InheritedRanksAbove(l: Library, m: Memory, floor: Classification)
    requires m.classification == Inherited(l.memories, m.refs, floor)
    ensures RanksAbove(l.memories, m)
  {
    forall x | x in m.refs && x in l.memories ensures Rank(l.memories[x].classification) <= Rank(m.classification) {
      InheritsFrom(l.memories, m.refs, floor, x);
    }
  }

  lemma AddNoteKeeps(l: Library, a: Action)
    requires Grown(l) && a.AddNote? && Allowed(l, a) && Minted(l, a)
    ensures Grown(Done(l, a))
  {
    var revision := if a.former.Some? then NextRevision(l, a.former) else a.revision;
    var m, former := NoteRow(l, a.thread, a.content, a.floor, a.refs, revision), AsList(a.former);
    var stored := Stored(l, a.id, m, a.rids, former, a.rid);
    InheritedRanksAbove(l, m, a.floor);
    ReplacedIsRestated(stored.memories, former);
    NoteRevisesFormer(l, a, m);
    RestoredKeepsGrown(l, a.id, m, a.rids, former, a.rid, Replaced(stored.memories, former));
  }

  lemma NoteRevisesFormer(l: Library, a: Action, m: Memory)
    requires a.AddNote? && Allowed(l, a) && Minted(l, a)
    requires a.former.Some? ==> IsNote(m) && m.status.Candidate? && m.revision == NextRevision(l, a.former)
    ensures RevisesProperly(Replaced(l.memories[a.id := m], AsList(a.former)), a.id, AsList(a.former))
    ensures forall x :: x in AsList(a.former) ==> x in l.memories
  {
  }

  lemma ProposeKeeps(l: Library, a: Action)
    requires Grown(l) && a.ProposeRevision? && Allowed(l, a) && Minted(l, a)
    ensures Grown(Done(l, a))
  {
    var m := NoteRow(l, a.thread, a.content, a.floor, a.refs, NextRevision(l, Some(a.related)));
    InheritedRanksAbove(l, m, a.floor);
    RestoredKeepsGrown(l, a.id, m, a.rids, [a.related], a.rid, Stored(l, a.id, m, a.rids, [a.related], a.rid).memories);
  }

  lemma SummarizeKeeps(l: Library, a: Action)
    requires Grown(l) && a.Summarize? && Allowed(l, a) && Minted(l, a)
    ensures Grown(Done(l, a))
  {
    var m, previous :=
      SummaryRow(l, a.thread, a.content, a.floor, a.refs, NextRevision(l, a.previous)), AsList(a.previous);
    var stored := Stored(l, a.id, m, a.rids, [], []);
    assert a.rids + [] == a.rids;
    InheritedRanksAbove(l, m, a.floor);
    ReplacedIsRestated(stored.memories, previous);
    RestoredKeepsGrown(l, a.id, m, a.rids, [], [], Replaced(stored.memories, previous));
  }

  lemma PromoteKeeps(l: Library, a: Action)
    requires Grown(l) && a.Promote? && Allowed(l, a) && Minted(l, a)
    ensures Grown(Done(l, a))
  {
    if !AlreadyDone(l, a) {
      var m := PromotedRow(l.memories[a.note], a.note, a.target);
      assert a.rids + [] == a.rids;
      RestoredKeepsGrown(l, a.id, m, a.rids, [], [], Stored(l, a.id, m, a.rids, [], []).memories);
    }
  }

  lemma RecordKeeps(l: Library, a: Action)
    requires Grown(l) && a.Record? && Allowed(l, a) && Minted(l, a)
    ensures Grown(Done(l, a))
  {
    var m := Memory(ThreadScope, Some(a.thread), Some(a.run), Transcript, a.content, [], a.classification, false,
      Active, false, NotIndexed, 1, 1);
    RestoredKeepsGrown(l, a.id, m, [], [], [], Stored(l, a.id, m, [], [], []).memories);
  }

  lemma StatusStepKeeps(l: Library, a: Action)
    requires Grown(l) && (a.Confirm? || a.Retract? || a.Reject?) && Allowed(l, a) && Minted(l, a)
    ensures Grown(Done(l, a))
  {
    if !AlreadyDone(l, a) {
      match a
      case Confirm(_, note, _) => ConfirmKeeps(l, note);
      case Retract(_, note, _) => LeavingKeeps(l, note, Retracted);
      case Reject(_, note, _) => LeavingKeeps(l, note, Rejected);
    }
  }

  lemma ConfirmKeeps(l: Library, note: Id)
    requires Grown(l) && note in l.memories && l.memories[note].status.Candidate?
    ensures Grown(l.(memories := Confirmed(l, note)))
  {
    ConfirmKeepsRevised(l, note);
    RestatedKeeps(l, Confirmed(l, note));
  }

  lemma LeavingKeeps(l: Library, note: Id, status: Status)
    requires Grown(l) && note in l.memories && (status.Retracted? || status.Rejected?)
    ensures Grown(l.(memories := l.memories[note := WithStatus(l.memories[note], status)]))
  {
    LeavingKeepsRevised(l, note, status);
    RestatedKeeps(l, l.memories[note := WithStatus(l.memories[note], status)]);
  }

  // ----- Conflicts -----

  /** `now` is `before` with nothing but conflicts between the two records added, if anything. */
  ghost predicate ConflictsAdded(before: Relations, now: Relations, a: Id, b: Id) {
    && (forall r :: r in before ==> r in now && now[r] == before[r])
    && (forall r :: r in now && r !in before ==>
         now[r] == Relation(a, b, ConflictsWith, true) || now[r] == Relation(b, a, ConflictsWith, true))
  }

  lemma ConflictingAdds(relations: Relations, a: Id, b: Id, rid: seq<Id>)
    requires |rid| == 2 && rid[0] != rid[1] && rid[0] !in relations && rid[1] !in relations
    ensures ConflictsAdded(relations, Conflicting(relations, a, b, rid), a, b)
    ensures Opposed(Conflicting(relations, a, b, rid), a, b) && Opposed(Conflicting(relations, a, b, rid), b, a)
  {
    var once := Relate(relations, rid[0], Relation(a, b, ConflictsWith, true));
    var twice := Conflicting(relations, a, b, rid);
    assert Opposed(once, a, b) by {
      if Taken(relations, Relation(a, b, ConflictsWith, true)) {
        assert once == relations;
      } else {
        assert once[rid[0]] == Relation(a, b, ConflictsWith, true);
      }
    }
    var q :| q in once && once[q].kind.ConflictsWith? && once[q].source == a && once[q].target == b;
    assert q in twice && twice[q] == once[q];
    assert Opposed(twice, b, a) by {
      if !Taken(once, Relation(b, a, ConflictsWith, true)) {
        assert twice[rid[1]] == Relation(b, a, ConflictsWith, true);
      }
    }
  }

  lemma ConflictsKeepTargets(before: Relations, now: Relations, a: Id, b: Id, x: Id, kind: RelationKind)
    requires ConflictsAdded(before, now, a, b) && !kind.ConflictsWith?
    ensures TargetsOf(now, x, kind) == TargetsOf(before, x, kind)
  {
    forall t | t in TargetsOf(now, x, kind) ensures t in TargetsOf(before, x, kind) {
      var r :| r in now && now[r].live && now[r].source == x && now[r].kind == kind && now[r].target == t;
      assert r in before;
    }
    forall t | t in TargetsOf(before, x, kind) ensures t in TargetsOf(now, x, kind) {
      var r :| r in before && before[r].live && before[r].source == x && before[r].kind == kind
        && before[r].target == t;
      assert now[r] == before[r];
    }
  }

  lemma ConflictsKeepMutual(before: Relations, now: Relations, a: Id, b: Id)
    requires Mutual(before) && ConflictsAdded(before, now, a, b) && Opposed(now, a, b) && Opposed(now, b, a)
    ensures Mutual(now)
  {
    forall r | r in now && now[r].kind.ConflictsWith? ensures Opposed(now, now[r].target, now[r].source) {
      if r in before {
        assert Opposed(before, before[r].target, before[r].source);
        var q :| q in before && before[q].kind.ConflictsWith? && before[q].source == before[r].target
          && before[q].target == before[r].source;
        assert now[q] == before[q];
      }
    }
  }

  lemma ConflictsKeepProven(l: Library, now: Relations, a: Id, b: Id)
    requires Proven(l) && ConflictsAdded(l.relations, now, a, b)
    ensures Proven(l.(relations := now))
  {
    forall x | x in l.memories ensures TargetsMatch(now, x, KindOf(l.memories[x]), l.memories[x].refs) {
      ConflictsKeepTargets(l.relations, now, a, b, x, KindOf(l.memories[x]));
    }
  }

  lemma ConflictKeeps(l: Library, a: Action)
    requires Grown(l) && a.RecordConflict? && Allowed(l, a) && Minted(l, a)
    ensures Grown(Done(l, a)) && Done(l, a).memories == l.memories
    ensures Opposed(Done(l, a).relations, a.note, a.related) && Opposed(Done(l, a).relations, a.related, a.note)
    ensures ConflictsAdded(l.relations, Done(l, a).relations, a.note, a.related)
  {
    ConflictDone(l, a);
    ConflictsKeepGrown(l, Done(l, a).relations, a.note, a.related);
  }

  lemma ConflictDone(l: Library, a: Action)
    requires a.RecordConflict? && Allowed(l, a) && Minted(l, a)
    ensures a.note in l.memories && a.related in l.memories && Done(l, a) == l.(relations := Done(l, a).relations)
    ensures ConflictsAdded(l.relations, Done(l, a).relations, a.note, a.related)
    ensures Opposed(Done(l, a).relations, a.note, a.related) && Opposed(Done(l, a).relations, a.related, a.note)
  {
    assert a.rid[0] in a.rid && a.rid[1] in a.rid;
    ConflictingAdds(l.relations, a.note, a.related, a.rid);
  }

  lemma ConflictsKeepGrown(l: Library, now: Relations, a: Id, b: Id)
    requires Grown(l) && a in l.memories && b in l.memories && ConflictsAdded(l.relations, now, a, b)
    requires Opposed(now, a, b) && Opposed(now, b, a)
    ensures Grown(l.(relations := now))
  {
    ConflictsKeepProven(l, now, a, b);
    ConflictsKeepMutual(l.relations, now, a, b);
    ConflictsKeepStored(l, now, a, b);
    ConflictsKeepRevised(l, now, a, b);
  }

  lemma ConflictsKeepStored(l: Library, now: Relations, a: Id, b: Id)
    requires AllStored(l) && Downward(l) && a in l.memories && b in l.memories && ConflictsAdded(l.relations, now, a, b)
    ensures AllStored(l.(relations := now)) && Downward(l.(relations := now))
  {
    forall r | r in now ensures now[r].live && now[r].source in l.memories && now[r].target in l.memories {
      assert r in l.relations ==> now[r] == l.relations[r];
    }
  }

  lemma ConflictsKeepRevised(l: Library, now: Relations, a: Id, b: Id)
    requires Revised(l) && ConflictsAdded(l.relations, now, a, b)
    ensures Revised(l.(relations := now))
  {
    forall r | r in now && now[r].kind.Supersedes? ensures RevisedPair(l.memories, now[r].source, now[r].target) {
      assert r in l.relations && now[r] == l.relations[r];
    }
  }

  lemma StepKeepsGrown(l: Library, a: Action)
    requires Grown(l) && Allowed(l, a) && Minted(l, a)
    ensures Grown(Done(l, a))
  {
    match a
    case Record(_, _, _, _, _) => RecordKeeps(l, a);
    case AddNote(_, _, _, _, _, _, _, _, _, _) => AddNoteKeeps(l, a);
    case ProposeRevision(_, _, _, _, _, _, _, _) => ProposeKeeps(l, a);
    case RecordConflict(_, _, _, _) => ConflictKeeps(l, a);
    case Promote(_, _, _, _, _, _) => PromoteKeeps(l, a);
    case Summarize(_, _, _, _, _, _, _) => SummarizeKeeps(l, a);
    case _ => StatusStepKeeps(l, a);
  }

  lemma {:induction false} EveryGrowthIsGrown(h: seq<Library>, actions: seq<Action>, k: nat)
    requires Growth(h, actions) && k < |h|
    ensures Grown(h[k])
    decreases k
  {
    if k > 0 {
      EveryGrowthIsGrown(h, actions, k - 1);
      StepKeepsGrown(h[k - 1], actions[k - 1]);
    }
  }
}
