/** What each note step stores and changes, row by row, and which records it may touch. */
module NoteLaws {
  import opened Basics
  import opened Messages
  import opened Records
  import opened DeletionPlan
  import opened Provenance
  import opened ProvenanceLaws

  // ----- What a step stores -----

  /** The class is the floor or that of a source, and at least each of them. */
  ghost predicate HighestOfSources(memories: Memories, refs: seq<Id>, floor: Classification, c: Classification) {
    && (c == floor || exists x :: x in refs && x in memories && memories[x].classification == c)
    && Rank(floor) <= Rank(c)
    && forall x :: x in refs && x in memories ==> Rank(memories[x].classification) <= Rank(c)
  }

  lemma {:induction false} InheritedIsHighest(memories: Memories, refs: seq<Id>, floor: Classification)
    ensures HighestOfSources(memories, refs, floor, Inherited(memories, refs, floor))
    decreases |refs|
  {
    if refs != [] {
      var n := |refs| - 1;
      InheritedIsHighest(memories, refs[..n], floor);
      assert refs == refs[..n] + [refs[n]];
    }
  }

  /** An unconfirmed candidate of the thread with this content and these sources. */
  ghost predicate IsCandidate(memories: Memories, m: Memory, thread: Id, content: string, refs: seq<Id>,
      floor: Classification) {
    && m.scope == ThreadScope && m.thread == Some(thread) && m.run == None && m.origin == StructuredNote
    && m.content == content && m.refs == refs && m.status == Candidate && !m.confirmed && !m.deleted
    && m.index == NotIndexed && HighestOfSources(memories, refs, floor, m.classification)
  }

  /** Every record but these is as before. */
  ghost predicate OthersSame(before: Memories, now: Memories, changed: set<Id>) {
    && before.Keys <= now.Keys <= before.Keys + changed
    && forall x :: x in before && x !in changed ==> now[x] == before[x]
  }

  /** A record replaced: a candidate is rejected, anything else superseded, and nothing else of it changes. */
  predicate MovedOn(was: Memory, now: Memory) {
    && now.status == (if was.status == Candidate then Rejected else Superseded)
    && now == was.(status := now.status, version := was.version + 1)
  }

  /** A note is stored as a candidate, one revision after the note it replaces, which moves on. */
  lemma AddNoteStores(l: Library, a: Action)
    requires a.AddNote? && Allowed(l, a) && Minted(l, a)
    ensures var now := Done(l, a).memories;
            && a.id in now && IsCandidate(l.memories, now[a.id], a.thread, a.content, a.refs, a.floor)
            && now[a.id].version == 1
            && (a.former.None? ==> now[a.id].revision == a.revision && OthersSame(l.memories, now, {a.id}))
            && (a.former.Some? ==>
              && a.former.value in l.memories && a.former.value in now
              && now[a.id].revision == l.memories[a.former.value].revision + 1
              && MovedOn(l.memories[a.former.value], now[a.former.value])
              && OthersSame(l.memories, now, {a.id, a.former.value}))
  {
    InheritedIsHighest(l.memories, a.refs, a.floor);
  }

  /** A proposed revision is stored as a candidate; the note it would replace keeps its status until it is confirmed. */
  lemma ProposalStores(l: Library, a: Action)
    requires a.ProposeRevision? && Allowed(l, a) && Minted(l, a)
    ensures var now := Done(l, a).memories;
            && a.id in now && IsCandidate(l.memories, now[a.id], a.thread, a.content, a.refs, a.floor)
            && a.related in l.memories && now[a.id].revision == l.memories[a.related].revision + 1
            && OthersSame(l.memories, now, {a.id})
  {
    InheritedIsHighest(l.memories, a.refs, a.floor);
  }

  /** A promotion is an active, confirmed record of the broader scope with the note's content and class and the note as
      its only source; the note itself does not change. */
  lemma PromotionStores(l: Library, a: Action)
    requires a.Promote? && Allowed(l, a) && Minted(l, a)
    ensures Promotions(l, a.note, a.target) != {} ==> Done(l, a) == l
    ensures Promotions(l, a.note, a.target) == {} ==>
      var now := Done(l, a).memories;
      && a.id in now && a.note in l.memories && OthersSame(l.memories, now, {a.id})
      && var was, m := l.memories[a.note], now[a.id];
         && m.scope == a.target && m.thread == None && m.run == None && m.origin == NotePromotion
         && m.content == was.content && m.classification == was.classification && m.refs == [a.note]
         && m.status == Active && m.confirmed && !m.deleted && m.revision == 1
         && m.index == if a.target == WorkspaceScope && was.classification != Secret then PendingIndex else NotIndexed
  {
  }

  /** A summary is stored active, and the summary before it is superseded. */
  lemma SummaryStores(l: Library, a: Action)
    requires a.Summarize? && Allowed(l, a) && Minted(l, a)
    ensures var now := Done(l, a).memories;
            && a.id in now && now[a.id].origin == RollingSummary && now[a.id].status == Active
            && now[a.id].content == a.content && now[a.id].refs == a.refs && now[a.id].thread == Some(a.thread)
            && now[a.id].scope == ThreadScope && !now[a.id].confirmed && !now[a.id].deleted
            && HighestOfSources(l.memories, a.refs, a.floor, now[a.id].classification)
            && (a.previous.None? ==> now[a.id].revision == 1 && OthersSame(l.memories, now, {a.id}))
            && (a.previous.Some? ==>
              && a.previous.value in l.memories && a.previous.value in now
              && now[a.id].revision == l.memories[a.previous.value].revision + 1
              && MovedOn(l.memories[a.previous.value], now[a.previous.value])
              && now[a.previous.value].status == Superseded
              && OthersSame(l.memories, now, {a.id, a.previous.value}))
  {
    InheritedIsHighest(l.memories, a.refs, a.floor);
    if a.previous.Some? {
      assert a.previous.value in AsList(a.previous);
      assert a.previous.value in ActiveSummaries(l, a.thread);
    }
  }

  /** A transcript record keeps its content and its class. */
  lemma RecordStores(l: Library, a: Action)
    requires a.Record? && Allowed(l, a) && Minted(l, a)
    ensures var now := Done(l, a).memories;
            && a.id in now && OthersSame(l.memories, now, {a.id})
            && now[a.id].content == a.content && now[a.id].classification == a.classification && now[a.id].refs == []
            && now[a.id].thread == Some(a.thread) && now[a.id].run == Some(a.run) && now[a.id].origin == Transcript
            && now[a.id].status == Active && !now[a.id].deleted
  {
  }

  // ----- What a step changes -----

  /** A live relation says that `newer` replaces `older`. */
  ghost predicate Replaces(relations: Relations, newer: Id, older: Id) {
    exists r ::
      r in relations && relations[r].live && relations[r].kind == Supersedes && relations[r].source == newer
        && relations[r].target == older
  }

  /** A first confirmation makes the note active and confirmed, supersedes the active and disputed notes it replaces,
      and changes no other record. */
  lemma ConfirmChanges(l: Library, a: Action, x: Id)
    requires a.Confirm? && Allowed(l, a) && x in l.memories
    ensures a.note in l.memories && x in Done(l, a).memories && Done(l, a).relations == l.relations
    ensures var was, now := l.memories[x], Done(l, a).memories[x];
            now == if l.memories[a.note].status == Active then was
              else if x == a.note then was.(status := Active, confirmed := true, version := was.version + 1)
              else if Replaces(l.relations, a.note, x) && (was.status == Active || was.status == Disputed)
              then was.(status := Superseded, version := was.version + 1)
              else was
  {
    ReplacedMeans(l.relations, a.note, x);
  }

  lemma ReplacedMeans(relations: Relations, note: Id, x: Id)
    ensures x in ReplacedBy(relations, note) <==> Replaces(relations, note, x)
  {
  }

  /** Retracting and rejecting change the status of that one note, once. */
  lemma LeavingChanges(l: Library, a: Action, x: Id)
    requires (a.Retract? || a.Reject?) && Allowed(l, a) && x in l.memories
    ensures a.note in l.memories && x in Done(l, a).memories && Done(l, a).relations == l.relations
    ensures var was, now, left := l.memories[x], Done(l, a).memories[x], if a.Retract? then Retracted else Rejected;
            now == if x != a.note || was.status == left then was else was.(status := left, version := was.version + 1)
  {
  }

  // ----- Who may be touched -----

  /** Stored, not deleted, and of this thread or of none. */
  predicate Within(l: Library, thread: Id, x: Id) {
    x in l.memories && !l.memories[x].deleted && (l.memories[x].thread.Some? ==> l.memories[x].thread.value == thread)
  }

  /** A note, promotion or retained copy within reach of the thread. */
  predicate NoteWithin(l: Library, thread: Id, x: Id) {
    Within(l, thread, x) && l.memories[x].origin != Transcript && l.memories[x].origin != RollingSummary
  }

  /** A new note needs sources within reach, each named once, at least one if a model made it; what it replaces must be
      a note of the same thread that is still in use. */
  lemma AddNoteNeeds(l: Library, a: Action)
    requires a.AddNote?
    ensures Allowed(l, a) <==>
      && (forall x :: x in a.refs ==> Within(l, a.thread, x))
      && (forall i, j :: 0 <= i < j < |a.refs| ==> a.refs[i] != a.refs[j])
      && (a.byModel ==> a.refs != []) && a.revision >= 1
      && (a.former.Some? ==>
        NoteWithin(l, a.thread, a.former.value) && l.memories[a.former.value].thread.Some?
          && l.memories[a.former.value].status in {Candidate, Active, Disputed})
  {
  }

  /** A proposed revision needs sources and an active note to revise; a conflict joins two different notes; a summary
      needs sources and follows the one active summary of its thread, if there is one. */
  lemma ProposalsNeed(l: Library, a: Action)
    ensures a.ProposeRevision? || a.Summarize? ==>
      (Allowed(l, a) ==>
        a.refs != [] && (forall x :: x in a.refs ==> Within(l, a.thread, x))
          && forall i, j :: 0 <= i < j < |a.refs| ==> a.refs[i] != a.refs[j])
    ensures a.ProposeRevision? && Allowed(l, a) ==>
      NoteWithin(l, a.thread, a.related) && l.memories[a.related].status == Active
    ensures a.RecordConflict? ==>
      (Allowed(l, a) <==>
        NoteWithin(l, a.thread, a.note) && NoteWithin(l, a.thread, a.related) && a.note != a.related)
    ensures a.Summarize? && Allowed(l, a) ==>
      forall x: Id :: IsActiveSummary(l, a.thread, x) <==> a.previous == Some(x)
  {
    if a.Summarize? && Allowed(l, a) {
      forall x: Id ensures IsActiveSummary(l, a.thread, x) <==> a.previous == Some(x) {
        assert x in ActiveSummaries(l, a.thread) <==> x in AsList(a.previous);
      }
    }
  }

  predicate IsActiveSummary(l: Library, thread: Id, x: Id) {
    x in l.memories && !l.memories[x].deleted && l.memories[x].origin == RollingSummary
      && l.memories[x].thread == Some(thread) && l.memories[x].status == Active
  }

  /** A confirmation, a retraction, a rejection and a promotion each need the expected revision of a note within reach,
      in one of these statuses; a promotion goes to a broader scope, and only if no earlier one there has ended. */
  lemma ChangesNeed(l: Library, a: Action)
    requires a.Confirm? || a.Retract? || a.Reject? || a.Promote?
    ensures Allowed(l, a) ==> NoteWithin(l, a.thread, a.note) && l.memories[a.note].revision == a.revision
    ensures NoteWithin(l, a.thread, a.note) && l.memories[a.note].revision == a.revision ==>
      var m := l.memories[a.note];
      && (a.Confirm? ==> (Allowed(l, a) <==> m.status == Candidate || (m.status == Active && m.confirmed)))
      && (a.Retract? ==> (Allowed(l, a) <==> m.status in {Candidate, Active, Disputed, Retracted}))
      && (a.Reject? ==> (Allowed(l, a) <==> m.status in {Candidate, Rejected}))
      && (a.Promote? ==> (Allowed(l, a) <==>
        m.status == Active && m.confirmed
          && ((m.scope == ThreadScope && a.target != ThreadScope)
            || (m.scope == SessionScope && a.target == WorkspaceScope))
          && forall x :: PromotedTo(l, a.note, x, a.target) ==> l.memories[x].status == Active))
  {
    if a.Promote? {
      forall x ensures x in Promotions(l, a.note, a.target) <==> PromotedTo(l, a.note, x, a.target) { }
    }
  }

  /** A live relation says that `x` is a promotion of the note to this scope. */
  ghost predicate PromotedTo(l: Library, note: Id, x: Id, target: Scope) {
    x in l.memories && l.memories[x].scope == target && LeadsTo(l.relations, x, note, PromotedFrom)
  }
}
