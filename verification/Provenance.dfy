/** How the provenance graph grows: the note, promotion and summary steps of `secminiagent/memory/notes.py`,
    `secminiagent/memory/long_term_memory.py` and `secminiagent/memory/summarizer.py`, each one transaction. */
module Provenance {
  import opened Basics
  import opened Messages
  import opened Records
  import opened DeletionPlan

  /** The stored records and relations. `births` says when each record was stored, on a clock that ticks once a
      record. */
  datatype Library = Library(memories: Memories, relations: Relations, births: map<Id, nat>, clock: nat)

  // ----- Rows -----

  /** The unique index holds one row for each source, target and kind, live or not. */
  predicate Taken(relations: Relations, rel: Relation) {
    exists r ::
      r in relations && relations[r].source == rel.source && relations[r].target == rel.target
        && relations[r].kind == rel.kind
  }

  /** INSERT OR IGNORE of a relation row. */
  function Relate(relations: Relations, rid: Id, rel: Relation): Relations {
    if rid in relations || Taken(relations, rel) then relations else relations[rid := rel]
  }

  /** One relation for each target, in order. */
  function RelateAll(relations: Relations, rids: seq<Id>, source: Id, targets: seq<Id>, kind: RelationKind): Relations
    requires |rids| == |targets|
  {
    if targets == [] then relations else
      var n := |targets| - 1;
      Relate(RelateAll(relations, rids[..n], source, targets[..n], kind), rids[n],
        Relation(source, targets[n], kind, true))
  }

  function WithStatus(m: Memory, status: Status): Memory {
    m.(status := status, version := m.version + 1)
  }

  function AsList(o: Option<Id>): seq<Id> {
    match o case None => [] case Some(x) => [x]
  }

  /** The highest of a floor and the classifications of the sources. */
  function Inherited(memories: Memories, refs: seq<Id>, floor: Classification): Classification {
    if refs == [] then floor else
      var x := refs[|refs| - 1];
      var rest := Inherited(memories, refs[..|refs| - 1], floor);
      if x in memories then Higher(rest, memories[x].classification) else rest
  }

  /** The kind of relation that ties a record to the sources its payload names. */
  function KindOf(m: Memory): RelationKind {
    if m.origin.RollingSummary? then Summarizes else NoteKind(m)
  }

  // ----- Steps -----

  /** A revision is made from sources and replaces a former note; `rids` and `rid` are the ids minted for its
      relations. */
  datatype Action =
    | Record(id: Id, thread: Id, run: Id, content: string, classification: Classification)
    | AddNote(id: Id, thread: Id, content: string, floor: Classification, refs: seq<Id>, byModel: bool, revision: nat,
              former: Option<Id>, rids: seq<Id>, rid: seq<Id>)
    | ProposeRevision(id: Id, thread: Id, content: string, floor: Classification, refs: seq<Id>, related: Id,
      rids: seq<Id>, rid: seq<Id>)
    | RecordConflict(thread: Id, note: Id, related: Id, rid: seq<Id>)
    | Confirm(thread: Id, note: Id, revision: nat)
    | Retract(thread: Id, note: Id, revision: nat)
    | Reject(thread: Id, note: Id, revision: nat)
    | Promote(id: Id, thread: Id, note: Id, revision: nat, target: Scope, rids: seq<Id>)
    | Summarize(id: Id, thread: Id, content: string, floor: Classification, refs: seq<Id>, previous: Option<Id>,
      rids: seq<Id>)

  /** Records of the thread and records without one. */
  predicate Reachable(l: Library, thread: Id, id: Id) {
    LiveRow(l.memories, id) && (l.memories[id].thread == None || l.memories[id].thread == Some(thread))
  }

  predicate NoteOf(l: Library, thread: Id, id: Id) {
    Reachable(l, thread, id) && IsNote(l.memories[id])
  }

  predicate Revisable(m: Memory) {
    m.status.Candidate? || m.status.Active? || m.status.Disputed?
  }

  predicate RevisableNoteIn(l: Library, thread: Id, id: Id) {
    NoteOf(l, thread, id) && l.memories[id].thread == Some(thread) && Revisable(l.memories[id])
  }

  function ScopeRank(s: Scope): nat {
    match s case ThreadScope => 0 case SessionScope => 1 case WorkspaceScope => 2
  }

  /** The promotions of a note to one scope. */
  function Promotions(l: Library, note: Id, target: Scope): set<Id> {
    set r | r in l.relations && l.relations[r].live && l.relations[r].kind.PromotedFrom?
      && l.relations[r].target == note
      && l.relations[r].source in l.memories && l.memories[l.relations[r].source].scope == target ::
        l.relations[r].source
  }

  function ActiveSummaries(l: Library, thread: Id): set<Id> {
    set x | x in l.memories && l.memories[x].origin.RollingSummary? && l.memories[x].thread == Some(thread)
      && l.memories[x].status.Active? && !l.memories[x].deleted
  }

  predicate SourcesOk(l: Library, thread: Id, refs: seq<Id>, byModel: bool) {
    Distinct(refs) && (forall x :: x in refs ==> Reachable(l, thread, x)) && (byModel ==> refs != [])
  }

  /** The guards of each step. */
  predicate Allowed(l: Library, a: Action) {
    match a
    case Record(_, _, _, _, _) => true
    case AddNote(_, thread, _, _, refs, byModel, revision, former, _, _) =>
      && SourcesOk(l, thread, refs, byModel) && revision >= 1
      && (former.Some? ==> RevisableNoteIn(l, thread, former.value))
    case ProposeRevision(_, thread, _, _, refs, related, _, _) =>
      SourcesOk(l, thread, refs, true) && NoteOf(l, thread, related) && l.memories[related].status.Active?
    case RecordConflict(thread, note, related, _) =>
      NoteOf(l, thread, note) && NoteOf(l, thread, related) && note != related
    case Confirm(thread, note, revision) =>
      && NoteOf(l, thread, note) && l.memories[note].revision == revision
      && (l.memories[note].status.Candidate? || (l.memories[note].status.Active? && l.memories[note].confirmed))
    case Retract(thread, note, revision) =>
      NoteOf(l, thread, note) && l.memories[note].revision == revision
        && (Revisable(l.memories[note]) || l.memories[note].status.Retracted?)
    case Reject(thread, note, revision) =>
      && NoteOf(l, thread, note) && l.memories[note].revision == revision
      && (l.memories[note].status.Candidate? || l.memories[note].status.Rejected?)
    case Promote(_, thread, note, revision, target, _) =>
      && NoteOf(l, thread, note) && l.memories[note].revision == revision && l.memories[note].status.Active?
      && l.memories[note].confirmed && ScopeRank(target) > ScopeRank(l.memories[note].scope)
      && forall x :: x in Promotions(l, note, target) ==> l.memories[x].status.Active?
    case Summarize(_, thread, _, _, refs, previous, _) =>
      SourcesOk(l, thread, refs, true) && ActiveSummaries(l, thread) == set x | x in AsList(previous)
  }

  /** Minted ids are new and distinct, one for each row. */
  predicate Minted(l: Library, a: Action) {
    match a
    case Record(id, _, _, _, _) => id !in l.memories
    case AddNote(id, _, _, _, refs, _, _, former, rids, rid) => id !in l.memories && NewIds(l, rids + rid)
      && |rids| == |refs| && |rid| == |AsList(former)|
    case ProposeRevision(id, _, _, _, refs, _, rids, rid) => id !in l.memories && NewIds(l, rids + rid)
      && |rids| == |refs| && |rid| == 1
    case RecordConflict(_, _, _, rid) => NewIds(l, rid) && |rid| == 2
    case Promote(id, _, _, _, _, rids) => id !in l.memories && NewIds(l, rids) && |rids| == 1
    case Summarize(id, _, _, _, refs, _, rids) => id !in l.memories && NewIds(l, rids) && |rids| == |refs|
    case _ => true
  }

  predicate NewIds(l: Library, rids: seq<Id>) {
    Distinct(rids) && forall r :: r in rids ==> r !in l.relations
  }

  /** Stores a record with its relations: to the sources its payload names, and to what it replaces. */
  function Stored(l: Library, id: Id, m: Memory, rids: seq<Id>, former: seq<Id>, rid: seq<Id>): Library
    requires |rids| == |m.refs| && |rid| == |former|
  {
    Library(l.memories[id := m],
      RelateAll(RelateAll(l.relations, rids, id, m.refs, KindOf(m)), rid, id, former, Supersedes),
      l.births[id := l.clock], l.clock + 1)
  }

  function NoteRow(l: Library, thread: Id, content: string, floor: Classification, refs: seq<Id>,
      revision: nat): Memory {
    Memory(ThreadScope, Some(thread), None, StructuredNote, content, refs, Inherited(l.memories, refs, floor), false,
      Candidate, false,
           NotIndexed, revision, 1)
  }

  function PromotedRow(m: Memory, note: Id, target: Scope): Memory {
    Memory(target, None, None, NotePromotion, m.content, [note], m.classification, true, Active, false,
           if target.WorkspaceScope? && !m.classification.Secret? then PendingIndex else NotIndexed, 1, 1)
  }

  function SummaryRow(l: Library, thread: Id, content: string, floor: Classification, refs: seq<Id>,
      revision: nat): Memory {
    Memory(ThreadScope, Some(thread), None, RollingSummary, content, refs, Inherited(l.memories, refs, floor), false,
      Active, false,
           NotIndexed, revision, 2)
  }

  /** A conflict is recorded from both sides. */
  function Conflicting(relations: Relations, a: Id, b: Id, rid: seq<Id>): Relations
    requires |rid| == 2
  {
    Relate(Relate(relations, rid[0], Relation(a, b, ConflictsWith, true)), rid[1], Relation(b, a, ConflictsWith, true))
  }

  /** A replaced candidate is rejected, anything else superseded. */
  function Replaced(memories: Memories, former: seq<Id>): Memories {
    map x | x in memories ::
      if x in former
          then WithStatus(memories[x], if memories[x].status.Candidate? then Rejected else Superseded) else memories[x]
  }

  /** What a note replaces, by live relations. */
  function ReplacedBy(relations: Relations, note: Id): set<Id> {
    TargetsOf(relations, note, Supersedes)
  }

  /** Confirming a note supersedes everything it replaces that was still in use. */
  function Confirmed(l: Library, note: Id): Memories
    requires note in l.memories
  {
    map x | x in l.memories ::
      if x == note then WithStatus(l.memories[x], Active).(confirmed := true)
      else if x in ReplacedBy(l.relations, note) && (l.memories[x].status.Active? || l.memories[x].status.Disputed?)
      then WithStatus(l.memories[x], Superseded)
      else l.memories[x]
  }

  function NextRevision(l: Library, former: Option<Id>): nat {
    match former case None => 1 case Some(x) => if x in l.memories then l.memories[x].revision + 1 else 1
  }

  /** Confirming, retracting, rejecting or promoting again changes nothing. */
  predicate AlreadyDone(l: Library, a: Action) {
    match a
    case Confirm(_, note, _) => note in l.memories && l.memories[note].status.Active?
    case Retract(_, note, _) => note in l.memories && l.memories[note].status.Retracted?
    case Reject(_, note, _) => note in l.memories && l.memories[note].status.Rejected?
    case Promote(_, _, note, _, target, _) => Promotions(l, note, target) != {}
    case _ => false
  }

  function Done(l: Library, a: Action): Library
    requires Allowed(l, a) && Minted(l, a)
  {
    if AlreadyDone(l, a) then l else
      match a
      case Record(id, thread, run, content, classification) =>
        Stored(l, id,
          Memory(ThreadScope, Some(thread), Some(run), Transcript, content, [], classification, false, Active, false,
            NotIndexed, 1, 1), [], [], [])
      case AddNote(id, thread, content, floor, refs, _, revision, former, rids, rid) =>
        var m := NoteRow(l, thread, content, floor, refs, if former.Some? then NextRevision(l, former) else revision);
        var stored := Stored(l, id, m, rids, AsList(former), rid);
        stored.(memories := Replaced(stored.memories, AsList(former)))
      case ProposeRevision(id, thread, content, floor, refs, related, rids, rid) =>
        Stored(l, id, NoteRow(l, thread, content, floor, refs, NextRevision(l, Some(related))), rids, [related], rid)
      case RecordConflict(_, note, related, rid) => l.(relations := Conflicting(l.relations, note, related, rid))
      case Confirm(_, note, _) => l.(memories := Confirmed(l, note))
      case Retract(_, note, _) => l.(memories := l.memories[note := WithStatus(l.memories[note], Retracted)])
      case Reject(_, note, _) => l.(memories := l.memories[note := WithStatus(l.memories[note], Rejected)])
      case Promote(id, _, note, _, target, rids) => Stored(l, id, PromotedRow(l.memories[note], note, target), rids,
        [], [])
      case Summarize(id, thread, content, floor, refs, previous, rids) =>
        var stored :=
          Stored(l, id, SummaryRow(l, thread, content, floor, refs, NextRevision(l, previous)), rids, [], []);
        stored.(memories := Replaced(stored.memories, AsList(previous)))
  }

  /** A run of allowed steps from an empty store. */
  ghost predicate Growth(h: seq<Library>, actions: seq<Action>) {
    && |h| == |actions| + 1 && h[0] == Library(map[], map[], map[], 0)
    && forall k :: 0 <= k < |actions| ==>
      Allowed(h[k], actions[k]) && Minted(h[k], actions[k]) && h[k + 1] == Done(h[k], actions[k])
  }
}
