/** Memory records and the provenance relations between them, as the deletion and note services see the tables. */
module Records {
  import opened Basics
  import opened Messages

  datatype RelationKind = DerivedFrom | Summarizes | Supersedes | ConflictsWith | PromotedFrom | Supports

  /** `source` was made from (or replaces, supports, contradicts) `target`. A tombstoned relation is no longer live. */
  datatype Relation = Relation(source: Id, target: Id, kind: RelationKind, live: bool)

  datatype Scope = ThreadScope | SessionScope | WorkspaceScope

  datatype Status = Candidate | Active | Rejected | Superseded | Disputed | Retracted | Deleted

  datatype IndexStatus = NotIndexed | PendingIndex | Indexed | IndexFailed | PendingDelete

  datatype Origin = Transcript | StructuredNote | NotePromotion | RollingSummary | IndependentRetention

  /** A record. `refs` are the source ids its payload names; `deleted` stands for a deletion timestamp. */
  datatype Memory = Memory(
    scope: Scope, thread: Option<Id>, run: Option<Id>, origin: Origin, content: string, refs: seq<Id>,
    classification: Classification, confirmed: bool, status: Status, deleted: bool, index: IndexStatus,
    revision: nat, version: nat)

  type Memories = map<Id, Memory>
  type Relations = map<Id, Relation>

  predicate LiveRow(memories: Memories, id: Id) {
    id in memories && !memories[id].deleted
  }

  predicate IsNote(m: Memory) {
    m.origin.StructuredNote? || m.origin.NotePromotion? || m.origin.IndependentRetention?
  }
}
