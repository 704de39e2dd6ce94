/** Transcript messages as every reader of the log sees them. */
module Messages {
  import opened Basics

  datatype Role = User | Assistant | Tool

  datatype Classification = Public | Internal | Confidential | Secret

  function Rank(c: Classification): nat {
    match c case Public => 0 case Internal => 1 case Confidential => 2 case Secret => 3
  }

  /** The higher classification. */
  function Higher(a: Classification, b: Classification): Classification {
    if Rank(a) >= Rank(b) then a else b
  }

  /** The higher of two is secret if either is, else confidential if either is, else internal if either is. */
  lemma HigherIsStricter(a: Classification, b: Classification)
    ensures Higher(a, b) in {a, b}
    ensures Higher(a, b) == if Secret in {a, b} then Secret else if Confidential in {a, b} then Confidential
      else if Internal in {a, b} then Internal else Public
    ensures Rank(a) <= Rank(b) <==> Higher(a, b) == b
  {
  }

  /** A transcript message: who said it, the tool calls it declares, and the call it answers.
      `size` is the length of the message as rendered for a prompt. */
  datatype Message = Message(
    id: Id, runId: Id, threadSeq: nat, runSeq: nat, role: Role, calls: seq<Id>, result: Option<Id>,
    classification: Classification, size: nat)

  /** What `_message_shape` lets through: only the assistant declares calls, with distinct ids, and only a tool
      answers one. */
  ghost predicate Shaped(m: Message) {
    && (m.calls != [] ==> m.role.Assistant?)
    && (m.result.Some? ==> m.role.Tool?)
    && (forall i, j :: 0 <= i < j < |m.calls| ==> m.calls[i] != m.calls[j])
  }

  ghost predicate AllShaped(log: seq<Message>) {
    forall m :: m in log ==> Shaped(m)
  }

  function CallSet(m: Message): set<Id> {
    set c | c in m.calls
  }

  /** The messages of one run, in log order. */
  function RunLog(log: seq<Message>, run: Id): seq<Message> {
    if log == [] then [] else
      var last := log[|log| - 1];
      RunLog(log[..|log| - 1], run) + (if last.runId == run then [last] else [])
  }

  lemma RunLogSnoc(log: seq<Message>, m: Message, run: Id)
    ensures RunLog(log + [m], run) == RunLog(log, run) + (if m.runId == run then [m] else [])
  {
    assert (log + [m])[..|log|] == log;
  }

  lemma {:induction false} RunLogMembers(log: seq<Message>, run: Id)
    ensures forall m :: m in RunLog(log, run) <==> m in log && m.runId == run
    decreases |log|
  {
    if log != [] {
      RunLogMembers(log[..|log| - 1], run);
      assert log == log[..|log| - 1] + [log[|log| - 1]];
    }
  }

  /** The messages of each run stand next to each other. */
  ghost predicate RunsContiguous(log: seq<Message>) {
    forall i, j, k :: 0 <= i < j < k < |log| && log[i].runId == log[k].runId ==> log[j].runId == log[i].runId
  }
}
