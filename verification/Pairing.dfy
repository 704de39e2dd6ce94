/** The tool-call protocol of one run (`secminiagent/memory/transcript_v2.py`): the check made before each append,
    and the check made over a whole log when a thread is resumed. */
module Pairing {
  import opened Basics
  import opened Messages

  datatype PairingError = ResultsPending | CallIdDuplicate | ResultOrphaned | ResultDuplicate

  // ----- The protocol, stated over positions -----

  /** `c` is answered before position `n`. */
  ghost predicate AnsweredBefore(log: seq<Message>, n: nat, c: Id) {
    exists k :: 0 <= k < n && k < |log| && log[k].result == Some(c)
  }

  /** `c` is declared before position `n`. */
  ghost predicate DeclaredBefore(log: seq<Message>, n: nat, c: Id) {
    exists k :: 0 <= k < n && k < |log| && c in log[k].calls
  }

  /** No call id is declared by two messages. */
  ghost predicate CallsDistinct(log: seq<Message>) {
    forall i, j, c :: 0 <= i < j < |log| && c in log[i].calls ==> c !in log[j].calls
  }

  /** Every result answers a call declared earlier and not answered yet. */
  ghost predicate ResultsMatch(log: seq<Message>) {
    forall n :: 0 <= n < |log| && log[n].result.Some? ==>
      DeclaredBefore(log, n, log[n].result.value) && !AnsweredBefore(log, n, log[n].result.value)
  }

  /** Nothing but results comes between a call and its last answer. */
  ghost predicate GroupsUnbroken(log: seq<Message>) {
    forall n, c :: 0 <= n < |log| && log[n].result.None? && DeclaredBefore(log, n, c) ==> AnsweredBefore(log, n, c)
  }

  ghost predicate Protocol(log: seq<Message>) {
    CallsDistinct(log) && ResultsMatch(log) && GroupsUnbroken(log)
  }

  /** Every tool message names the call it answers. */
  ghost predicate ToolsAnswer(log: seq<Message>) {
    forall m :: m in log && m.role.Tool? ==> m.result.Some?
  }

  // ----- The online check -----

  function Declared(log: seq<Message>): set<Id> {
    set i, c | 0 <= i < |log| && c in log[i].calls :: c
  }

  function Consumed(log: seq<Message>): set<Id> {
    set i | 0 <= i < |log| && log[i].result.Some? :: log[i].result.value
  }

  function Pending(log: seq<Message>): set<Id> {
    Declared(log) - Consumed(log)
  }

  /** Whether a new message may follow the run's existing ones, and if not, why. */
  function NewMessageError(existing: seq<Message>, m: Message): Option<PairingError> {
    if Pending(existing) != {} && !m.role.Tool? then Some(ResultsPending)
    else if m.calls != [] && CallSet(m) * (Declared(existing) + Consumed(existing)) != {} then Some(CallIdDuplicate)
    else if m.role.Tool? && (m.result.None? || m.result.value !in Declared(existing)) then Some(ResultOrphaned)
    else if m.role.Tool? && m.result.value in Consumed(existing) then Some(ResultDuplicate)
    else None
  }

  /** Every message of the log was acceptable when it was appended. */
  ghost predicate AcceptedOnline(log: seq<Message>) {
    forall n :: 0 <= n < |log| ==> NewMessageError(log[..n], log[n]).None?
  }

  // ----- One more message -----

  lemma DeclaredMeans(log: seq<Message>, n: nat, c: Id)
    requires n <= |log|
    ensures c in Declared(log[..n]) <==> DeclaredBefore(log, n, c)
    ensures c in Consumed(log[..n]) <==> AnsweredBefore(log, n, c)
  {
    if DeclaredBefore(log, n, c) {
      var k :| 0 <= k < n && k < |log| && c in log[k].calls;
      assert log[..n][k] == log[k];
    }
    if AnsweredBefore(log, n, c) {
      var k :| 0 <= k < n && k < |log| && log[k].result == Some(c);
      assert log[..n][k] == log[k];
    }
  }

  lemma SetsSnoc(log: seq<Message>, m: Message)
    ensures Declared(log + [m]) == Declared(log) + CallSet(m)
    ensures Consumed(log + [m]) == Consumed(log) + (if m.result.Some? then {m.result.value} else {})
  {
    var all := log + [m];
    assert all[|log|] == m;
    forall c | c in Declared(log) ensures c in Declared(all) {
      var i :| 0 <= i < |log| && c in log[i].calls;
      assert all[i] == log[i];
    }
    forall c | c in Consumed(log) ensures c in Consumed(all) {
      var i :| 0 <= i < |log| && log[i].result == Some(c);
      assert all[i] == log[i];
    }
  }

  /** What happened before a position does not depend on what comes later. */
  lemma BeforePrefix(p: seq<Message>, log: seq<Message>, n: nat, c: Id)
    requires p <= log && n <= |p|
    ensures DeclaredBefore(p, n, c) <==> DeclaredBefore(log, n, c)
    ensures AnsweredBefore(p, n, c) <==> AnsweredBefore(log, n, c)
  {
    if DeclaredBefore(log, n, c) {
      var k :| 0 <= k < n && k < |log| && c in log[k].calls;
      assert p[k] == log[k];
    }
    if AnsweredBefore(log, n, c) {
      var k :| 0 <= k < n && k < |log| && log[k].result == Some(c);
      assert p[k] == log[k];
    }
  }

  /** The protocol is closed under prefixes. */
  lemma ProtocolPrefix(p: seq<Message>, log: seq<Message>)
    requires Protocol(log) && p <= log
    ensures Protocol(p)
  {
    forall n: nat, c | n <= |p|
      ensures DeclaredBefore(p, n, c) <==> DeclaredBefore(log, n, c)
      ensures AnsweredBefore(p, n, c) <==> AnsweredBefore(log, n, c)
    {
      BeforePrefix(p, log, n, c);
    }
    assert forall i :: 0 <= i < |p| ==> p[i] == log[i];
  }

  /** What the protocol asks of one more message. */
  ghost predicate MayFollow(log: seq<Message>, m: Message) {
    && (m.result.None? ==> Pending(log) == {})
    && CallSet(m) !! Declared(log)
    && (m.result.Some? ==> m.result.value in Pending(log))
  }

  lemma CallsDistinctSnoc(log: seq<Message>, m: Message)
    ensures CallsDistinct(log + [m]) <==> CallsDistinct(log) && CallSet(m) !! Declared(log)
  {
    var all := log + [m];
    assert forall i :: 0 <= i < |log| ==> all[i] == log[i];
    if CallsDistinct(all) {
      forall c | c in Declared(log) ensures c !in CallSet(m) {
        var i :| 0 <= i < |log| && c in log[i].calls;
        assert c in all[i].calls && c !in all[|log|].calls;
      }
      forall i, j, c | 0 <= i < j < |log| && c in log[i].calls ensures c !in log[j].calls {
        assert c in all[i].calls && c !in all[j].calls;
      }
    }
    if CallsDistinct(log) && CallSet(m) !! Declared(log) {
      forall i, j, c | 0 <= i < j < |all| && c in all[i].calls ensures c !in all[j].calls {
        if j == |log| { assert c in Declared(log) && c !in CallSet(m); }
      }
    }
  }

  lemma ResultsMatchSnoc(log: seq<Message>, m: Message)
    ensures ResultsMatch(log + [m]) <==> ResultsMatch(log) && (m.result.Some? ==> m.result.value in Pending(log))
  {
    var all := log + [m];
    forall n: nat, c | n <= |log|
      ensures DeclaredBefore(log, n, c) <==> DeclaredBefore(all, n, c)
      ensures AnsweredBefore(log, n, c) <==> AnsweredBefore(all, n, c)
    {
      BeforePrefix(log, all, n, c);
    }
    assert forall i :: 0 <= i < |log| ==> all[i] == log[i];
    assert all[|log|] == m && log[..|log|] == log;
    if m.result.Some? {
      DeclaredMeans(log, |log|, m.result.value);
    }
  }

  lemma GroupsUnbrokenSnoc(log: seq<Message>, m: Message)
    ensures GroupsUnbroken(log + [m]) <==> GroupsUnbroken(log) && (m.result.None? ==> Pending(log) == {})
  {
    var all := log + [m];
    forall n: nat, c | n <= |log|
      ensures DeclaredBefore(log, n, c) <==> DeclaredBefore(all, n, c)
      ensures AnsweredBefore(log, n, c) <==> AnsweredBefore(all, n, c)
    {
      BeforePrefix(log, all, n, c);
    }
    assert forall i :: 0 <= i < |log| ==> all[i] == log[i];
    assert all[|log|] == m && log[..|log|] == log;
    forall c ensures c in Pending(log) <==> DeclaredBefore(log, |log|, c) && !AnsweredBefore(log, |log|, c) {
      DeclaredMeans(log, |log|, c);
    }
  }

  /** A log with one more message keeps the protocol exactly when the old log does and the message may follow it. */
  lemma ProtocolSnoc(log: seq<Message>, m: Message)
    ensures Protocol(log + [m]) <==> Protocol(log) && MayFollow(log, m)
  {
    CallsDistinctSnoc(log, m);
    ResultsMatchSnoc(log, m);
    GroupsUnbrokenSnoc(log, m);
  }

  lemma AnswersAreDeclared(log: seq<Message>)
    requires ResultsMatch(log)
    ensures Consumed(log) <= Declared(log)
  {
    forall c | c in Consumed(log) ensures c in Declared(log) {
      var i :| 0 <= i < |log| && log[i].result == Some(c);
      assert DeclaredBefore(log, i, c);
    }
  }

  // ----- Online and offline agree -----

  /** On a log that keeps the protocol, the online check accepts a message exactly when the protocol lets it follow and
      it is not a tool message without a call id. */
  lemma OnlineStep(log: seq<Message>, m: Message)
    requires Shaped(m) && Protocol(log)
    ensures NewMessageError(log, m).None? <==> MayFollow(log, m) && (m.role.Tool? ==> m.result.Some?)
  {
    AnswersAreDeclared(log);
    NoCalls(m);
    assert Declared(log) + Consumed(log) == Declared(log);
    DisjointMeans(CallSet(m), Declared(log));
  }

  lemma DisjointMeans<T>(a: set<T>, b: set<T>)
    ensures a !! b <==> a * b == {}
  {
    forall x | x in a && x in b ensures x in a * b { }
  }

  lemma NoCalls(m: Message)
    ensures m.calls == [] <==> CallSet(m) == {}
  {
    if m.calls != [] { assert m.calls[0] in CallSet(m); }
  }

  /** The online checks accept a log, message by message, exactly when it keeps the protocol and no tool message lacks
      the id of the call it answers. */
  lemma {:induction false} OnlineIffProtocol(log: seq<Message>)
    requires AllShaped(log)
    ensures AcceptedOnline(log) <==> Protocol(log) && ToolsAnswer(log)
    decreases |log|
  {
    if log != [] {
      var front, m := log[..|log| - 1], log[|log| - 1];
      assert log == front + [m];
      OnlineIffProtocol(front);
      ProtocolSnoc(front, m);
      assert AcceptedOnline(log) <==> AcceptedOnline(front) && NewMessageError(front, m).None? by {
        assert forall n :: 0 <= n < |front| ==> log[..n] == front[..n] && log[n] == front[n];
        assert log[..|front|] == front;
      }
      if Protocol(front) { OnlineStep(front, m); }
    }
  }

  lemma MayComeFirst(m: Message)
    requires Shaped(m) && m.result.None?
    ensures Protocol([]) && MayFollow([], m)
  {
  }

  /** The resume check accepts a bare tool message that no append would have accepted. */
  lemma BareToolMessageSplitsTheChecks(m: Message)
    requires Shaped(m) && m.role.Tool? && m.result.None?
    ensures Protocol([m]) && !AcceptedOnline([m])
  {
    MayComeFirst(m);
    ProtocolSnoc([], m);
    assert [] + [m] == [m];
    assert !AcceptedOnline([m]) by {
      assert m in [m];
      OnlineIffProtocol([m]);
    }
  }

  // ----- The offline check -----

  /** The three tests the resume check makes on a message. */
  predicate Refused(item: Message, declared: set<Id>, consumed: set<Id>, pending: set<Id>) {
    || (pending != {} && item.result.None?)
    || CallSet(item) * (declared + consumed) != {}
    || (item.result.Some? && (item.result.value !in pending + CallSet(item) || item.result.value in consumed))
  }

  lemma RefusedIffNotFollowing(log: seq<Message>, m: Message)
    requires Shaped(m) && Protocol(log)
    ensures Refused(m, Declared(log), Consumed(log), Pending(log)) <==> !MayFollow(log, m)
  {
    AnswersAreDeclared(log);
    NoCalls(m);
    assert Declared(log) + Consumed(log) == Declared(log);
    DisjointMeans(CallSet(m), Declared(log));
  }

  /** The pairing half of the resume check over one run, with its running sets. */
  method ValidatePairs(log: seq<Message>) returns (ok: bool)
    requires AllShaped(log)
    ensures ok <==> Protocol(log)
  {
    var declared: set<Id>, consumed: set<Id>, pending: set<Id> := {}, {}, {};
    for n := 0 to |log|
      invariant Protocol(log[..n])
      invariant declared == Declared(log[..n]) && consumed == Consumed(log[..n]) && pending == Pending(log[..n])
    {
      var item := log[n];
      ghost var before := log[..n];
      assert log[..n + 1] == before + [item];
      ProtocolSnoc(before, item);
      SetsSnoc(before, item);
      RefusedIffNotFollowing(before, item);
      if Refused(item, declared, consumed, pending) {
        if Protocol(log) { ProtocolPrefix(before + [item], log); }
        return false;
      }
      declared := declared + CallSet(item);
      pending := pending + CallSet(item);
      if item.result.Some? {
        consumed := consumed + {item.result.value};
        pending := pending - {item.result.value};
      }
    }
    assert log[..|log|] == log;
    ok := true;
  }

  // ----- The whole resume check -----

  predicate Climbing(numbers: seq<nat>) {
    forall i :: 0 < i < |numbers| ==> numbers[i - 1] < numbers[i]
  }

  function ThreadSeqs(log: seq<Message>): (r: seq<nat>)
    ensures |r| == |log|
  {
    seq(|log|, i requires 0 <= i < |log| => log[i].threadSeq)
  }

  function RunSeqs(log: seq<Message>): (r: seq<nat>)
    ensures |r| == |log|
  {
    seq(|log|, i requires 0 <= i < |log| => log[i].runSeq)
  }

  ghost predicate RunValid(log: seq<Message>) {
    Climbing(RunSeqs(log)) && Protocol(log)
  }

  /** A thread's log as resume accepts it: sequence numbers climb over the thread and within each run, and each run
      keeps the protocol. */
  ghost predicate Validated(log: seq<Message>) {
    Climbing(ThreadSeqs(log)) && forall run: Id :: RunValid(RunLog(log, run))
  }

  method ValidateSequenceAndPairs(items: seq<Message>) returns (ok: bool)
    requires AllShaped(items)
    ensures ok <==> Validated(items)
  {
    if !Climbing(ThreadSeqs(items)) { return false; }
    var byRun: map<Id, seq<Message>> := map[];
    for n := 0 to |items|
      invariant forall run: Id :: (if run in byRun then byRun[run] else []) == RunLog(items[..n], run)
    {
      var item := items[n];
      assert items[..n + 1] == items[..n] + [item];
      forall run: Id
          ensures RunLog(items[..n + 1], run) == RunLog(items[..n], run) + (if item.runId == run then [item] else []) {
        RunLogSnoc(items[..n], item, run);
      }
      byRun := byRun[item.runId := (if item.runId in byRun then byRun[item.runId] else []) + [item]];
    }
    assert items[..|items|] == items;
    ok := ValidateRuns(items, byRun);
  }

  method ValidateRuns(items: seq<Message>, byRun: map<Id, seq<Message>>) returns (ok: bool)
    requires AllShaped(items)
    requires forall run: Id :: (if run in byRun then byRun[run] else []) == RunLog(items, run)
    ensures ok <==> forall run: Id :: RunValid(RunLog(items, run))
  {
    var todo := byRun.Keys;
    while todo != {}
      invariant todo <= byRun.Keys
      invariant forall run: Id :: run !in todo ==> RunValid(RunLog(items, run))
      decreases todo
    {
      var run :| run in todo;
      var log := byRun[run];
      assert log == RunLog(items, run);
      RunLogMembers(items, run);
      var pairsOk := ValidatePairs(log);
      ghost var valid := RunValid(RunLog(items, run));
      assert valid <==> Climbing(RunSeqs(log)) && pairsOk;
      if !Climbing(RunSeqs(log)) || !pairsOk {
        assert !RunValid(RunLog(items, run));
        return false;
      }
      todo := todo - {run};
    }
    ok := true;
  }
}
