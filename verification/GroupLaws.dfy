/** Laws of the two group readers: cutting and joining undo each other, the readers agree, and a validated thread log
    never shows either of them an orphan. */
module GroupLaws {
  import opened Basics
  import opened Messages
  import opened Pairing
  import opened Groups

  // ----- Cutting and joining -----

  /** A chunk as the cut leaves it: it starts with a message that answers nothing, the rest are expected results. */
  ghost predicate WellCut(chunk: Chunk) {
    && chunk.items != []
    && chunk.items[0].result.None?
    && Span(chunk.items[1..], CallSet(chunk.items[0])) == |chunk.items| - 1
    && (chunk.complete <==> Open(chunk) == {})
  }

  lemma {:induction false} SpanTrim(items: seq<Message>, expected: set<Id>)
    ensures Span(items[..Span(items, expected)], expected) == Span(items, expected)
    ensures Unanswered(items[..Span(items, expected)], expected) == Unanswered(items, expected)
    decreases |items|
  {
    var n := Span(items, expected);
    if n > 0 {
      var less := expected - {items[0].result.value};
      SpanTrim(items[1..], less);
      assert items[..n][1..] == items[1..][..n - 1];
    }
  }

  /** Cutting loses nothing, and every chunk is well cut. */
  lemma {:induction false} ParseCutsWell(items: seq<Message>)
    requires Parse(items).Some?
    ensures AllItems(Parse(items).value) == items
    ensures forall c :: c in Parse(items).value ==> WellCut(c)
    decreases |items|
  {
    if items != [] {
      var k := 1 + Span(items[1..], CallSet(items[0]));
      ParseCutsWell(items[k..]);
      SpanTrim(items[1..], CallSet(items[0]));
      assert items[..k][1..] == items[1..][..k - 1];
      var rest := Parse(items[k..]).value;
      var chunk := Parse(items).value[0];
      assert Parse(items).value == [chunk] + rest;
      assert WellCut(chunk);
      assert items == items[..k] + items[k..];
    }
  }

  /** Once every expected call is answered, nothing that follows is taken. */
  lemma {:induction false} SpanFull(items: seq<Message>, more: seq<Message>, expected: set<Id>)
    requires Span(items, expected) == |items| && Unanswered(items, expected) == {}
    ensures Span(items + more, expected) == |items|
    ensures Unanswered(items + more, expected) == {}
    decreases |items|
  {
    if items == [] {
      assert items + more == more;
    } else {
      SpanFull(items[1..], more, expected - {items[0].result.value});
      assert (items + more)[1..] == items[1..] + more;
    }
  }

  lemma ParseGroupFirst(g: seq<Message>, more: seq<Message>)
    requires IsGroup(g)
    ensures Parse(more).Some? ==> Parse(g + more) == Some([Chunk(g, true)] + Parse(more).value)
    ensures Parse(more).None? ==> Parse(g + more).None?
  {
    var all := g + more;
    assert all[1..] == g[1..] + more;
    SpanFull(g[1..], more, CallSet(g[0]));
    assert all[..|g|] == g && all[|g|..] == more;
  }

  function AsChunks(groups: seq<seq<Message>>): seq<Chunk> {
    if groups == [] then [] else [Chunk(groups[0], true)] + AsChunks(groups[1..])
  }

  lemma {:induction false} AsChunksGroups(groups: seq<seq<Message>>)
    ensures CompleteGroups(AsChunks(groups)) == groups && IncompleteCount(AsChunks(groups)) == 0
    decreases |groups|
  {
    if groups != [] {
      AsChunksGroups(groups[1..]);
      assert AsChunks(groups)[1..] == AsChunks(groups[1..]);
      assert [groups[0]] + groups[1..] == groups;
    }
  }

  lemma {:induction false} ParseJoined(groups: seq<seq<Message>>)
    requires forall g :: g in groups ==> IsGroup(g)
    ensures Parse(Flatten(groups)) == Some(AsChunks(groups))
    decreases |groups|
  {
    if groups != [] {
      ParseJoined(groups[1..]);
      ParseGroupFirst(groups[0], Flatten(groups[1..]));
    }
  }

  /** Joining whole groups and cutting again gives the same groups. */
  lemma JoinThenCut(groups: seq<seq<Message>>)
    requires forall g :: g in groups ==> IsGroup(g)
    ensures Parse(Flatten(groups)).Some?
    ensures CompleteGroups(Parse(Flatten(groups)).value) == groups && IncompleteCount(Parse(Flatten(groups)).value) == 0
  {
    ParseJoined(groups);
    AsChunksGroups(groups);
  }

  /** The groups the assembler keeps are whole, so any selection of them, in any order, reads back as itself. */
  lemma {:induction false} KeptGroupsAreWhole(chunks: seq<Chunk>)
    requires forall c :: c in chunks ==> WellCut(c)
    ensures forall g :: g in CompleteGroups(chunks) ==> IsGroup(g)
    decreases |chunks|
  {
    if chunks != [] {
      KeptGroupsAreWhole(chunks[1..]);
      assert chunks[0] in chunks;
    }
  }

  lemma SelectedGroupsReadBack(items: seq<Message>, chosen: seq<seq<Message>>)
    requires Parse(items).Some?
    requires forall g :: g in chosen ==> g in CompleteGroups(Parse(items).value)
    ensures Parse(Flatten(chosen)).Some? && CompleteGroups(Parse(Flatten(chosen)).value) == chosen
  {
    ParseCutsWell(items);
    KeptGroupsAreWhole(Parse(items).value);
    JoinThenCut(chosen);
  }

  // ----- The readers agree -----

  /** Where the assembler can read the log, the summary reader selects exactly the messages before the first incomplete
      group. */
  lemma {:induction false} ReadersAgree(items: seq<Message>)
    requires Parse(items).Some?
    ensures CompletePrefix(items) == Some(BeforeIncomplete(Parse(items).value))
    decreases |items|
  {
    if items != [] {
      var k := 1 + Span(items[1..], CallSet(items[0]));
      ReadersAgree(items[k..]);
      var chunks := Parse(items).value;
      assert chunks == [chunks[0]] + Parse(items[k..]).value;
      assert chunks[1..] == Parse(items[k..]).value;
    }
  }

  // ----- One more message -----

  lemma {:induction false} SpanSnoc(items: seq<Message>, m: Message, expected: set<Id>)
    ensures var full := Span(items, expected) == |items|;
            var taken := full && m.result.Some? && m.result.value in Unanswered(items, expected);
            && Span(items + [m], expected) == Span(items, expected) + (if taken then 1 else 0)
            && Unanswered(items + [m], expected)
               == Unanswered(items, expected) - (if taken then {m.result.value} else {})
    decreases |items|
  {
    if items == [] {
      assert (items + [m])[1..] == [];
    } else {
      assert (items + [m])[0] == items[0] && (items + [m])[1..] == items[1..] + [m];
      if items[0].result.Some? && items[0].result.value in expected {
        SpanSnoc(items[1..], m, expected - {items[0].result.value});
      }
    }
  }

  /** The last chunk takes one more result. */
  function Extend(chunks: seq<Chunk>, m: Message): seq<Chunk>
    requires chunks != [] && m.result.Some?
  {
    var last := chunks[|chunks| - 1];
    chunks[..|chunks| - 1] + [Chunk(last.items + [m], Open(last) - {m.result.value} == {})]
  }

  /** How one more message changes the cut. */
  function ParseMore(chunks: seq<Chunk>, m: Message): Option<seq<Chunk>> {
    if m.result.None? then Some(chunks + [Chunk([m], m.calls == [])])
    else if chunks != [] && m.result.value in Open(chunks[|chunks| - 1]) then Some(Extend(chunks, m))
    else None
  }

  lemma {:induction false} ParseOne(m: Message)
    ensures Parse([m]) == (if m.result.None? then Some([Chunk([m], m.calls == [])]) else None)
    ensures Parse([m]) == ParseMore([], m)
  {
    NoCalls(m);
    assert [m][1..] == [] && [m][..1] == [m];
    var chunk := Chunk([m], m.calls == []);
    assert [chunk] + [] == [chunk] && [] + [chunk] == [chunk];
  }

  lemma {:induction false} ParseSnoc(items: seq<Message>, m: Message)
    requires Parse(items).Some?
    ensures Parse(items + [m]) == ParseMore(Parse(items).value, m)
    decreases |items|
  {
    var all := items + [m];
    if items == [] {
      assert all == [m];
      ParseOne(m);
    } else {
      var calls := CallSet(items[0]);
      var k := 1 + Span(items[1..], calls);
      var chunk, rest := Parse(items).value[0], items[k..];
      var tailChunks := Parse(rest).value;
      assert Parse(items).value == [chunk] + tailChunks;
      assert all[0] == items[0] && all[1..] == items[1..] + [m];
      SpanSnoc(items[1..], m, calls);
      if rest == [] {
        ParseSnocLast(items, m);
      } else {
        ParseSnoc(rest, m);
        assert all[..k] == items[..k] && all[k..] == rest + [m];
        assert tailChunks != [];
        MoreAfter(chunk, tailChunks, m);
      }
    }
  }

  /** A message that reaches past the first chunk does not change it. */
  lemma MoreAfter(chunk: Chunk, tailChunks: seq<Chunk>, m: Message)
    requires tailChunks != []
    ensures ParseMore([chunk] + tailChunks, m)
         == (match ParseMore(tailChunks, m) case None => None case Some(r) => Some([chunk] + r))
  {
    var chunks := [chunk] + tailChunks;
    assert chunks[|chunks| - 1] == tailChunks[|tailChunks| - 1];
    if m.result.None? {
      assert chunks + [Chunk([m], m.calls == [])] == [chunk] + (tailChunks + [Chunk([m], m.calls == [])]);
    } else {
      assert chunks[..|chunks| - 1] == [chunk] + tailChunks[..|tailChunks| - 1];
      assert Extend(chunks, m) == [chunk] + Extend(tailChunks, m);
    }
  }

  /** The log is one chunk: a result it expects extends it, anything else starts over. */
  lemma {:induction false} ParseSnocLast(items: seq<Message>, m: Message)
    requires items != [] && items[0].result.None?
    requires 1 + Span(items[1..], CallSet(items[0])) == |items|
    ensures Parse(items).Some? && Parse(items + [m]) == ParseMore(Parse(items).value, m)
  {
    var all, calls := items + [m], CallSet(items[0]);
    var chunk := Chunk(items, Unanswered(items[1..], calls) == {});
    assert items[..|items|] == items && items[|items|..] == [];
    assert Parse(items) == Some([chunk]) by { assert [chunk] + [] == [chunk]; }
    assert all[0] == items[0] && all[1..] == items[1..] + [m];
    SpanSnoc(items[1..], m, calls);
    assert [chunk][..0] == [];
    if m.result.Some? && m.result.value in Open(chunk) {
      assert all[..|all|] == all && all[|all|..] == [];
      var grown := Chunk(all, Open(chunk) - {m.result.value} == {});
      assert [grown] + [] == [grown] && [] + [grown] == [grown];
      assert Parse(all) == Some([grown]);
    } else {
      assert all[..|items|] == items && all[|items|..] == [m];
      ParseOne(m);
    }
  }

  // ----- Orphans -----

  /** The result at `n` answers the call that starts its group: nothing but other results stands between them. */
  ghost predicate AnswersAt(log: seq<Message>, n: nat, h: nat)
    requires n < |log|
  {
    && h < n && log[n].result.Some?
    && log[h].result.None? && log[n].result.value in CallSet(log[h])
    && forall k :: h < k < n ==> log[k].result.Some? && log[k].result != log[n].result
  }

  /** A result with no group to join. */
  ghost predicate Orphan(log: seq<Message>, n: nat)
    requires n < |log|
  {
    log[n].result.Some? && forall h: nat :: !AnswersAt(log, n, h)
  }

  ghost predicate NoOrphans(log: seq<Message>) {
    forall n: nat :: n < |log| ==> !Orphan(log, n)
  }

  /** What a run of expected results leaves open: the calls none of them answers. */
  lemma {:induction false} UnansweredMeans(items: seq<Message>, expected: set<Id>, c: Id)
    requires Span(items, expected) == |items|
    ensures forall k :: 0 <= k < |items| ==> items[k].result.Some? && items[k].result.value in expected
    ensures c in Unanswered(items, expected)
      <==> c in expected && forall k :: 0 <= k < |items| ==> items[k].result != Some(c)
    decreases |items|
  {
    if items != [] { UnansweredMeans(items[1..], expected - {items[0].result.value}, c); }
  }

  lemma {:induction false} LastChunkIsSuffix(chunks: seq<Chunk>)
    requires chunks != []
    ensures var last := chunks[|chunks| - 1].items;
            |last| <= |AllItems(chunks)| && AllItems(chunks)[|AllItems(chunks)| - |last|..] == last
    decreases |chunks|
  {
    if |chunks| > 1 { LastChunkIsSuffix(chunks[1..]); }
  }

  /** A readable log stays readable with fewer messages at the end. */
  lemma {:induction false} ParsePrefix(items: seq<Message>, m: Message)
    requires Parse(items + [m]).Some?
    ensures Parse(items).Some?
    decreases |items|
  {
    if items != [] {
      var all, calls := items + [m], CallSet(items[0]);
      var k := 1 + Span(items[1..], calls);
      assert all[0] == items[0] && all[1..] == items[1..] + [m];
      SpanSnoc(items[1..], m, calls);
      if k < |items| {
        assert all[k..] == items[k..] + [m];
        ParsePrefix(items[k..], m);
      } else {
        assert items[k..] == [];
      }
    }
  }

  /** A chunk at the end of a log waits for a result exactly when the result would answer its head. */
  lemma {:induction false} TailWaits(items: seq<Message>, last: Chunk, h: nat, m: Message)
    requires WellCut(last) && h < |items| && items[h..] == last.items && m.result.Some?
    ensures m.result.value in Open(last) <==> AnswersAt(items + [m], |items|, h)
  {
    var all, results := items + [m], items[h + 1..];
    assert last.items[0] == items[h] && last.items[1..] == results;
    UnansweredMeans(results, CallSet(items[h]), m.result.value);
    assert all[h] == items[h] && all[|items|] == m;
    forall k | h < k < |items| ensures all[k] == results[k - h - 1] { }
    forall k | 0 <= k < |results| ensures results[k] == all[k + h + 1] { }
  }

  /** A result may join a readable log exactly when the last chunk waits for it. */
  lemma {:induction false} JoinsLast(items: seq<Message>, m: Message)
    requires Parse(items).Some? && items != [] && m.result.Some?
    ensures var chunks := Parse(items).value;
            chunks != []
              && (m.result.value in Open(chunks[|chunks| - 1]) <==> exists h: nat :: AnswersAt(items + [m], |items|, h))
  {
    var h, last := LastChunkAt(items);
    TailWaits(items, last, h, m);
    if g: nat :| AnswersAt(items + [m], |items|, g) {
      assert (items + [m])[h] == items[h] == last.items[0];
      forall k | h < k < |items| ensures (items + [m])[k].result.Some? {
        UnansweredMeans(last.items[1..], CallSet(last.items[0]), 0);
        assert (items + [m])[k] == last.items[1..][k - h - 1];
      }
      OneHead(items + [m], |items|, g, h);
    }
  }

  /** Where the last chunk of a readable log begins. */
  lemma {:induction false} LastChunkAt(items: seq<Message>) returns (h: nat, last: Chunk)
    requires Parse(items).Some? && items != []
    ensures Parse(items).value != [] && last == Parse(items).value[|Parse(items).value| - 1]
    ensures WellCut(last) && h < |items| && items[h..] == last.items
  {
    ParseCutsWell(items);
    var chunks := Parse(items).value;
    last := chunks[|chunks| - 1];
    assert last in chunks;
    LastChunkIsSuffix(chunks);
    h := |items| - |last.items|;
  }

  /** A result has only one message it can belong to: the nearest that answers nothing. */
  lemma {:induction false} OneHead(all: seq<Message>, n: nat, g: nat, h: nat)
    requires n < |all| && AnswersAt(all, n, g) && h < n && all[h].result.None?
    requires forall k :: h < k < n ==> all[k].result.Some?
    ensures g == h
  {
  }

  /** The readers can read a log exactly when every result in it directly follows, after other results only, a message
      that declares its call. */
  lemma {:induction false} ReadableIffNoOrphans(log: seq<Message>)
    ensures Parse(log).Some? <==> NoOrphans(log)
    decreases |log|
  {
    if log != [] {
      var front, m := log[..|log| - 1], log[|log| - 1];
      assert log == front + [m];
      ReadableIffNoOrphans(front);
      OrphansSnoc(front, m);
      if Parse(front).Some? {
        ParseSnoc(front, m);
        ParseOne(m);
        if front != [] && m.result.Some? { JoinsLast(front, m); }
        if front != [] { ChunksOfSome(front); }
      } else if Parse(log).Some? {
        ParsePrefix(front, m);
      }
    }
  }

  lemma {:induction false} ChunksOfSome(items: seq<Message>)
    requires Parse(items).Some? && items != []
    ensures Parse(items).value != []
  {
  }

  /** One more message adds an orphan exactly when it is one. */
  lemma {:induction false} OrphansSnoc(front: seq<Message>, m: Message)
    ensures NoOrphans(front + [m]) <==> NoOrphans(front) && !Orphan(front + [m], |front|)
  {
    var log := front + [m];
    forall n: nat | n < |front| ensures Orphan(log, n) <==> Orphan(front, n) {
      forall h: nat ensures AnswersAt(log, n, h) <==> AnswersAt(front, n, h) { SameAnswers(front, m, n, h); }
    }
  }

  lemma {:induction false} SameAnswers(front: seq<Message>, m: Message, n: nat, h: nat)
    requires n < |front|
    ensures AnswersAt(front + [m], n, h) <==> AnswersAt(front, n, h)
  {
    assert forall k :: 0 <= k <= n ==> (front + [m])[k] == front[k];
  }

  // ----- A validated log is readable -----

  ghost predicate OneRun(chunk: Chunk) {
    chunk.items != [] && forall m :: m in chunk.items ==> m.runId == RunOf(chunk)
  }

  ghost function RunOf(chunk: Chunk): Id
    requires chunk.items != []
  {
    chunk.items[0].runId
  }

  /** Chunks never mix runs, and an incomplete chunk is the last one of its run. */
  ghost predicate OnlyTailsIncomplete(chunks: seq<Chunk>) {
    && (forall i :: 0 <= i < |chunks| ==> OneRun(chunks[i]))
    && (forall i, j :: 0 <= i < j < |chunks| && !chunks[i].complete ==> RunOf(chunks[i]) != RunOf(chunks[j]))
  }

  ghost predicate EveryRunPaired(log: seq<Message>) {
    forall run: Id :: Protocol(RunLog(log, run))
  }

  /** What the cut of a readable log looks like; its last chunk waits for exactly the run's pending calls. */
  ghost predicate ReadsWell(log: seq<Message>) {
    && Parse(log).Some?
    && var chunks := Parse(log).value;
       && OnlyTailsIncomplete(chunks)
       && (log == [] <==> chunks == [])
       && (chunks != [] ==>
             && RunOf(chunks[|chunks| - 1]) == log[|log| - 1].runId
             && Open(chunks[|chunks| - 1]) == Pending(RunLog(log, log[|log| - 1].runId)))
  }

  lemma PendingSnoc(log: seq<Message>, m: Message)
    requires Shaped(m) && Protocol(log) && MayFollow(log, m)
    ensures m.result.None? ==> Pending(log + [m]) == CallSet(m)
    ensures m.result.Some? ==> Pending(log + [m]) == Pending(log) - {m.result.value}
  {
    SetsSnoc(log, m);
    AnswersAreDeclared(log);
    NoCalls(m);
  }

  lemma {:induction false} ItemsInLog(chunks: seq<Chunk>, c: Chunk, m: Message)
    requires c in chunks && m in c.items
    ensures m in AllItems(chunks)
    decreases |chunks|
  {
    if c != chunks[0] {
      assert c in chunks[1..];
      ItemsInLog(chunks[1..], c, m);
    }
  }

  /** A message of a run the log has not seen starts a chunk of its own. */
  lemma NewRunStep(log: seq<Message>, m: Message)
    requires ReadsWell(log) && Shaped(m) && m.result.None?
    requires forall x :: x in log ==> x.runId != m.runId
    requires Pending(RunLog(log + [m], m.runId)) == CallSet(m)
    ensures ReadsWell(log + [m])
  {
    var chunks := Parse(log).value;
    ParseSnoc(log, m);
    var started := Chunk([m], m.calls == []);
    forall i | 0 <= i < |chunks| ensures RunOf(chunks[i]) != m.runId {
      ParseCutsWell(log);
      ItemsInLog(chunks, chunks[i], chunks[i].items[0]);
    }
    assert Open(started) == CallSet(m);
    StartChunk(chunks, started);
  }

  lemma StartChunk(chunks: seq<Chunk>, started: Chunk)
    requires OnlyTailsIncomplete(chunks) && OneRun(started)
    requires forall i :: 0 <= i < |chunks| && !chunks[i].complete ==> RunOf(chunks[i]) != RunOf(started)
    ensures OnlyTailsIncomplete(chunks + [started])
  {
  }

  /** With nothing pending, the last chunk is complete. */
  lemma {:induction false} LastIsComplete(log: seq<Message>)
    requires ReadsWell(log) && log != [] && Pending(RunLog(log, log[|log| - 1].runId)) == {}
    ensures var chunks := Parse(log).value; chunks[|chunks| - 1].complete
  {
    ParseCutsWell(log);
    var chunks := Parse(log).value;
    var last := chunks[|chunks| - 1];
    assert last in chunks;
    assert WellCut(last);
  }

  /** The run goes on with something that is not a result: it follows a complete group. */
  lemma {:induction false} SameRunNext(log: seq<Message>, m: Message)
    requires ReadsWell(log) && log != [] && log[|log| - 1].runId == m.runId && Shaped(m) && m.result.None?
    requires Protocol(RunLog(log, m.runId)) && MayFollow(RunLog(log, m.runId), m)
    ensures ReadsWell(log + [m])
  {
    var chunks := Parse(log).value;
    var last := chunks[|chunks| - 1];
    var started := Chunk([m], m.calls == []);
    ParseSnoc(log, m);
    RunLogSnoc(log, m, m.runId);
    PendingSnoc(RunLog(log, m.runId), m);
    LastIsComplete(log);
    forall i | 0 <= i < |chunks| && !chunks[i].complete ensures RunOf(chunks[i]) != m.runId {
      assert i < |chunks| - 1;
    }
    assert Open(started) == CallSet(m);
    StartChunk(chunks, started);
  }

  /** The run goes on with a result: it extends the last group. */
  lemma {:induction false} SameRunAnswer(log: seq<Message>, m: Message)
    requires ReadsWell(log) && log != [] && log[|log| - 1].runId == m.runId && Shaped(m) && m.result.Some?
    requires Protocol(RunLog(log, m.runId)) && MayFollow(RunLog(log, m.runId), m)
    ensures ReadsWell(log + [m])
  {
    var chunks := Parse(log).value;
    var last := chunks[|chunks| - 1];
    var grown := Chunk(last.items + [m], Open(last) - {m.result.value} == {});
    ParseSnoc(log, m);
    RunLogSnoc(log, m, m.runId);
    PendingSnoc(RunLog(log, m.runId), m);
    assert WellCut(last) by {
      ParseCutsWell(log);
      assert last in chunks;
    }
    GrownChunk(last, m);
    GrowLast(chunks, grown);
    var more := chunks[..|chunks| - 1] + [grown];
    assert Parse(log + [m]) == Some(more);
    assert more[|more| - 1] == grown && RunOf(grown) == m.runId;
  }

  lemma GrownChunk(last: Chunk, m: Message)
    requires WellCut(last) && m.result.Some? && m.result.value in Open(last)
    ensures Open(Chunk(last.items + [m], Open(last) - {m.result.value} == {})) == Open(last) - {m.result.value}
  {
    SpanSnoc(last.items[1..], m, CallSet(last.items[0]));
    assert (last.items + [m])[1..] == last.items[1..] + [m];
  }

  lemma GrowLast(chunks: seq<Chunk>, grown: Chunk)
    requires chunks != [] && OnlyTailsIncomplete(chunks) && OneRun(grown)
    requires RunOf(grown) == RunOf(chunks[|chunks| - 1])
    ensures OnlyTailsIncomplete(chunks[..|chunks| - 1] + [grown])
  {
  }

  lemma ContiguousPrefix(log: seq<Message>, m: Message)
    requires RunsContiguous(log + [m])
    ensures RunsContiguous(log)
    ensures (exists x :: x in log && x.runId == m.runId) ==> log != [] && log[|log| - 1].runId == m.runId
  {
    var all := log + [m];
    assert forall i :: 0 <= i < |log| ==> all[i] == log[i];
    assert all[|log|] == m;
    if x :| x in log && x.runId == m.runId {
      var i :| 0 <= i < |log| && log[i] == x;
      if i < |log| - 1 { assert all[i].runId == all[|log|].runId && all[|log| - 1].runId == all[i].runId; }
    }
  }

  /** A log whose runs stand together and keep the protocol is read by both readers without an orphan, and only the
      last group of a run can be incomplete. */
  lemma {:induction false} ValidatedLogReads(log: seq<Message>)
    requires AllShaped(log) && RunsContiguous(log) && EveryRunPaired(log)
    ensures ReadsWell(log)
    decreases |log|
  {
    if log != [] {
      var front, m := log[..|log| - 1], log[|log| - 1];
      assert log == front + [m];
      ContiguousPrefix(front, m);
      forall run: Id ensures Protocol(RunLog(front, run)) { PairedBefore(front, m, run); }
      ValidatedLogReads(front);
      PairedStep(front, m);
      OneMoreReads(front, m);
    }
  }

  lemma {:induction false} PairedBefore(front: seq<Message>, m: Message, run: Id)
    requires EveryRunPaired(front + [m])
    ensures Protocol(RunLog(front, run))
  {
    RunLogSnoc(front, m, run);
    assert Protocol(RunLog(front + [m], run));
    ProtocolPrefix(RunLog(front, run), RunLog(front + [m], run));
  }

  lemma {:induction false} PairedStep(front: seq<Message>, m: Message)
    requires EveryRunPaired(front + [m])
    ensures Protocol(RunLog(front, m.runId)) && MayFollow(RunLog(front, m.runId), m)
  {
    RunLogSnoc(front, m, m.runId);
    assert Protocol(RunLog(front + [m], m.runId));
    ProtocolSnoc(RunLog(front, m.runId), m);
  }

  lemma {:induction false} OneMoreReads(front: seq<Message>, m: Message)
    requires ReadsWell(front) && Shaped(m) && RunsContiguous(front + [m])
    requires Protocol(RunLog(front, m.runId)) && MayFollow(RunLog(front, m.runId), m)
    ensures ReadsWell(front + [m])
  {
    var before := RunLog(front, m.runId);
    ContiguousPrefix(front, m);
    RunLogMembers(front, m.runId);
    if before == [] {
      assert forall x :: x in front ==> x.runId != m.runId;
      PendingSnoc(before, m);
      RunLogSnoc(front, m, m.runId);
      NewRunStep(front, m);
    } else {
      assert before[0] in before && before[0] in front;
      if m.result.Some? { SameRunAnswer(front, m); } else { SameRunNext(front, m); }
    }
  }

  /** Contiguity is not a luxury: a log that interleaves two runs can pass the resume check and still stop the
      assembler with an orphan. */
  lemma {:induction false} InterleavedRunsBreakTheReaders(call: Message, other: Message, answer: Message)
    requires Shaped(call) && call.runId == 1 && call.calls == [7] && call.threadSeq == 1
    requires Shaped(other) && other.runId == 2 && other.calls == [] && other.result.None? && other.threadSeq == 2
    requires Shaped(answer) && answer.runId == 1 && answer.result == Some(7) && answer.threadSeq == 3
    requires call.runSeq < answer.runSeq
    ensures Validated([call, other, answer]) && Parse([call, other, answer]).None?
  {
    forall run: Id ensures RunValid(RunLog([call, other, answer], run)) {
      ThreeMessages(call, other, answer, run);
      if run == 1 { CallAndAnswer(call, answer); }
      if run == 2 { SingleMessage(other); }
    }
    OrphanAfterOther(call, other, answer);
  }

  lemma {:induction false} OrphanAfterOther(call: Message, other: Message, answer: Message)
    requires call.result.None? && other.calls == [] && other.result.None? && answer.result.Some?
    ensures Parse([call, other, answer]).None?
  {
    ParseOne(call);
    ParseSnoc([call], other);
    ParseSnoc([call] + [other], answer);
    assert [call] + [other] + [answer] == [call, other, answer];
  }

  lemma {:induction false} ThreeMessages(a: Message, b: Message, c: Message, run: Id)
    requires a.runId == 1 && b.runId == 2 && c.runId == 1
    ensures RunLog([a, b, c], run) == if run == 1 then [a, c] else if run == 2 then [b] else []
  {
    RunLogSnoc([], a, run);
    RunLogSnoc([] + [a], b, run);
    RunLogSnoc([] + [a] + [b], c, run);
    assert [] + [a] + [b] + [c] == [a, b, c];
  }

  lemma SingleMessage(m: Message)
    requires Shaped(m) && m.result.None?
    ensures Protocol([m])
  {
    ProtocolSnoc([], m);
    assert [] + [m] == [m];
  }

  lemma {:induction false} CallAndAnswer(call: Message, answer: Message)
    requires Shaped(call) && Shaped(answer) && call.calls != [] && answer.result.Some?
      && answer.result.value in call.calls
    ensures Protocol([call, answer])
  {
    SingleMessage(call);
    SetsSnoc([], call);
    assert [] + [call] == [call] && [call] + [answer] == [call, answer];
    NoCalls(answer);
    ProtocolSnoc([call], answer);
  }
}
