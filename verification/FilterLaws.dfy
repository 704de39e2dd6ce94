/** What the assembler's provider filter does to the groups of a log: exactly when the filtered log can still be read,
    and when filtering keeps groups whole. */
module FilterLaws {
  import opened Basics
  import opened Messages
  import opened Pairing
  import opened Groups
  import opened GroupLaws
  import opened LogOrder
  import opened Context
  import opened ContextLaws

  /** No result is kept without the call it follows. */
  ghost predicate HeadsKept(chunks: seq<Chunk>, isLocal: bool) {
    forall c, m :: c in chunks && c.items != [] && m in c.items && Visible(m, isLocal) ==> Visible(c.items[0], isLocal)
  }

  predicate Visible(m: Message, isLocal: bool) {
    ProviderAllowed(m.classification, isLocal)
  }

  lemma {:induction false} AllowedAppend(a: seq<Message>, b: seq<Message>, isLocal: bool)
    ensures Allowed(a + b, isLocal) == Allowed(a, isLocal) + Allowed(b, isLocal)
    decreases |b|
  {
    if b == [] {
      assert a + b == a;
    } else {
      var n := |b| - 1;
      AllowedAppend(a, b[..n], isLocal);
      assert (a + b)[..|a + b| - 1] == a + b[..n];
    }
  }

  lemma {:induction false} AllowedCons(m: Message, rest: seq<Message>, isLocal: bool)
    ensures Allowed([m] + rest, isLocal) == (if Visible(m, isLocal) then [m] else []) + Allowed(rest, isLocal)
  {
    AllowedAppend([m], rest, isLocal);
    assert [m][..0] == [];
  }

  ghost predicate StartsFresh(more: seq<Message>) {
    more == [] || more[0].result.None?
  }

  /** Some of a call's results, in order, are still results it expects. */
  lemma {:induction false} FilteredSpan(items: seq<Message>, less: set<Id>, expected: set<Id>, more: seq<Message>,
      isLocal: bool)
    requires Span(items, less) == |items| && less <= expected && StartsFresh(more)
    ensures Span(Allowed(items, isLocal) + more, expected) == |Allowed(items, isLocal)|
    decreases |items|
  {
    if items == [] {
      assert Allowed(items, isLocal) + more == more;
    } else {
      var r, kept := items[0], Allowed(items[1..], isLocal);
      assert items == [r] + items[1..];
      AllowedCons(r, items[1..], isLocal);
      if Visible(r, isLocal) {
        FilteredSpan(items[1..], less - {r.result.value}, expected - {r.result.value}, more, isLocal);
        assert (Allowed(items, isLocal) + more)[1..] == kept + more;
      } else {
        FilteredSpan(items[1..], less - {r.result.value}, expected, more, isLocal);
        assert Allowed(items, isLocal) == kept;
      }
    }
  }

  lemma {:induction false} NothingKept(items: seq<Message>, isLocal: bool)
    requires forall m :: m in items ==> !Visible(m, isLocal)
    ensures Allowed(items, isLocal) == []
  {
    if Allowed(items, isLocal) != [] { AllowedMembers(items, isLocal, Allowed(items, isLocal)[0]); }
  }

  lemma {:induction false} ReadableStartsFresh(more: seq<Message>)
    requires Parse(more).Some?
    ensures StartsFresh(more)
  {
  }

  // ----- The exact condition -----

  /** A kept result whose call was dropped stays without one, as no other message declares the call. */
  lemma {:induction false} DroppedCallOrphans(log: seq<Message>, isLocal: bool, c: Chunk, m: Message)
    requires Parse(log).Some? && CallsDistinct(log) && c in Parse(log).value && m in c.items
    requires Visible(m, isLocal) && c.items != [] && !Visible(c.items[0], isLocal)
    ensures Parse(Allowed(log, isLocal)).None?
  {
    if Parse(Allowed(log, isLocal)).Some? {
      var kept := Allowed(log, isLocal);
      ResultOfChunk(log, c, m);
      AllowedMembers(log, isLocal, m);
      var n: nat :| n < |kept| && kept[n] == m;
      ReadableIffNoOrphans(kept);
      assert !Orphan(kept, n);
      var h: nat :| AnswersAt(kept, n, h);
      assert kept[h] in kept;
      AllowedMembers(log, isLocal, kept[h]);
      OneDeclarer(log, c.items[0], kept[h], m.result.value);
    }
  }

  /** A message of a chunk other than its head is a result of a call the head declares; both stand in the log. */
  lemma {:induction false} ResultOfChunk(log: seq<Message>, c: Chunk, m: Message)
    requires Parse(log).Some? && c in Parse(log).value && m in c.items && c.items != [] && m != c.items[0]
    ensures m.result.Some? && m.result.value in CallSet(c.items[0]) && m in log && c.items[0] in log
  {
    ParseCutsWell(log);
    ItemsInLog(Parse(log).value, c, m);
    ItemsInLog(Parse(log).value, c, c.items[0]);
    UnansweredMeans(c.items[1..], CallSet(c.items[0]), 0);
    var k :| 0 <= k < |c.items| && c.items[k] == m;
    assert c.items[1..][k - 1] == m;
  }

  lemma {:induction false} OneDeclarer(log: seq<Message>, a: Message, b: Message, call: Id)
    requires CallsDistinct(log) && a in log && b in log && call in CallSet(a) && call in CallSet(b)
    ensures a == b
  {
    var i :| 0 <= i < |log| && log[i] == a;
    var j :| 0 <= j < |log| && log[j] == b;
    if i < j { assert call in log[i].calls; } else if j < i { assert call in log[j].calls; }
  }

  /** With call ids distinct over the log, the filtered log can be read exactly when no result is kept without its
      call. */
  lemma {:induction false} FilteredReadableIff(log: seq<Message>, isLocal: bool)
    requires Parse(log).Some? && CallsDistinct(log)
    ensures Parse(Allowed(log, isLocal)).Some? <==> HeadsKept(Parse(log).value, isLocal)
  {
    if HeadsKept(Parse(log).value, isLocal) {
      FilteringMixesNothing(log, isLocal);
    } else {
      var c, m :| c in Parse(log).value && c.items != [] && m in c.items && Visible(m, isLocal)
        && !Visible(c.items[0], isLocal);
      DroppedCallOrphans(log, isLocal, c, m);
    }
  }

  // ----- Groups kept whole -----

  /** The provider may see all of each chunk or nothing of it. */
  ghost predicate WholeOrNothing(chunks: seq<Chunk>, isLocal: bool) {
    forall c, m :: c in chunks && c.items != [] && m in c.items ==>
        (Visible(m, isLocal) <==> Visible(c.items[0], isLocal))
  }

  function KeptChunks(chunks: seq<Chunk>, isLocal: bool): seq<Chunk> {
    if chunks == [] then [] else
      (if chunks[0].items != [] && Visible(chunks[0].items[0], isLocal) then [chunks[0]] else [])
        + KeptChunks(chunks[1..], isLocal)
  }

  lemma {:induction false} AllKept(items: seq<Message>, isLocal: bool)
    requires forall m :: m in items ==> Visible(m, isLocal)
    ensures Allowed(items, isLocal) == items
    decreases |items|
  {
    if items != [] {
      var n := |items| - 1;
      AllKept(items[..n], isLocal);
      assert items[n] in items && items == items[..n] + [items[n]];
    }
  }

  /** Nothing that answers no call is taken into a chunk. */
  lemma {:induction false} SpanStops(items: seq<Message>, more: seq<Message>, expected: set<Id>)
    requires Span(items, expected) == |items| && StartsFresh(more)
    ensures Span(items + more, expected) == |items| && Unanswered(items + more, expected) == Unanswered(items, expected)
    decreases |items|
  {
    if items == [] {
      assert items + more == more;
    } else {
      SpanStops(items[1..], more, expected - {items[0].result.value});
      assert (items + more)[1..] == items[1..] + more;
    }
  }

  lemma {:induction false} ParseChunkFirst(c: Chunk, more: seq<Message>)
    requires WellCut(c) && Parse(more).Some?
    ensures Parse(c.items + more) == Some([c] + Parse(more).value)
  {
    var all := c.items + more;
    SpanStops(c.items[1..], more, CallSet(c.items[0]));
    assert all[0] == c.items[0] && all[1..] == c.items[1..] + more;
    assert all[..|c.items|] == c.items && all[|c.items|..] == more;
    SpanStops(c.items[1..], [], CallSet(c.items[0]));
  }

  /** When groups are kept whole or dropped whole, filtering and cutting commute. */
  lemma {:induction false} FilteringKeepsChunks(chunks: seq<Chunk>, isLocal: bool)
    requires (forall c :: c in chunks ==> WellCut(c)) && WholeOrNothing(chunks, isLocal)
    ensures Parse(Allowed(AllItems(chunks), isLocal)) == Some(KeptChunks(chunks, isLocal))
    decreases |chunks|
  {
    if chunks != [] {
      var c, rest := chunks[0], chunks[1..];
      assert c in chunks && forall d :: d in rest ==> d in chunks;
      FilteringKeepsChunks(rest, isLocal);
      AllowedAppend(c.items, AllItems(rest), isLocal);
      if Visible(c.items[0], isLocal) {
        AllKept(c.items, isLocal);
        ParseChunkFirst(c, Allowed(AllItems(rest), isLocal));
      } else {
        NothingKept(c.items, isLocal);
        assert [] + Allowed(AllItems(rest), isLocal) == Allowed(AllItems(rest), isLocal);
        assert [] + KeptChunks(rest, isLocal) == KeptChunks(rest, isLocal);
      }
    }
  }

  // ----- Groups never mixed -----

  /** Filtering can pair a call with another run's answer: nothing is reported, and the group looks complete. */
  lemma {:induction false} FilteringMispairs(c1: Message, r1: Message, c2: Message, r2: Message, call: Id)
    requires c1.calls == [call] && c2.calls == [call] && c1.result.None? && c2.result.None?
    requires r1.calls == r2.calls == [] && r1.result == r2.result == Some(call)
    requires c1.classification.Public? && r1.classification.Confidential? && c2.classification.Confidential?
      && r2.classification.Public?
    ensures Allowed([c1, r1, c2, r2], false) == [c1, r2]
    ensures Parse([c1, r2]) == Some([Chunk([c1, r2], true)])
  {
    assert [c1][..0] == [] && [c1, r1][..1] == [c1] && [c1, r1, c2][..2] == [c1, r1]
      && [c1, r1, c2, r2][..3] == [c1, r1, c2];
    assert Allowed([c1], false) == [c1];
    assert Allowed([c1, r1], false) == [c1];
    assert Allowed([c1, r1, c2], false) == [c1];
    PairReads(c1, r2, call);
  }

  lemma {:induction false} PairReads(c: Message, r: Message, call: Id)
    requires c.calls == [call] && c.result.None? && r.result == Some(call)
    ensures Parse([c, r]) == Some([Chunk([c, r], true)])
  {
    assert CallSet(c) == {call} && [c, r][1..] == [r] && [r][1..] == [];
    assert Span([r], {call}) == 1 + Span([], {call} - {call});
    assert Unanswered([r], {call}) == Unanswered([], {call} - {call}) == {};
    assert [c, r][..2] == [c, r] && [c, r][2..] == [];
    assert [Chunk([c, r], true)] + [] == [Chunk([c, r], true)];
  }

  lemma {:induction false} AllowedClimbs(items: seq<Message>, isLocal: bool)
    requires Climbing(ThreadSeqs(items))
    ensures Climbing(ThreadSeqs(Allowed(items, isLocal)))
    decreases |items|
  {
    if items != [] {
      var n, kept := |items| - 1, Allowed(items[..|items| - 1], isLocal);
      assert Climbing(ThreadSeqs(items[..n])) by {
        forall i | 0 < i < n ensures ThreadSeqs(items[..n])[i - 1] < ThreadSeqs(items[..n])[i] {
          assert ThreadSeqs(items)[i - 1] < ThreadSeqs(items)[i];
        }
      }
      AllowedClimbs(items[..n], isLocal);
      if kept != [] {
        var last := kept[|kept| - 1];
        AllowedMembers(items[..n], isLocal, last);
        var p :| 0 <= p < n && items[..n][p] == last;
        ClimbingPairs(items, p, n);
      }
      ClimbSnoc(kept, items[n]);
      assert Allowed(items, isLocal) == kept || Allowed(items, isLocal) == kept + [items[n]];
    }
  }

  /** Each group of the filtered log comes from one group of the log. */
  ghost predicate NothingMixed(kept: seq<Chunk>, chunks: seq<Chunk>) {
    forall d :: d in kept ==> exists c :: c in chunks && forall m :: m in d.items ==> m in c.items
  }

  lemma {:induction false} ParseHeadExactly(head: Message, kept: seq<Message>, more: seq<Message>)
    requires head.result.None? && Span(kept + more, CallSet(head)) == |kept| && Parse(more).Some?
    ensures exists done: bool :: Parse([head] + kept + more) == Some([Chunk([head] + kept, done)] + Parse(more).value)
  {
    var all := [head] + kept + more;
    assert all[0] == head && all[1..] == kept + more && all[1 + |kept|..] == more && all[..1 + |kept|] == [head] + kept;
    var done := Unanswered(kept + more, CallSet(head)) == {};
    assert Parse(all) == Some([Chunk([head] + kept, done)] + Parse(more).value);
  }

  /** One visible chunk filtered: its visible part, read as one chunk, then the rest. */
  lemma {:induction false} FilteredChunkExactly(chunk: seq<Message>, more: seq<Message>, isLocal: bool)
    requires chunk != [] && chunk[0].result.None? && Span(chunk[1..], CallSet(chunk[0])) == |chunk| - 1
    requires Visible(chunk[0], isLocal) && Parse(more).Some?
    ensures exists done: bool ::
      Parse(Allowed(chunk, isLocal) + more) == Some([Chunk(Allowed(chunk, isLocal), done)] + Parse(more).value)
  {
    var kept := Allowed(chunk[1..], isLocal);
    assert chunk == [chunk[0]] + chunk[1..];
    AllowedCons(chunk[0], chunk[1..], isLocal);
    ReadableStartsFresh(more);
    FilteredSpan(chunk[1..], CallSet(chunk[0]), CallSet(chunk[0]), more, isLocal);
    ParseHeadExactly(chunk[0], kept, more);
    assert Allowed(chunk, isLocal) == [chunk[0]] + kept;
  }

  /** Without a result kept apart from its call, nothing is mixed. */
  lemma {:induction false} FilteringMixesNothing(log: seq<Message>, isLocal: bool)
    requires Parse(log).Some? && HeadsKept(Parse(log).value, isLocal)
    ensures Parse(Allowed(log, isLocal)).Some?
    ensures NothingMixed(Parse(Allowed(log, isLocal)).value, Parse(log).value)
    decreases |log|
  {
    if log != [] {
      var k := 1 + Span(log[1..], CallSet(log[0]));
      var chunks := Parse(log).value;
      assert chunks == [chunks[0]] + Parse(log[k..]).value;
      ParseCutsWell(log);
      assert chunks[0] in chunks && log == log[..k] + log[k..] && chunks[0].items == log[..k];
      FilteringMixesNothing(log[k..], isLocal);
      AllowedAppend(log[..k], log[k..], isLocal);
      if Visible(log[0], isLocal) {
        FilteredChunkExactly(log[..k], Allowed(log[k..], isLocal), isLocal);
        var done: bool :| Parse(Allowed(log, isLocal))
          == Some([Chunk(Allowed(log[..k], isLocal), done)] + Parse(Allowed(log[k..], isLocal)).value);
        forall m | m in Allowed(log[..k], isLocal)
            ensures m in chunks[0].items { AllowedMembers(log[..k], isLocal, m); }
        OneMoreUnmixed(Chunk(Allowed(log[..k], isLocal), done), Parse(Allowed(log[k..], isLocal)).value, chunks[0],
          Parse(log[k..]).value);
      } else {
        NothingKept(log[..k], isLocal);
        assert [] + Allowed(log[k..], isLocal) == Allowed(log[k..], isLocal);
        StillUnmixed(Parse(Allowed(log[k..], isLocal)).value, chunks[0], Parse(log[k..]).value);
      }
    }
  }

  lemma {:induction false} StillUnmixed(kept: seq<Chunk>, c: Chunk, chunks: seq<Chunk>)
    requires NothingMixed(kept, chunks)
    ensures NothingMixed(kept, [c] + chunks)
  {
    forall d | d in kept ensures exists x :: x in [c] + chunks && forall m :: m in d.items ==> m in x.items {
      var x :| x in chunks && forall m :: m in d.items ==> m in x.items;
      assert x in [c] + chunks;
    }
  }

  lemma {:induction false} OneMoreUnmixed(d: Chunk, kept: seq<Chunk>, c: Chunk, chunks: seq<Chunk>)
    requires NothingMixed(kept, chunks) && forall m :: m in d.items ==> m in c.items
    ensures NothingMixed([d] + kept, [c] + chunks)
  {
    StillUnmixed(kept, c, chunks);
    assert c in [c] + chunks;
  }

  lemma {:induction false} ItemInSomeChunk(chunks: seq<Chunk>, m: Message) returns (d: Chunk)
    requires m in AllItems(chunks)
    ensures d in chunks && m in d.items
    decreases |chunks|
  {
    if m in chunks[0].items { return chunks[0]; }
    d := ItemInSomeChunk(chunks[1..], m);
  }

  /** In a climbing log a message has one chunk. */
  lemma {:induction false} OneChunk(chunks: seq<Chunk>, c: Chunk, d: Chunk, m: Message)
    requires Climbing(ThreadSeqs(AllItems(chunks))) && c in chunks && d in chunks && m in c.items && m in d.items
    ensures c == d
  {
    var i :| 0 <= i < |chunks| && chunks[i] == c;
    var j :| 0 <= j < |chunks| && chunks[j] == d;
    if i < j { ChunksInOrder(chunks, i, j, m, m); } else if j < i { ChunksInOrder(chunks, j, i, m, m); }
  }

  /** A result kept apart from its call ends up in a mixed group, if it can be read at all. */
  lemma {:induction false} StrayResultMixes(log: seq<Message>, isLocal: bool, c: Chunk, m: Message)
    requires Parse(log).Some? && Parse(Allowed(log, isLocal)).Some? && Climbing(ThreadSeqs(log))
    requires c in Parse(log).value && m in c.items && Visible(m, isLocal) && c.items != []
      && !Visible(c.items[0], isLocal)
    ensures !NothingMixed(Parse(Allowed(log, isLocal)).value, Parse(log).value)
  {
    var kept, chunks := Parse(Allowed(log, isLocal)).value, Parse(log).value;
    ResultOfChunk(log, c, m);
    ParseCutsWell(log);
    ParseCutsWell(Allowed(log, isLocal));
    AllowedMembers(log, isLocal, m);
    var d := ItemInSomeChunk(kept, m);
    var head := d.items[0];
    ItemsInLog(kept, d, head);
    AllowedMembers(log, isLocal, head);
    if x :| x in chunks && forall y :: y in d.items ==> y in x.items {
      OneChunk(chunks, c, x, m);
      HeadOfChunk(log, c, head);
    }
  }

  lemma {:induction false} HeadOfChunk(log: seq<Message>, c: Chunk, m: Message)
    requires Parse(log).Some? && c in Parse(log).value && c.items != [] && m in c.items && m.result.None?
    ensures m == c.items[0]
  {
    if m != c.items[0] { ResultOfChunk(log, c, m); }
  }

  /** For a readable log whose numbers climb, with whatever call ids: no result is kept without its call if and only
      if the filtered log can be read and mixes no groups. */
  lemma {:induction false} FilterMixesNothingIff(log: seq<Message>, isLocal: bool)
    requires Parse(log).Some? && Climbing(ThreadSeqs(log))
    ensures HeadsKept(Parse(log).value, isLocal)
       <==> Parse(Allowed(log, isLocal)).Some? && NothingMixed(Parse(Allowed(log, isLocal)).value, Parse(log).value)
  {
    if HeadsKept(Parse(log).value, isLocal) {
      FilteringMixesNothing(log, isLocal);
    } else if Parse(Allowed(log, isLocal)).Some? {
      var c, m :| c in Parse(log).value && c.items != [] && m in c.items && Visible(m, isLocal)
        && !Visible(c.items[0], isLocal);
      StrayResultMixes(log, isLocal, c, m);
    }
  }
}
