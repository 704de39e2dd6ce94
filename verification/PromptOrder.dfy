/** The messages a prompt quotes come in log order: a subsequence of what the provider may see. */
module PromptOrder {
  import opened Basics
  import opened Messages
  import opened Pairing
  import opened Groups
  import opened GroupLaws
  import opened LogOrder
  import opened Budgets
  import opened Sorting
  import opened Context
  import opened ContextLaws

  /** The groups begin one after another. */
  ghost predicate HeadsClimb(gs: seq<seq<Message>>) {
    && (forall g :: g in gs ==> g != [])
    && forall i, j :: 0 <= i < j < |gs| ==> HeadBefore(gs[i], gs[j])
  }

  predicate HeadBefore(g: seq<Message>, h: seq<Message>) {
    g != [] && h != [] && g[0].threadSeq < h[0].threadSeq
  }

  /** Elements of a climbing log in climbing order are a subsequence of it. */
  lemma {:induction false} ClimbingSubsequence(a: seq<Message>, b: seq<Message>)
    requires Climbing(ThreadSeqs(a)) && Climbing(ThreadSeqs(b)) && forall m :: m in a ==> m in b
    ensures Subsequence(a, b)
    decreases |b|
  {
    if a != [] {
      assert a[0] in b;
      var p, q := |a| - 1, |b| - 1;
      PrefixClimbs(a, p);
      PrefixClimbs(b, q);
      if a[p] == b[q] {
        forall m | m in a[..p] ensures m in b[..q] {
          var i :| 0 <= i < p && a[i] == m;
          ClimbingPairs(a, i, p);
          NotLast(b, m);
        }
        ClimbingSubsequence(a[..p], b[..q]);
      } else {
        forall m | m in a ensures m in b[..q] { BelowLast(a, b, m); }
        ClimbingSubsequence(a, b[..q]);
      }
    }
  }

  lemma {:induction false} NotLast(b: seq<Message>, m: Message)
    requires m in b && m != b[|b| - 1]
    ensures m in b[..|b| - 1]
  {
  }

  lemma {:induction false} BelowLast(a: seq<Message>, b: seq<Message>, m: Message)
    requires Climbing(ThreadSeqs(a)) && Climbing(ThreadSeqs(b)) && (forall x :: x in a ==> x in b) && m in a
      && a[|a| - 1] != b[|b| - 1]
    ensures m in b[..|b| - 1]
  {
    var p, q := |a| - 1, |b| - 1;
    if m == b[q] {
      var i :| 0 <= i < |a| && a[i] == m;
      assert a[p] in b;
      var j :| 0 <= j < |b| && b[j] == a[p];
      if i < p { ClimbingPairs(a, i, p); }
      if j < q { ClimbingPairs(b, j, q); }
    }
  }

  // ----- Groups in order -----

  /** Different groups of a climbing log do not interleave. */
  lemma {:induction false} GroupsApart(chunks: seq<Chunk>, g: seq<Message>, h: seq<Message>, a: Message, b: Message)
    requires Climbing(ThreadSeqs(AllItems(chunks))) && g in CompleteGroups(chunks) && h in CompleteGroups(chunks)
    requires g != [] && h != [] && g[0].threadSeq < h[0].threadSeq && a in g && b in h
    ensures a.threadSeq < b.threadSeq
  {
    var i := GroupAt(chunks, g);
    var j := GroupAt(chunks, h);
    if j < i {
      ChunksInOrder(chunks, j, i, h[0], g[0]);
    } else if i < j {
      ChunksInOrder(chunks, i, j, a, b);
    }
  }

  lemma {:induction false} GroupAt(chunks: seq<Chunk>, g: seq<Message>) returns (i: nat)
    requires g in CompleteGroups(chunks)
    ensures i < |chunks| && chunks[i].items == g
  {
    GroupInChunks(chunks, g);
    i :| 0 <= i < |chunks| && chunks[i].items == g;
  }

  lemma {:induction false} GroupClimbs(chunks: seq<Chunk>, g: seq<Message>)
    requires Climbing(ThreadSeqs(AllItems(chunks))) && g in CompleteGroups(chunks)
    ensures Climbing(ThreadSeqs(g))
    decreases |chunks|
  {
    var all, first := AllItems(chunks), chunks[0].items;
    if chunks[0].complete && g == first {
      assert all[..|first|] == first;
      PrefixClimbs(all, |first|);
    } else {
      SuffixClimbs(all, |first|);
      assert all[|first|..] == AllItems(chunks[1..]);
      GroupClimbs(chunks[1..], g);
    }
  }

  /** Groups of a climbing log, in order of their heads, flatten to a climbing log. */
  lemma {:induction false} FlattenClimbs(chunks: seq<Chunk>, gs: seq<seq<Message>>)
    requires Climbing(ThreadSeqs(AllItems(chunks))) && HeadsClimb(gs) && forall g :: g in gs ==>
      g in CompleteGroups(chunks)
    ensures Climbing(ThreadSeqs(Flatten(gs)))
    decreases |gs|
  {
    if gs != [] {
      var g, rest := gs[0], gs[1..];
      assert HeadsClimb(rest);
      FlattenClimbs(chunks, rest);
      GroupClimbs(chunks, g);
      forall a, b | a in g && b in Flatten(rest)
          ensures a.threadSeq < b.threadSeq { FirstBeforeRest(chunks, gs, a, b); }
      JoinClimbs(g, Flatten(rest));
    }
  }

  lemma {:induction false} FirstBeforeRest(chunks: seq<Chunk>, gs: seq<seq<Message>>, a: Message, b: Message)
    requires gs != [] && Climbing(ThreadSeqs(AllItems(chunks))) && HeadsClimb(gs) && forall g :: g in gs ==>
      g in CompleteGroups(chunks)
    requires a in gs[0] && b in Flatten(gs[1..])
    ensures a.threadSeq < b.threadSeq
  {
    var k := FlattenAt(gs[1..], b);
    assert gs[1..][k] == gs[k + 1] && gs[k + 1] in gs && gs[0] in gs;
    GroupsApart(chunks, gs[0], gs[k + 1], a, b);
  }

  lemma {:induction false} FlattenAt(gs: seq<seq<Message>>, m: Message) returns (k: nat)
    requires m in Flatten(gs)
    ensures k < |gs| && m in gs[k]
    decreases |gs|
  {
    if m in gs[0] { return 0; }
    var rest := FlattenAt(gs[1..], m);
    k := rest + 1;
  }

  lemma {:induction false} JoinClimbs(a: seq<Message>, b: seq<Message>)
    requires Climbing(ThreadSeqs(a)) && Climbing(ThreadSeqs(b)) && forall x, y :: x in a && y in b ==>
      x.threadSeq < y.threadSeq
    ensures Climbing(ThreadSeqs(a + b))
  {
    var all := a + b;
    forall i | 0 < i < |all| ensures ThreadSeqs(all)[i - 1] < ThreadSeqs(all)[i] {
      if i < |a| {
        assert ThreadSeqs(a)[i - 1] < ThreadSeqs(a)[i];
      } else if i > |a| {
        assert ThreadSeqs(b)[i - |a| - 1] < ThreadSeqs(b)[i - |a|];
      } else {
        assert a[i - 1] in a && b[0] in b;
      }
    }
  }

  // ----- The chosen groups -----

  lemma {:induction false} HeadsPrefix(gs: seq<seq<Message>>)
    requires gs != [] && HeadsClimb(gs)
    ensures HeadsClimb(gs[..|gs| - 1])
  {
    var front := gs[..|gs| - 1];
    forall i, j | 0 <= i < j < |front| ensures HeadBefore(front[i], front[j]) {
      assert front[i] == gs[i] && front[j] == gs[j];
    }
    forall g | g in front ensures g != [] { assert g in gs; }
  }

  lemma {:induction false} SubsequenceHeads(a: seq<seq<Message>>, b: seq<seq<Message>>)
    requires Subsequence(a, b) && HeadsClimb(b)
    ensures HeadsClimb(a)
    decreases |b|
  {
    if a != [] {
      var front := b[..|b| - 1];
      HeadsPrefix(b);
      if Subsequence(a, front) {
        SubsequenceHeads(a, front);
      } else {
        var n := |a| - 1;
        SubsequenceHeads(a[..n], front);
        forall i | 0 <= i < n ensures HeadBefore(a[i], a[n]) {
          SubsequenceMembers(a[..n], front, a[..n][i]);
          var k :| 0 <= k < |front| && front[k] == a[i];
          assert b[k] == a[i];
        }
        assert a[n] == b[|b| - 1] && a[n] in b;
      }
    }
  }

  lemma {:induction false} CompleteHeads(chunks: seq<Chunk>)
    requires Climbing(ThreadSeqs(AllItems(chunks))) && forall c :: c in chunks ==> c.items != []
    ensures HeadsClimb(CompleteGroups(chunks))
    decreases |chunks|
  {
    if chunks != [] {
      var all, first := AllItems(chunks), chunks[0].items;
      var rest: seq<seq<Message>> := CompleteGroups(chunks[1..]);
      assert chunks[0] in chunks;
      SuffixClimbs(all, |first|);
      assert all[|first|..] == AllItems(chunks[1..]);
      CompleteHeads(chunks[1..]);
      forall j | 0 <= j < |rest| ensures HeadBefore(first, rest[j]) {
        assert rest[j] in rest;
        var k := GroupAt(chunks[1..], rest[j]);
        assert chunks[k + 1] == chunks[1..][k];
        ChunksInOrder(chunks, 0, k + 1, first[0], rest[j][0]);
      }
    }
  }

  lemma {:induction false} OfRunKeepsOrder(groups: seq<seq<Message>>, run: Id, same: bool)
    ensures Subsequence(OfRun(groups, run, same), groups)
    decreases |groups|
  {
    if groups != [] {
      var n := |groups| - 1;
      OfRunKeepsOrder(groups[..n], run, same);
      SubsequenceOfMore(OfRun(groups[..n], run, same), groups[..n], groups[n]);
      assert groups[..n] + [groups[n]] == groups;
      assert OfRun(groups[..n], run, same) + [] == OfRun(groups[..n], run, same);
    }
  }

  lemma {:induction false} UncoveredKeepsOrder(groups: seq<seq<Message>>, watermark: nat)
    ensures Subsequence(Uncovered(groups, watermark), groups)
    decreases |groups|
  {
    if groups != [] {
      var n := |groups| - 1;
      UncoveredKeepsOrder(groups[..n], watermark);
      SubsequenceOfMore(Uncovered(groups[..n], watermark), groups[..n], groups[n]);
      assert groups[..n] + [groups[n]] == groups;
      assert Uncovered(groups[..n], watermark) + [] == Uncovered(groups[..n], watermark);
    }
  }

  /** Either part of the selection is in order. */
  lemma {:induction false} PartsInOrder(groups: seq<seq<Message>>, run: Id, c: Config, s: Option<SummaryView>,
      left: int)
    requires ValidConfig(c) && HeadsClimb(groups)
    ensures HeadsClimb(KeptHistory(groups, run, c, s, left)) && HeadsClimb(CurrentGroups(groups, run, c))
  {
    var others, history := OfRun(groups, run, false), HistoryGroups(groups, run, s);
    OfRunKeepsOrder(groups, run, false);
    SubsequenceHeads(others, groups);
    if s.Some? {
      UncoveredKeepsOrder(others, s.value.covered);
      SubsequenceHeads(history, others);
    }
    FittingKeepsOrder(history, c, SmallerOf(c.history, left), true);
    SubsequenceHeads(KeptHistory(groups, run, c, s, left), history);
    OfRunKeepsOrder(groups, run, true);
    SubsequenceHeads(OfRun(groups, run, true), groups);
    FittingKeepsOrder(OfRun(groups, run, true), c, c.currentRun, false);
    SubsequenceHeads(CurrentGroups(groups, run, c), OfRun(groups, run, true));
  }

  lemma {:induction false} HeadsDistinct(gs: seq<seq<Message>>)
    requires HeadsClimb(gs)
    ensures forall i, j :: 0 <= i < j < |gs| ==> gs[i] != gs[j]
  {
  }

  /** Two parts in order that share no group, sorted by their heads, are in order. */
  lemma {:induction false} MergedInOrder(groups: seq<seq<Message>>, a: seq<seq<Message>>, b: seq<seq<Message>>)
    requires HeadsClimb(groups) && HeadsClimb(a) && HeadsClimb(b)
    requires forall g :: g in a || g in b ==> g in groups
    requires forall g, h :: g in a && h in b ==> g != h
    ensures HeadsClimb(SortBy(a + b, StartsBefore))
  {
    var all := a + b;
    HeadsDistinct(a);
    HeadsDistinct(b);
    forall i, j | 0 <= i < j < |all| ensures all[i] != all[j] {
      if i < |a| <= j { assert all[i] in a && all[j] in b; }
    }
    SortedOnce(all, StartsBefore);
    SortBySorted(all, StartsBefore);
    var sorted := SortBy(all, StartsBefore);
    forall i, j | 0 <= i < j < |sorted| ensures HeadBefore(sorted[i], sorted[j]) {
      assert sorted[i] in all && sorted[j] in all;
      HeadsDiffer(groups, sorted[i], sorted[j]);
    }
    forall g | g in sorted ensures g != [] { assert g in all; }
  }

  lemma {:induction false} HeadsDiffer(groups: seq<seq<Message>>, g: seq<Message>, h: seq<Message>)
    requires HeadsClimb(groups) && g in groups && h in groups && g != h && StartsBefore(g, h)
    ensures HeadBefore(g, h)
  {
    var i :| 0 <= i < |groups| && groups[i] == g;
    var j :| 0 <= j < |groups| && groups[j] == h;
    assert j < i ==> HeadBefore(groups[j], groups[i]);
  }

  /** When sequence numbers climb, the messages an assembled prompt quotes are a subsequence of those the provider may
      see: in log order, none twice. */
  lemma {:induction false} PromptKeepsLogOrder(
    c: Config, items: seq<Message>, run: Id, isLocal: bool, summary: Option<SummaryView>, notes: seq<Recall>,
    hits: seq<Recall>, a: Assembly)
    requires ValidConfig(c) && Climbing(ThreadSeqs(Allowed(items, isLocal))) && Parse(Allowed(items, isLocal)).Some?
    requires Assembled(c, CompleteGroups(Parse(Allowed(items, isLocal)).value), run, isLocal, summary, notes, hits, a)
    ensures Subsequence(Flatten(a.groups), Allowed(items, isLocal))
  {
    var allowed := Allowed(items, isLocal);
    var chunks := Parse(allowed).value;
    var groups := CompleteGroups(chunks);
    ParseCutsWell(allowed);
    CompleteHeads(chunks);
    var left := LeftOver(c.total, Total(CurrentGroups(groups, run, c), GroupSize), a.summary, a.notes, a.hits);
    PartsInOrder(groups, run, c, a.summary, left);
    PartsApart(groups, run, c, a.summary, left);
    MergedInOrder(groups, KeptHistory(groups, run, c, a.summary, left), CurrentGroups(groups, run, c));
    forall g | g in a.groups ensures g in groups { ChosenGroup(c, groups, run, isLocal, summary, notes, hits, a, g); }
    FlattenClimbs(chunks, a.groups);
    forall m | m in Flatten(a.groups) ensures m in allowed { QuotedIsAllowed(chunks, a.groups, m); }
    ClimbingSubsequence(Flatten(a.groups), allowed);
  }

  lemma {:induction false} QuotedIsAllowed(chunks: seq<Chunk>, gs: seq<seq<Message>>, m: Message)
    requires (forall g :: g in gs ==> g in CompleteGroups(chunks)) && m in Flatten(gs)
    ensures m in AllItems(chunks)
  {
    var k := FlattenAt(gs, m);
    assert gs[k] in gs;
    var i := GroupAt(chunks, gs[k]);
    ItemsInLog(chunks, chunks[i], m);
  }

  predicate OfItsRun(g: seq<Message>, run: Id, same: bool) {
    g != [] && (g[0].runId == run) == same
  }

  /** History and the current run share no group. */
  lemma {:induction false} PartsApart(groups: seq<seq<Message>>, run: Id, c: Config, s: Option<SummaryView>, left: int)
    requires ValidConfig(c)
    ensures forall g :: g in KeptHistory(groups, run, c, s, left) || g in CurrentGroups(groups, run, c) ==> g in groups
    ensures forall g, h :: g in KeptHistory(groups, run, c, s, left) && h in CurrentGroups(groups, run, c) ==> g != h
  {
    FittingWithin(HistoryGroups(groups, run, s), c, SmallerOf(c.history, left), true);
    FittingWithin(OfRun(groups, run, true), c, c.currentRun, false);
    forall g | g in KeptHistory(groups, run, c, s, left) ensures g in groups && OfItsRun(g, run, false) {
      HistoryMembers(groups, run, s, g);
    }
    forall h | h in CurrentGroups(groups, run, c) ensures h in groups && OfItsRun(h, run, true) {
      OfRunMembers(groups, run, true, h);
    }
  }
}
