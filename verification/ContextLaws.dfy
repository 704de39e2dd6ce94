/** What a prompt built under the budgets guarantees its reader. */
module ContextLaws {
  import opened Basics
  import opened Messages
  import opened Groups
  import opened GroupLaws
  import opened Budgets
  import opened Sorting
  import opened Context

  lemma {:induction false} OfRunMembers(groups: seq<seq<Message>>, run: Id, same: bool, g: seq<Message>)
    ensures g in OfRun(groups, run, same) <==> g in groups && g != [] && (g[0].runId == run) == same
    decreases |groups|
  {
    if groups != [] {
      OfRunMembers(groups[..|groups| - 1], run, same, g);
      assert groups == groups[..|groups| - 1] + [groups[|groups| - 1]];
    }
  }

  lemma {:induction false} UncoveredMembers(groups: seq<seq<Message>>, watermark: nat, g: seq<Message>)
    ensures g in Uncovered(groups, watermark) <==> g in groups && g != [] && g[|g| - 1].threadSeq > watermark
    decreases |groups|
  {
    if groups != [] {
      UncoveredMembers(groups[..|groups| - 1], watermark, g);
      assert groups == groups[..|groups| - 1] + [groups[|groups| - 1]];
    }
  }

  /** What is measured: a group is as long as its messages together, notes and hits as long as their renderings
      together, and a summary as its rendering. */
  lemma SizesAdd(g: seq<Message>, m: Message, recalls: seq<Recall>, r: Recall, v: SummaryView)
    ensures GroupSize([]) == 0 && GroupSize(g + [m]) == GroupSize(g) + m.size
    ensures Total([], RecallSize) == 0 && Total(recalls + [r], RecallSize) == Total(recalls, RecallSize) + r.size
    ensures SummarySize(None) == 0 && SummarySize(Some(v)) == v.size
  {
    TotalSnoc(g, m, MessageSize);
    TotalSnoc(recalls, r, RecallSize);
  }

  /** Where a chosen group comes from: the current run, or history beyond the surviving summary. */
  lemma ChosenGroup(
    c: Config, groups: seq<seq<Message>>, run: Id, isLocal: bool,
    summary: Option<SummaryView>, notes: seq<Recall>, hits: seq<Recall>, a: Assembly, g: seq<Message>)
    requires ValidConfig(c) && Assembled(c, groups, run, isLocal, summary, notes, hits, a)
    requires g in a.groups
    ensures g in groups && UnderCeiling(g, c) && g != []
    ensures g[0].runId != run && a.summary.Some? ==> g[|g| - 1].threadSeq > a.summary.value.covered
  {
    var left := LeftOver(c.total, Total(CurrentGroups(groups, run, c), GroupSize), a.summary, a.notes, a.hits);
    FromEither(KeptHistory(groups, run, c, a.summary, left), CurrentGroups(groups, run, c), g);
    if g in CurrentGroups(groups, run, c) {
      FittingWithin(OfRun(groups, run, true), c, c.currentRun, false);
      OfRunMembers(groups, run, true, g);
    } else {
      FittingWithin(HistoryGroups(groups, run, a.summary), c, SmallerOf(c.history, left), true);
      HistoryMembers(groups, run, a.summary, g);
    }
  }

  lemma FromEither(a: seq<seq<Message>>, b: seq<seq<Message>>, g: seq<Message>)
    requires g in SortBy(a + b, StartsBefore)
    ensures g in a || g in b
  {
    SortByElements(a + b, StartsBefore);
    assert g in multiset(SortBy(a + b, StartsBefore));
    assert g in a + b;
  }

  lemma HistoryMembers(groups: seq<seq<Message>>, run: Id, summary: Option<SummaryView>, g: seq<Message>)
    requires g in HistoryGroups(groups, run, summary)
    ensures g in groups && g != [] && g[0].runId != run
    ensures summary.Some? ==> g[|g| - 1].threadSeq > summary.value.covered
  {
    OfRunMembers(groups, run, false, g);
    if summary.Some? { UncoveredMembers(OfRun(groups, run, false), summary.value.covered, g); }
  }

  /** The prompt never splits a tool group: its messages read back as exactly the chosen groups. */
  lemma ChosenGroupsReadBack(
    c: Config, items: seq<Message>, run: Id, isLocal: bool,
    summary: Option<SummaryView>, notes: seq<Recall>, hits: seq<Recall>, a: Assembly)
    requires ValidConfig(c) && Parse(Allowed(items, isLocal)).Some?
    requires Assembled(c, CompleteGroups(Parse(Allowed(items, isLocal)).value), run, isLocal, summary, notes, hits, a)
    ensures Parse(Flatten(a.groups)).Some? && CompleteGroups(Parse(Flatten(a.groups)).value) == a.groups
  {
    var groups := CompleteGroups(Parse(Allowed(items, isLocal)).value);
    forall g | g in a.groups ensures g in groups {
      ChosenGroup(c, groups, run, isLocal, summary, notes, hits, a, g);
    }
    SelectedGroupsReadBack(Allowed(items, isLocal), a.groups);
  }

  /** `watermark` falls between groups, never inside one. */
  ghost predicate BetweenGroups(groups: seq<seq<Message>>, watermark: nat) {
    forall g, m, n :: g in groups && m in g && n in g && m.threadSeq <= watermark ==> n.threadSeq <= watermark
  }

  /** When the summary survives and its watermark falls between groups, no history message it covers is repeated. */
  lemma SummaryReplacesHistory(
    c: Config, groups: seq<seq<Message>>, run: Id, isLocal: bool,
    summary: Option<SummaryView>, notes: seq<Recall>, hits: seq<Recall>, a: Assembly, g: seq<Message>, m: Message)
    requires ValidConfig(c) && Assembled(c, groups, run, isLocal, summary, notes, hits, a)
    requires a.summary.Some? && BetweenGroups(groups, a.summary.value.covered)
    requires g in a.groups && m in g && g[0].runId != run
    ensures m.threadSeq > a.summary.value.covered
  {
    ChosenGroup(c, groups, run, isLocal, summary, notes, hits, a, g);
    assert g[|g| - 1] in g;
  }

  /** What `_fit` keeps is in the order it was given, also when it fits the newest first. */
  lemma FittingKeepsOrder(groups: seq<seq<Message>>, c: Config, budget: nat, recentFirst: bool)
    ensures Subsequence(FittingGroups(groups, c, budget, recentFirst), groups)
  {
    var fits := (x: seq<Message>) => UnderCeiling(x, c);
    var ordered := if recentFirst then Reversed(groups) else groups;
    GreedyIsMaximal(ordered, fits, GroupSize, budget);
    if recentFirst {
      SubsequenceReversed(Greedy(ordered, fits, GroupSize, budget), ordered);
      assert Reversed(Reversed(groups)) == groups;
    }
  }

  /** History takes as much as it can: a group that belongs there and was left out would not fit beside what was
      kept. */
  lemma HistoryIsMaximal(groups: seq<seq<Message>>, c: Config, budget: nat, recentFirst: bool, g: seq<Message>)
    requires g in groups && UnderCeiling(g, c) && g !in FittingGroups(groups, c, budget, recentFirst)
    ensures Total(FittingGroups(groups, c, budget, recentFirst), GroupSize) + GroupSize(g) > budget
  {
    var fits := (x: seq<Message>) => UnderCeiling(x, c);
    var ordered := if recentFirst then Reversed(groups) else groups;
    GreedyIsMaximal(ordered, fits, GroupSize, budget);
    if recentFirst {
      ReversedMembers(groups);
      ReversedMembers(Greedy(ordered, fits, GroupSize, budget));
      TotalReversed(Greedy(ordered, fits, GroupSize, budget), GroupSize);
    }
  }

  /** What the filter lets through: nothing secret, and confidential messages only for a local provider. */
  lemma {:induction false} AllowedMembers(items: seq<Message>, isLocal: bool, m: Message)
    ensures m in Allowed(items, isLocal) <==> m in items && ProviderAllowed(m.classification, isLocal)
    ensures m in Allowed(items, isLocal)
      <==> m in items && m.classification != Secret && (m.classification == Confidential ==> isLocal)
    decreases |items|
  {
    if items != [] {
      AllowedMembers(items[..|items| - 1], isLocal, m);
      assert items == items[..|items| - 1] + [items[|items| - 1]];
    }
  }

  /** Every chunk is kept as a group or counted as incomplete. */
  lemma {:induction false} EveryChunkCounts(chunks: seq<Chunk>, g: seq<Message>)
    ensures |CompleteGroups(chunks)| + IncompleteCount(chunks) == |chunks|
    ensures g in CompleteGroups(chunks) <==> Chunk(g, true) in chunks
    decreases |chunks|
  {
    if chunks != [] {
      EveryChunkCounts(chunks[1..], g);
      assert chunks == [chunks[0]] + chunks[1..];
    }
  }

  lemma {:induction false} GroupInChunks(chunks: seq<Chunk>, g: seq<Message>)
    requires g in CompleteGroups(chunks)
    ensures exists c :: c in chunks && c.items == g
    decreases |chunks|
  {
    if chunks[0].complete && g == chunks[0].items {
      assert chunks[0] in chunks;
    } else {
      GroupInChunks(chunks[1..], g);
      var c :| c in chunks[1..] && c.items == g;
      assert c in chunks;
    }
  }

  /** Secret messages never reach a prompt, and confidential ones only a local provider's. */
  lemma NothingBlockedEnters(
    c: Config, items: seq<Message>, run: Id, isLocal: bool,
    summary: Option<SummaryView>, notes: seq<Recall>, hits: seq<Recall>, a: Assembly, g: seq<Message>, m: Message)
    requires ValidConfig(c) && Parse(Allowed(items, isLocal)).Some?
    requires Assembled(c, CompleteGroups(Parse(Allowed(items, isLocal)).value), run, isLocal, summary, notes, hits, a)
    requires g in a.groups && m in g
    ensures m in items && m.classification != Secret && (m.classification == Confidential ==> isLocal)
  {
    var chunks := Parse(Allowed(items, isLocal)).value;
    ChosenGroup(c, CompleteGroups(chunks), run, isLocal, summary, notes, hits, a, g);
    GroupInChunks(chunks, g);
    var chunk :| chunk in chunks && chunk.items == g;
    ItemsInLog(chunks, chunk, m);
    ParseCutsWell(Allowed(items, isLocal));
    AllowedMembers(items, isLocal, m);
  }

  /** A remote provider's log that keeps a result, and nothing before it, has an orphan. */
  lemma {:induction false} FilteredCallOrphansItsResult(call: Message, answer: Message)
    requires call.classification.Confidential? && ProviderAllowed(answer.classification, false) && answer.result.Some?
    ensures Allowed([call, answer], false) == [answer] && Parse(Allowed([call, answer], false)).None?
  {
    assert [call][..0] == [] && [call, answer][..1] == [call];
    assert Allowed([call], false) == [];
  }
}
