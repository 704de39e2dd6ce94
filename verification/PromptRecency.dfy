/** Which groups a full budget keeps: of history the newest, of the current run the oldest; and what else a prompt may
    hold. */
module PromptRecency {
  import opened Basics
  import opened Messages
  import opened Pairing
  import opened Groups
  import opened GroupLaws
  import opened Budgets
  import opened Sorting
  import opened Context
  import opened ContextLaws
  import opened PromptOrder

  // ----- What a selection in order leaves out -----

  lemma {:induction false} SameWeights<T>(items: seq<T>, a: T -> nat, b: T -> nat)
    requires forall x :: x in items ==> a(x) == b(x)
    ensures Total(items, a) == Total(items, b)
    decreases |items|
  {
    if items != [] { SameWeights(items[..|items| - 1], a, b); }
  }

  lemma {:induction false} NoWeight<T>(items: seq<T>, weight: T -> nat)
    requires forall x :: x in items ==> weight(x) == 0
    ensures Total(items, weight) == 0
    decreases |items|
  {
    if items != [] { NoWeight(items[..|items| - 1], weight); }
  }

  /** A selection starts with the selection of any beginning. */
  lemma {:induction false} GreedyPrefix<T(!new)>(items: seq<T>, i: nat, eligible: T -> bool, size: T -> nat,
      budget: nat)
    requires i <= |items|
    ensures Greedy(items[..i], eligible, size, budget) <= Greedy(items, eligible, size, budget)
    decreases |items|
  {
    var n := |items| - 1;
    if i <= n {
      assert items[..n][..i] == items[..i];
      GreedyPrefix(items[..n], i, eligible, size, budget);
    } else {
      assert items[..i] == items;
    }
  }

  /** An eligible item left out does not fit beside what was taken before it. */
  lemma {:induction false} LeftOutDoesNotFit<T(!new)>(items: seq<T>, i: nat, eligible: T -> bool, size: T -> nat,
      budget: nat)
    requires i < |items| && eligible(items[i]) && items[i] !in Greedy(items, eligible, size, budget)
    ensures Total(Greedy(items[..i], eligible, size, budget), size) + size(items[i]) > budget
  {
    GreedyPrefix(items, i + 1, eligible, size, budget);
    assert items[..i + 1][..i] == items[..i];
    var taken := Greedy(items[..i], eligible, size, budget);
    assert items[i] in taken + [items[i]];
  }

  /** When only the first items count, and count in full, a selection weighs what its beginning is long. */
  lemma {:induction false} GreedyWeight<T(!new)>(items: seq<T>, i: nat, eligible: T -> bool, size: T -> nat,
      budget: nat,
      weight: T -> nat)
    requires i <= |items|
    requires forall j :: 0 <= j < i ==> weight(items[j]) == size(items[j])
    requires forall j :: i <= j < |items| ==> weight(items[j]) == 0
    ensures Total(Greedy(items, eligible, size, budget), weight)
      == Total(Greedy(items[..i], eligible, size, budget), size)
    decreases |items|
  {
    var n := |items| - 1;
    if i <= n {
      assert items[..n][..i] == items[..i];
      GreedyWeight(items[..n], i, eligible, size, budget, weight);
      TotalSnoc(Greedy(items[..n], eligible, size, budget), items[n], weight);
    } else {
      assert items[..i] == items;
      GreedyIsMaximal(items, eligible, size, budget);
      SameWeights(Greedy(items, eligible, size, budget), weight, size);
    }
  }

  // ----- Parts of a prompt -----

  /** What a group counts among the history groups that begin after `at`. */
  function HistoryAfter(run: Id, at: int): seq<Message> -> nat {
    (g: seq<Message>) => if g != [] && g[0].runId != run && g[0].threadSeq > at then GroupSize(g) else 0
  }

  /** What a group counts among those of the current run that begin before `at`. */
  function CurrentBefore(run: Id, at: int): seq<Message> -> nat {
    (g: seq<Message>) => if g != [] && g[0].runId == run && g[0].threadSeq < at then GroupSize(g) else 0
  }

  /** What a group counts among those of the current run. */
  function Current(run: Id): seq<Message> -> nat {
    (g: seq<Message>) => if g != [] && g[0].runId == run then GroupSize(g) else 0
  }

  /** A message that calls or answers makes its group a tool group, with a ceiling of its own. */
  predicate BelowCeiling(g: seq<Message>, c: Config) {
    GroupSize(g) <= if exists m :: m in g && (m.calls != [] || m.result.Some?) then c.toolGroup else c.singleMessage
  }

  lemma CeilingMeans(g: seq<Message>, c: Config)
    ensures UnderCeiling(g, c) <==> BelowCeiling(g, c)
  {
    if m :| m in g && (m.calls != [] || m.result.Some?) {
      var i :| 0 <= i < |g| && g[i] == m;
      assert IsToolGroup(g);
    }
  }

  /** The groups of a prompt weigh what their two parts weigh. */
  lemma PartsWeigh(history: seq<seq<Message>>, current: seq<seq<Message>>, weight: seq<Message> -> nat)
    ensures Total(SortBy(history + current, StartsBefore), weight) == Total(history, weight) + Total(current, weight)
    ensures forall g :: g in history || g in current ==> g in SortBy(history + current, StartsBefore)
  {
    SortByElements(history + current, StartsBefore);
    SameElements(SortBy(history + current, StartsBefore), history + current);
    TotalPermuted(SortBy(history + current, StartsBefore), history + current, weight);
    TotalAppend(history, current, weight);
  }

  lemma CurrentIsOfRun(groups: seq<seq<Message>>, run: Id, c: Config)
    requires ValidConfig(c)
    ensures forall g :: g in CurrentGroups(groups, run, c) ==> OfItsRun(g, run, true)
    ensures Total(CurrentGroups(groups, run, c), Current(run)) == Total(CurrentGroups(groups, run, c), GroupSize)
    ensures Total(CurrentGroups(groups, run, c), GroupSize) <= c.currentRun
  {
    FittingWithin(OfRun(groups, run, true), c, c.currentRun, false);
    forall g | g in CurrentGroups(groups, run, c) ensures OfItsRun(g, run, true) {
      OfRunMembers(groups, run, true, g);
    }
    SameWeights(CurrentGroups(groups, run, c), Current(run), GroupSize);
  }

  lemma HistoryIsOfOthers(groups: seq<seq<Message>>, run: Id, c: Config, s: Option<SummaryView>, left: int)
    ensures forall g :: g in KeptHistory(groups, run, c, s, left) ==> OfItsRun(g, run, false)
  {
    FittingWithin(HistoryGroups(groups, run, s), c, SmallerOf(c.history, left), true);
    forall g | g in KeptHistory(groups, run, c, s, left) ensures OfItsRun(g, run, false) {
      HistoryMembers(groups, run, s, g);
    }
  }

  // ----- Newest history first -----

  lemma {:induction false} HistoryClimbs(groups: seq<seq<Message>>, run: Id, s: Option<SummaryView>)
    requires HeadsClimb(groups)
    ensures HeadsClimb(HistoryGroups(groups, run, s)) && HeadsClimb(OfRun(groups, run, true))
  {
    var others := OfRun(groups, run, false);
    OfRunKeepsOrder(groups, run, false);
    SubsequenceHeads(others, groups);
    OfRunKeepsOrder(groups, run, true);
    SubsequenceHeads(OfRun(groups, run, true), groups);
    if s.Some? {
      UncoveredKeepsOrder(others, s.value.covered);
      SubsequenceHeads(Uncovered(others, s.value.covered), others);
    }
  }

  /** Fitted newest first: a group left out does not fit beside the later ones that were kept. */
  lemma {:induction false} NewestFit(history: seq<seq<Message>>, c: Config, budget: nat, run: Id, g: seq<Message>)
    requires HeadsClimb(history) && forall h :: h in history ==> OfItsRun(h, run, false)
    requires g in history && UnderCeiling(g, c) && g !in FittingGroups(history, c, budget, true)
    ensures Total(FittingGroups(history, c, budget, true), HistoryAfter(run, g[0].threadSeq)) + GroupSize(g) > budget
  {
    var fits, weight := (x: seq<Message>) => UnderCeiling(x, c), HistoryAfter(run, g[0].threadSeq);
    var k :| 0 <= k < |history| && history[k] == g;
    var ordered, i := Reversed(history), |history| - 1 - k;
    var taken := Greedy(ordered, fits, GroupSize, budget);
    ReversedMembers(taken);
    TotalReversed(taken, weight);
    forall j | 0 <= j < |ordered| ensures weight(ordered[j]) == if j < i then GroupSize(ordered[j]) else 0 {
      NewerWeigh(history, run, k, |history| - 1 - j);
    }
    GreedyWeight(ordered, i, fits, GroupSize, budget, weight);
    LeftOutDoesNotFit(ordered, i, fits, GroupSize, budget);
  }

  lemma NewerWeigh(history: seq<seq<Message>>, run: Id, k: nat, j: nat)
    requires HeadsClimb(history) && k < |history| && j < |history| && OfItsRun(history[j], run, false)
    ensures history[k] != []
    ensures HistoryAfter(run, history[k][0].threadSeq)(history[j]) == if j > k then GroupSize(history[j]) else 0
  {
    OneSide(history, k, j);
  }

  lemma OneSide(history: seq<seq<Message>>, k: nat, j: nat)
    requires HeadsClimb(history) && k < |history| && j < |history|
    ensures history[j] in history && history[j] != [] && history[k] != []
    ensures history[j][0].threadSeq > history[k][0].threadSeq <==> j > k
  {
    if j < k { assert HeadBefore(history[j], history[k]); } else if k < j { assert HeadBefore(history[k], history[j]); }
    assert history[j] in history && history[k] in history;
  }

  /** Fitted oldest first: a group left out does not fit beside the earlier ones that were kept. */
  lemma {:induction false} OldestFit(groups: seq<seq<Message>>, c: Config, budget: nat, run: Id, g: seq<Message>)
    requires HeadsClimb(groups) && forall h :: h in groups ==> OfItsRun(h, run, true)
    requires g in groups && UnderCeiling(g, c) && g !in FittingGroups(groups, c, budget, false)
    ensures Total(FittingGroups(groups, c, budget, false), CurrentBefore(run, g[0].threadSeq)) + GroupSize(g) > budget
  {
    var fits, weight := (x: seq<Message>) => UnderCeiling(x, c), CurrentBefore(run, g[0].threadSeq);
    var k :| 0 <= k < |groups| && groups[k] == g;
    forall j | 0 <= j < |groups| ensures weight(groups[j]) == if j < k then GroupSize(groups[j]) else 0 {
      OneSide(groups, j, k);
      assert groups[j] in groups;
    }
    GreedyWeight(groups, k, fits, GroupSize, budget, weight);
    LeftOutDoesNotFit(groups, k, fits, GroupSize, budget);
  }

  /** The readable groups of a climbing log climb. */
  lemma ReadableClimb(allowed: seq<Message>)
    requires Climbing(ThreadSeqs(allowed)) && Parse(allowed).Some?
    ensures HeadsClimb(CompleteGroups(Parse(allowed).value))
  {
    ParseCutsWell(allowed);
    CompleteHeads(Parse(allowed).value);
  }

  /** A history group that could be quoted and is not does not fit beside the history groups kept after it: it would
      exceed the history budget, or the total together with everything else in the prompt. */
  lemma {:induction false} NewestHistoryFirst(
    c: Config, items: seq<Message>, run: Id, isLocal: bool, summary: Option<SummaryView>, notes: seq<Recall>,
    hits: seq<Recall>, a: Assembly, g: seq<Message>)
    requires ValidConfig(c) && Climbing(ThreadSeqs(Allowed(items, isLocal))) && Parse(Allowed(items, isLocal)).Some?
    requires Assembled(c, CompleteGroups(Parse(Allowed(items, isLocal)).value), run, isLocal, summary, notes, hits, a)
    requires g in CompleteGroups(Parse(Allowed(items, isLocal)).value) && g !in a.groups
    requires g != [] && g[0].runId != run && BelowCeiling(g, c)
    requires a.summary.Some? ==> g[|g| - 1].threadSeq > a.summary.value.covered
    ensures var kept := Total(a.groups, HistoryAfter(run, g[0].threadSeq)) + GroupSize(g);
            || kept > c.history
            || SummarySize(a.summary) + Total(a.notes, RecallSize) + Total(a.hits, RecallSize)
              + Total(a.groups, Current(run)) + kept > c.total
  {
    ReadableClimb(Allowed(items, isLocal));
    var groups := CompleteGroups(Parse(Allowed(items, isLocal)).value);
    NewestOfGroupsFirst(c, groups, run, isLocal, summary, notes, hits, a, g);
  }

  lemma {:induction false} NewestOfGroupsFirst(
    c: Config, groups: seq<seq<Message>>, run: Id, isLocal: bool, summary: Option<SummaryView>, notes: seq<Recall>,
    hits: seq<Recall>, a: Assembly, g: seq<Message>)
    requires ValidConfig(c) && HeadsClimb(groups) && Assembled(c, groups, run, isLocal, summary, notes, hits, a)
    requires g in groups && g !in a.groups && OfItsRun(g, run, false) && BelowCeiling(g, c)
    requires a.summary.Some? ==> g[|g| - 1].threadSeq > a.summary.value.covered
    ensures var kept := Total(a.groups, HistoryAfter(run, g[0].threadSeq)) + GroupSize(g);
            || kept > c.history
            || SummarySize(a.summary) + Total(a.notes, RecallSize) + Total(a.hits, RecallSize)
              + Total(a.groups, Current(run)) + kept > c.total
  {
    var left := LeftOver(c.total, Total(CurrentGroups(groups, run, c), GroupSize), a.summary, a.notes, a.hits);
    PromptWeighs(groups, run, c, a.summary, left, HistoryAfter(run, g[0].threadSeq));
    CurrentWeighs(groups, run, c, a.summary, left);
    HistoryLeftOut(groups, run, c, a.summary, left, g);
  }

  /** What counts nothing in the current run counts in the prompt what it counts in history. */
  lemma PromptWeighs(groups: seq<seq<Message>>, run: Id, c: Config, s: Option<SummaryView>, left: int,
      weight: seq<Message> -> nat)
    requires ValidConfig(c) && forall g :: OfItsRun(g, run, true) ==> weight(g) == 0
    ensures var kept, current := KeptHistory(groups, run, c, s, left), CurrentGroups(groups, run, c);
            Total(SortBy(kept + current, StartsBefore), weight) == Total(kept, weight)
              && forall g :: g in kept ==> g in SortBy(kept + current, StartsBefore)
  {
    CurrentIsOfRun(groups, run, c);
    PartsWeigh(KeptHistory(groups, run, c, s, left), CurrentGroups(groups, run, c), weight);
    NoWeight(CurrentGroups(groups, run, c), weight);
  }

  lemma CurrentWeighs(groups: seq<seq<Message>>, run: Id, c: Config, s: Option<SummaryView>, left: int)
    requires ValidConfig(c)
    ensures var kept, current := KeptHistory(groups, run, c, s, left), CurrentGroups(groups, run, c);
            Total(SortBy(kept + current, StartsBefore), Current(run)) == Total(current, GroupSize) <= c.currentRun
  {
    HistoryIsOfOthers(groups, run, c, s, left);
    CurrentIsOfRun(groups, run, c);
    PartsWeigh(KeptHistory(groups, run, c, s, left), CurrentGroups(groups, run, c), Current(run));
    NoWeight(KeptHistory(groups, run, c, s, left), Current(run));
  }

  lemma HistoryLeftOut(groups: seq<seq<Message>>, run: Id, c: Config, s: Option<SummaryView>, left: int,
      g: seq<Message>)
    requires HeadsClimb(groups) && g in groups && OfItsRun(g, run, false) && BelowCeiling(g, c)
    requires (s.Some? ==> g[|g| - 1].threadSeq > s.value.covered) && g !in KeptHistory(groups, run, c, s, left)
    ensures Total(KeptHistory(groups, run, c, s, left), HistoryAfter(run, g[0].threadSeq)) + GroupSize(g)
      > SmallerOf(c.history, left)
  {
    HistoryClimbs(groups, run, s);
    IsHistory(groups, run, s, g);
    CeilingMeans(g, c);
    var history := HistoryGroups(groups, run, s);
    forall h | h in history ensures OfItsRun(h, run, false) { HistoryMembers(groups, run, s, h); }
    NewestFit(history, c, SmallerOf(c.history, left), run, g);
  }

  lemma IsHistory(groups: seq<seq<Message>>, run: Id, s: Option<SummaryView>, g: seq<Message>)
    requires g in groups && g != [] && g[0].runId != run && (s.Some? ==> g[|g| - 1].threadSeq > s.value.covered)
    ensures g in HistoryGroups(groups, run, s)
  {
    OfRunMembers(groups, run, false, g);
    if s.Some? { UncoveredMembers(OfRun(groups, run, false), s.value.covered, g); }
  }

  /** A group of the current run that could be quoted and is not does not fit beside those kept before it. */
  lemma {:induction false} OldestOfCurrentRunFirst(
    c: Config, items: seq<Message>, run: Id, isLocal: bool, summary: Option<SummaryView>, notes: seq<Recall>,
    hits: seq<Recall>, a: Assembly, g: seq<Message>)
    requires ValidConfig(c) && Climbing(ThreadSeqs(Allowed(items, isLocal))) && Parse(Allowed(items, isLocal)).Some?
    requires Assembled(c, CompleteGroups(Parse(Allowed(items, isLocal)).value), run, isLocal, summary, notes, hits, a)
    requires g in CompleteGroups(Parse(Allowed(items, isLocal)).value) && g !in a.groups
    requires g != [] && g[0].runId == run && BelowCeiling(g, c)
    ensures Total(a.groups, CurrentBefore(run, g[0].threadSeq)) + GroupSize(g) > c.currentRun
  {
    var groups := CompleteGroups(Parse(Allowed(items, isLocal)).value);
    var current, weight := CurrentGroups(groups, run, c), CurrentBefore(run, g[0].threadSeq);
    var left := LeftOver(c.total, Total(current, GroupSize), a.summary, a.notes, a.hits);
    ReadableClimb(Allowed(items, isLocal));
    HistoryClimbs(groups, run, a.summary);
    OfRunMembers(groups, run, true, g);
    CeilingMeans(g, c);
    HistoryIsOfOthers(groups, run, c, a.summary, left);
    PartsWeigh(KeptHistory(groups, run, c, a.summary, left), current, weight);
    NoWeight(KeptHistory(groups, run, c, a.summary, left), weight);
    forall h | h in OfRun(groups, run, true) ensures OfItsRun(h, run, true) { OfRunMembers(groups, run, true, h); }
    OldestFit(OfRun(groups, run, true), c, c.currentRun, run, g);
  }

  // ----- Notes, hits, the summary and the budgets of each part -----

  /** Active, never secret, and confidential only for a local provider. */
  predicate MayEnter(active: bool, c: Classification, isLocal: bool) {
    active && c != Secret && (c == Confidential ==> isLocal)
  }

  /** Notes and hits are taken in the order given: one that may enter and was left out does not fit beside those taken
      before it. */
  lemma {:induction false} EarlierRecallsFirst(recalls: seq<Recall>, i: nat, isLocal: bool, budget: nat)
    requires i < |recalls| && MayEnter(recalls[i].active, recalls[i].classification, isLocal)
    ensures FittingRecalls(recalls[..i], isLocal, budget) <= FittingRecalls(recalls, isLocal, budget)
    ensures recalls[i] !in FittingRecalls(recalls, isLocal, budget) ==>
      Total(FittingRecalls(recalls[..i], isLocal, budget), RecallSize) + recalls[i].size > budget
  {
    var eligible := (r: Recall) => Eligible(r, isLocal);
    GreedyPrefix(recalls, i, eligible, RecallSize, budget);
    if recalls[i] !in Greedy(recalls, eligible, RecallSize, budget) {
      LeftOutDoesNotFit(recalls, i, eligible, RecallSize, budget);
    }
  }

  lemma RecallsMayEnter(recalls: seq<Recall>, isLocal: bool, budget: nat, kept: seq<Recall>)
    requires kept <= FittingRecalls(recalls, isLocal, budget)
    ensures Total(kept, RecallSize) <= budget
    ensures forall r :: r in kept ==> r in recalls && MayEnter(r.active, r.classification, isLocal)
  {
    var all := FittingRecalls(recalls, isLocal, budget);
    GreedyIsMaximal(recalls, (r: Recall) => Eligible(r, isLocal), RecallSize, budget);
    assert all == kept + all[|kept|..];
    TotalAppend(kept, all[|kept|..], RecallSize);
  }

  lemma HistoryWeighs(groups: seq<seq<Message>>, run: Id, c: Config, s: Option<SummaryView>, left: int)
    requires ValidConfig(c)
    ensures Total(KeptHistory(groups, run, c, s, left), HistoryAfter(run, -1)) <= c.history
  {
    HistoryIsOfOthers(groups, run, c, s, left);
    SameWeights(KeptHistory(groups, run, c, s, left), HistoryAfter(run, -1), GroupSize);
    FittingWithin(HistoryGroups(groups, run, s), c, SmallerOf(c.history, left), true);
  }

  /** Every part of a prompt keeps to its own budget, and nothing enters that is inactive or not for the provider. */
  lemma {:induction false} EveryPartWithinItsBudget(
    c: Config, groups: seq<seq<Message>>, run: Id, isLocal: bool, summary: Option<SummaryView>, notes: seq<Recall>,
    hits: seq<Recall>, a: Assembly)
    requires ValidConfig(c) && Assembled(c, groups, run, isLocal, summary, notes, hits, a)
    ensures a.summary.Some? ==>
      a.summary == summary && MayEnter(a.summary.value.active, a.summary.value.classification, isLocal)
        && a.summary.value.size <= c.summary
    ensures Total(a.notes, RecallSize) <= c.notes && Total(a.hits, RecallSize) <= c.retrieval
    ensures forall r :: r in a.notes ==> r in notes && MayEnter(r.active, r.classification, isLocal)
    ensures forall r :: r in a.hits ==> r in hits && MayEnter(r.active, r.classification, isLocal)
    ensures Total(a.groups, Current(run)) <= c.currentRun
    ensures Total(a.groups, HistoryAfter(run, -1)) <= c.history
    ensures forall g :: g in a.groups ==> BelowCeiling(g, c)
  {
    RecallsMayEnter(notes, isLocal, c.notes, a.notes);
    RecallsMayEnter(hits, isLocal, c.retrieval, a.hits);
    GroupsWithinBudgets(c, groups, run, isLocal, summary, notes, hits, a);
  }

  lemma {:induction false} GroupsWithinBudgets(
    c: Config, groups: seq<seq<Message>>, run: Id, isLocal: bool, summary: Option<SummaryView>, notes: seq<Recall>,
    hits: seq<Recall>, a: Assembly)
    requires ValidConfig(c) && Assembled(c, groups, run, isLocal, summary, notes, hits, a)
    ensures Total(a.groups, Current(run)) <= c.currentRun
    ensures Total(a.groups, HistoryAfter(run, -1)) <= c.history
    ensures forall g :: g in a.groups ==> BelowCeiling(g, c)
  {
    var current := CurrentGroups(groups, run, c);
    var left := LeftOver(c.total, Total(current, GroupSize), a.summary, a.notes, a.hits);
    CurrentWeighs(groups, run, c, a.summary, left);
    PromptWeighs(groups, run, c, a.summary, left, HistoryAfter(run, -1));
    HistoryWeighs(groups, run, c, a.summary, left);
    forall g | g in a.groups ensures BelowCeiling(g, c) {
      ChosenGroup(c, groups, run, isLocal, summary, notes, hits, a, g);
      CeilingMeans(g, c);
    }
  }

  /** The summary gives way only when it may not enter, or when nothing else is left to give way. */
  lemma SummaryGivesWayLast(
    c: Config, groups: seq<seq<Message>>, run: Id, isLocal: bool, summary: Option<SummaryView>, notes: seq<Recall>,
    hits: seq<Recall>, a: Assembly)
    requires ValidConfig(c) && Assembled(c, groups, run, isLocal, summary, notes, hits, a)
    requires summary.Some? && a.summary.None? && summary.value.size <= c.summary
    requires MayEnter(summary.value.active, summary.value.classification, isLocal)
    ensures a.notes == [] && a.hits == [] && Total(a.groups, Current(run)) + summary.value.size > c.total
  {
    var current := CurrentGroups(groups, run, c);
    var left := LeftOver(c.total, Total(current, GroupSize), a.summary, a.notes, a.hits);
    CurrentWeighs(groups, run, c, a.summary, left);
  }

  /** A prompt reads: the summary, the notes, the hits, then the messages of the groups. */
  lemma PromptReads(a: Assembly)
    ensures var p, s, n, h, q := Prompt(a), |SummaryList(a)|, |a.notes|, |a.hits|, Flatten(a.groups);
            && |p| == s + n + h + |q|
            && (a.summary.Some? ==> s == 1 && p[0] == SummaryText(a.summary.value))
            && (forall i :: 0 <= i < n ==> p[s + i] == NoteText(a.notes[i]))
            && (forall i :: 0 <= i < h ==> p[s + n + i] == HitText(a.hits[i]))
            && (forall i :: 0 <= i < |q| ==> p[s + n + h + i] == MessageText(q[i]))
  {
  }

  function SummaryList(a: Assembly): seq<SummaryView> {
    match a.summary case None => [] case Some(s) => [s]
  }
}
