/** Prompt context under character budgets (`secminiagent/memory/context_assembler.py`). */
module Context {
  import opened Basics
  import opened Messages
  import opened Groups
  import opened GroupLaws
  import opened GroupReaders
  import opened Budgets
  import opened Sorting

  datatype Config = Config(
    total: int, currentRun: int, history: int, singleMessage: int, toolGroup: int,
    summary: int, notes: int, retrieval: int)

  /** What `ContextBudgets` accepts: positive budgets, and no message category above the total. */
  predicate ValidConfig(c: Config) {
    && c.total >= 1 && c.currentRun >= 1 && c.history >= 1 && c.singleMessage >= 1
    && c.toolGroup >= 1 && c.summary >= 1 && c.notes >= 1 && c.retrieval >= 1
    && c.currentRun <= c.total && c.history <= c.total
  }

  /** A note or a search hit; `size` is the length of its rendering. */
  datatype Recall = Recall(id: Id, size: nat, classification: Classification, active: bool)

  /** The rolling summary handed to the assembler. */
  datatype SummaryView = SummaryView(id: Id, size: nat, classification: Classification, active: bool, covered: nat)

  datatype Rendered = SummaryText(s: SummaryView) | NoteText(n: Recall) | HitText(h: Recall) | MessageText(m: Message)

  datatype Assembly = Assembly(
    summary: Option<SummaryView>, notes: seq<Recall>, hits: seq<Recall>, groups: seq<seq<Message>>,
    incompleteGroups: nat, used: nat)

  // ----- Sizes -----

  function RenderedSize(r: Rendered): nat {
    match r
    case SummaryText(s) => s.size
    case NoteText(n) => n.size
    case HitText(h) => h.size
    case MessageText(m) => m.size
  }

  function MessageSize(m: Message): nat { m.size }

  function RecallSize(r: Recall): nat { r.size }

  function GroupSize(g: seq<Message>): nat {
    Total(g, MessageSize)
  }

  function SummarySize(s: Option<SummaryView>): nat {
    match s case None => 0 case Some(v) => v.size
  }

  function Mapped<T>(items: seq<T>, wrap: T -> Rendered): (r: seq<Rendered>)
    ensures |r| == |items|
  {
    seq(|items|, i requires 0 <= i < |items| => wrap(items[i]))
  }

  /** The prompt, in order: summary, notes, hits, then the messages of the chosen groups. */
  function Prompt(a: Assembly): seq<Rendered> {
    (if a.summary.Some? then [SummaryText(a.summary.value)] else [])
    + Mapped(a.notes, (n: Recall) => NoteText(n))
    + Mapped(a.hits, (h: Recall) => HitText(h))
    + Mapped(Flatten(a.groups), (m: Message) => MessageText(m))
  }

  // ----- What may enter -----

  /** Secret text never enters; confidential text only for a local provider. */
  predicate ProviderAllowed(c: Classification, isLocal: bool) {
    !c.Secret? && (c.Confidential? ==> isLocal)
  }

  function Allowed(items: seq<Message>, isLocal: bool): seq<Message> {
    if items == [] then [] else
      var m := items[|items| - 1];
      Allowed(items[..|items| - 1], isLocal) + (if ProviderAllowed(m.classification, isLocal) then [m] else [])
  }

  predicate Eligible(r: Recall, isLocal: bool) {
    r.active && ProviderAllowed(r.classification, isLocal)
  }

  predicate IsToolGroup(g: seq<Message>) {
    exists i :: 0 <= i < |g| && (g[i].calls != [] || g[i].result.Some?)
  }

  predicate UnderCeiling(g: seq<Message>, c: Config) {
    GroupSize(g) <= if IsToolGroup(g) then c.toolGroup else c.singleMessage
  }

  function FittingRecalls(recalls: seq<Recall>, isLocal: bool, budget: nat): seq<Recall> {
    Greedy(recalls, (r: Recall) => Eligible(r, isLocal), RecallSize, budget)
  }

  /** The groups `_fit` keeps: oldest first, or newest first and then put back in order. */
  function FittingGroups(groups: seq<seq<Message>>, c: Config, budget: nat, recentFirst: bool): seq<seq<Message>> {
    var fits := (g: seq<Message>) => UnderCeiling(g, c);
    if recentFirst then Reversed(Greedy(Reversed(groups), fits, GroupSize, budget))
    else Greedy(groups, fits, GroupSize, budget)
  }

  // ----- The loops -----

  method FilterAllowed(items: seq<Message>, isLocal: bool) returns (allowed: seq<Message>)
    ensures allowed == Allowed(items, isLocal)
  {
    allowed := [];
    for n := 0 to |items|
      invariant allowed == Allowed(items[..n], isLocal)
    {
      assert items[..n + 1][..n] == items[..n];
      if items[n].classification.Secret? { continue; }
      if items[n].classification.Confidential? && !isLocal { continue; }
      allowed := allowed + [items[n]];
    }
    assert items[..|items|] == items;
  }

  /** Keeps each eligible note (or hit) that still fits. */
  method FitRecalls(recalls: seq<Recall>, isLocal: bool, budget: nat) returns (kept: seq<Recall>, used: nat)
    ensures kept == FittingRecalls(recalls, isLocal, budget)
    ensures used == Total(kept, RecallSize) <= budget
  {
    kept, used := [], 0;
    for n := 0 to |recalls|
      invariant kept == FittingRecalls(recalls[..n], isLocal, budget)
      invariant used == Total(kept, RecallSize) <= budget
    {
      var r := recalls[n];
      assert recalls[..n + 1][..n] == recalls[..n];
      if Eligible(r, isLocal) && used + r.size <= budget {
        TotalSnoc(kept, r, RecallSize);
        kept, used := kept + [r], used + r.size;
      }
    }
    assert recalls[..|recalls|] == recalls;
  }

  method Fit(groups: seq<seq<Message>>, c: Config, budget: nat, recentFirst: bool) returns (selected: seq<seq<Message>>)
    ensures selected == FittingGroups(groups, c, budget, recentFirst)
  {
    var ordered := if recentFirst then Reversed(groups) else groups;
    ghost var fits := (g: seq<Message>) => UnderCeiling(g, c);
    selected := [];
    var used := 0;
    for n := 0 to |ordered|
      invariant selected == Greedy(ordered[..n], fits, GroupSize, budget)
      invariant used == Total(selected, GroupSize)
    {
      var group := ordered[n];
      assert ordered[..n + 1][..n] == ordered[..n];
      if !UnderCeiling(group, c) { continue; }
      if used + GroupSize(group) > budget { continue; }
      TotalSnoc(selected, group, GroupSize);
      selected, used := selected + [group], used + GroupSize(group);
    }
    assert ordered[..|ordered|] == ordered;
    if recentFirst { selected := Reversed(selected); }
  }

  lemma ReversedMembers<T>(s: seq<T>)
    ensures forall x :: x in Reversed(s) <==> x in s
  {
    forall x | x in s ensures x in Reversed(s) {
      var i :| 0 <= i < |s| && s[i] == x;
      assert Reversed(s)[|s| - 1 - i] == x;
    }
  }

  /** Drops recalls from the end while the sum is over the limit; `others` is everything else that is in the prompt. */
  method Trim(recalls: seq<Recall>, others: nat, limit: nat) returns (kept: seq<Recall>, used: nat)
    ensures kept <= recalls && used == Total(kept, RecallSize)
    ensures kept != [] ==> others + used <= limit
    ensures |kept| < |recalls| ==> others + Total(recalls[..|kept| + 1], RecallSize) > limit
  {
    kept, used := recalls, Total(recalls, RecallSize);
    while kept != [] && others + used > limit
      invariant kept <= recalls && used == Total(kept, RecallSize)
      invariant |kept| < |recalls| ==> others + Total(recalls[..|kept| + 1], RecallSize) > limit
      decreases |kept|
    {
      assert recalls[..|kept|] == kept;
      used := used - kept[|kept| - 1].size;
      kept := kept[..|kept| - 1];
    }
  }

  // ----- assemble -----

  /** The groups of the current run, or those of the others. */
  function OfRun(groups: seq<seq<Message>>, run: Id, same: bool): seq<seq<Message>> {
    if groups == [] then [] else
      var g := groups[|groups| - 1];
      OfRun(groups[..|groups| - 1], run, same)
      + (if g != [] && (g[0].runId == run) == same then [g] else [])
  }

  /** The groups whose last message lies beyond the watermark. */
  function Uncovered(groups: seq<seq<Message>>, watermark: nat): seq<seq<Message>> {
    if groups == [] then [] else
      var g := groups[|groups| - 1];
      Uncovered(groups[..|groups| - 1], watermark) + (if g != [] && g[|g| - 1].threadSeq > watermark then [g] else [])
  }

  /** Groups are put back in thread order by their first message. */
  predicate StartsBefore(a: seq<Message>, b: seq<Message>) {
    (if a == [] then 0 else a[0].threadSeq) <= (if b == [] then 0 else b[0].threadSeq)
  }

  function UsableSummary(summary: Option<SummaryView>, c: Config, isLocal: bool): Option<SummaryView> {
    if summary.Some? && summary.value.active && ProviderAllowed(summary.value.classification, isLocal)
       && summary.value.size <= c.summary
    then summary else None
  }

  function SmallerOf(a: int, b: int): nat {
    if a <= 0 || b <= 0 then 0 else if a < b then a else b
  }

  /** Hits give way before notes and notes before the summary, each from the end and no more than needed. */
  ghost predicate Trimmed(
    total: int, base: nat, s0: Option<SummaryView>, n0: seq<Recall>, h0: seq<Recall>,
    s: Option<SummaryView>, n: seq<Recall>, h: seq<Recall>)
  {
    && h <= h0 && n <= n0 && (s == s0 || s == None)
    && (|h| < |h0| ==> base + SummarySize(s0) + Total(n0, RecallSize) + Total(h0[..|h| + 1], RecallSize) > total)
    && (|n| < |n0| ==> h == [] && base + SummarySize(s0) + Total(n0[..|n| + 1], RecallSize) > total)
    && (s != s0 ==> h == [] && n == [] && base + SummarySize(s0) > total)
    && base + SummarySize(s) + Total(n, RecallSize) + Total(h, RecallSize) <= total
  }

  /** The groups that may come beside the current run: with a summary, only those it does not cover. */
  function HistoryGroups(groups: seq<seq<Message>>, run: Id, summary: Option<SummaryView>): seq<seq<Message>> {
    var others := OfRun(groups, run, false);
    if summary.Some? then Uncovered(others, summary.value.covered) else others
  }

  function CurrentGroups(groups: seq<seq<Message>>, run: Id, c: Config): seq<seq<Message>>
    requires ValidConfig(c)
  {
    FittingGroups(OfRun(groups, run, true), c, c.currentRun, false)
  }

  /** What the summary, the recalls and the current run leave of the total. */
  function LeftOver(total: int, base: nat, s: Option<SummaryView>, n: seq<Recall>, h: seq<Recall>): int {
    total - base - SummarySize(s) - Total(n, RecallSize) - Total(h, RecallSize)
  }

  function KeptHistory(groups: seq<seq<Message>>, run: Id, c: Config, s: Option<SummaryView>,
      left: int): seq<seq<Message>> {
    FittingGroups(HistoryGroups(groups, run, s), c, SmallerOf(c.history, left), true)
  }

  /** Everything the assembler decides, given the readable groups: the current run is fitted first, the recalled texts
      are trimmed around it, and history gets what is left, newest first. */
  ghost predicate Assembled(
    c: Config, groups: seq<seq<Message>>, run: Id, isLocal: bool,
    summary: Option<SummaryView>, notes: seq<Recall>, hits: seq<Recall>, a: Assembly)
    requires ValidConfig(c)
  {
    && Trimmed(c.total, Total(CurrentGroups(groups, run, c), GroupSize), UsableSummary(summary, c, isLocal),
               FittingRecalls(notes, isLocal, c.notes), FittingRecalls(hits, isLocal, c.retrieval), a.summary, a.notes,
                 a.hits)
    && a.groups
      == SortBy(KeptHistory(groups, run, c, a.summary,
        LeftOver(c.total, Total(CurrentGroups(groups, run, c), GroupSize), a.summary, a.notes, a.hits))
                          + CurrentGroups(groups, run, c), StartsBefore)
  }

  lemma {:induction false} TotalFlatten(groups: seq<seq<Message>>)
    ensures Total(Flatten(groups), MessageSize) == Total(groups, GroupSize)
    decreases |groups|
  {
    if groups != [] {
      TotalFlatten(groups[1..]);
      TotalAppend(groups[0], Flatten(groups[1..]), MessageSize);
      assert groups == [groups[0]] + groups[1..];
      TotalAppend([groups[0]], groups[1..], GroupSize);
      assert [groups[0]] == [] + [groups[0]];
      TotalSnoc([], groups[0], GroupSize);
    }
  }

  lemma {:induction false} TotalMapped<T>(items: seq<T>, wrap: T -> Rendered, size: T -> nat)
    requires forall x :: RenderedSize(wrap(x)) == size(x)
    ensures Total(Mapped(items, wrap), RenderedSize) == Total(items, size)
    decreases |items|
  {
    if items != [] {
      var front := items[..|items| - 1];
      TotalMapped(front, wrap, size);
      assert Mapped(items, wrap)[..|front|] == Mapped(front, wrap);
    }
  }

  /** The length of a prompt is the sum of the lengths of its parts. */
  lemma PromptSize(a: Assembly)
    ensures Total(Prompt(a), RenderedSize)
         == SummarySize(a.summary) + Total(a.notes, RecallSize) + Total(a.hits, RecallSize) + Total(a.groups, GroupSize)
  {
    var head := if a.summary.Some? then [SummaryText(a.summary.value)] else [];
    var notes, hits := Mapped(a.notes, (n: Recall) => NoteText(n)), Mapped(a.hits, (h: Recall) => HitText(h));
    var messages := Mapped(Flatten(a.groups), (m: Message) => MessageText(m));
    TotalAppend(head + notes + hits, messages, RenderedSize);
    TotalAppend(head + notes, hits, RenderedSize);
    TotalAppend(head, notes, RenderedSize);
    TotalMapped(a.notes, (n: Recall) => NoteText(n), RecallSize);
    TotalMapped(a.hits, (h: Recall) => HitText(h), RecallSize);
    TotalMapped(Flatten(a.groups), (m: Message) => MessageText(m), MessageSize);
    TotalFlatten(a.groups);
    HeadSize(a.summary);
  }

  lemma HeadSize(summary: Option<SummaryView>)
    ensures Total(if summary.Some? then [SummaryText(summary.value)] else [], RenderedSize) == SummarySize(summary)
  {
    if summary.Some? {
      assert [SummaryText(summary.value)] == [] + [SummaryText(summary.value)];
      TotalSnoc([], SummaryText(summary.value), RenderedSize);
    }
  }

  /** An assembly that follows the rules never exceeds the total budget. */
  lemma AssembledWithinBudget(
    c: Config, groups: seq<seq<Message>>, run: Id, isLocal: bool,
    summary: Option<SummaryView>, notes: seq<Recall>, hits: seq<Recall>, a: Assembly)
    requires ValidConfig(c) && Assembled(c, groups, run, isLocal, summary, notes, hits, a)
    ensures Total(Prompt(a), RenderedSize) <= c.total
  {
    var left := LeftOver(c.total, Total(CurrentGroups(groups, run, c), GroupSize), a.summary, a.notes, a.hits);
    FittingWithin(HistoryGroups(groups, run, a.summary), c, SmallerOf(c.history, left), true);
    SortedTotal(KeptHistory(groups, run, c, a.summary, left), CurrentGroups(groups, run, c));
    PromptSize(a);
  }

  lemma SortedTotal(chosen: seq<seq<Message>>, current: seq<seq<Message>>)
    ensures Total(SortBy(chosen + current, StartsBefore), GroupSize)
      == Total(chosen, GroupSize) + Total(current, GroupSize)
  {
    SortByElements(chosen + current, StartsBefore);
    TotalPermuted(SortBy(chosen + current, StartsBefore), chosen + current, GroupSize);
    TotalAppend(chosen, current, GroupSize);
  }

  lemma FittingWithin(groups: seq<seq<Message>>, c: Config, budget: nat, recentFirst: bool)
    ensures Total(FittingGroups(groups, c, budget, recentFirst), GroupSize) <= budget
    ensures forall g :: g in FittingGroups(groups, c, budget, recentFirst) ==> g in groups && UnderCeiling(g, c)
  {
    var fits := (g: seq<Message>) => UnderCeiling(g, c);
    var ordered := if recentFirst then Reversed(groups) else groups;
    GreedyIsMaximal(ordered, fits, GroupSize, budget);
    if recentFirst {
      TotalReversed(Greedy(ordered, fits, GroupSize, budget), GroupSize);
      ReversedMembers(Greedy(ordered, fits, GroupSize, budget));
      ReversedMembers(groups);
    }
  }

  /** The trimming loops. */
  method TrimRecalled(total: int, base: nat, s0: Option<SummaryView>, n0: seq<Recall>, h0: seq<Recall>)
    returns (s: Option<SummaryView>, n: seq<Recall>, h: seq<Recall>)
    requires base <= total
    ensures Trimmed(total, base, s0, n0, h0, s, n, h)
  {
    var hitUsed, noteUsed;
    s, n := s0, n0;
    h, hitUsed := Trim(h0, base + SummarySize(s0) + Total(n0, RecallSize), total);
    if h == [] && base + SummarySize(s0) + Total(n0, RecallSize) > total {
      n, noteUsed := Trim(n0, base + SummarySize(s0), total);
      if n == [] && base + SummarySize(s0) > total { s := None; }
    }
  }

  /** Chooses the groups around the trimmed recalls and measures the rendered prompt. */
  method Compose(
    c: Config, groups: seq<seq<Message>>, run: Id, isLocal: bool,
    summary: Option<SummaryView>, notes: seq<Recall>, hits: seq<Recall>, incomplete: nat)
    returns (a: Assembly)
    requires ValidConfig(c)
    ensures Assembled(c, groups, run, isLocal, summary, notes, hits, a)
    ensures a.used == Total(Prompt(a), RenderedSize) && a.incompleteGroups == incomplete
  {
    var s0 := UsableSummary(summary, c, isLocal);
    var n0, _ := FitRecalls(notes, isLocal, c.notes);
    var h0, _ := FitRecalls(hits, isLocal, c.retrieval);
    var current := Fit(OfRun(groups, run, true), c, c.currentRun, false);
    var base := Total(current, GroupSize);
    FittingWithin(OfRun(groups, run, true), c, c.currentRun, false);
    var s, n, h := TrimRecalled(c.total, base, s0, n0, h0);
    var left := LeftOver(c.total, base, s, n, h);
    var chosen := Fit(HistoryGroups(groups, run, s), c, SmallerOf(c.history, left), true);
    a := Finish(s, n, h, SortBy(chosen + current, StartsBefore), incomplete);
  }

  function Finish(s: Option<SummaryView>, n: seq<Recall>, h: seq<Recall>, groups: seq<seq<Message>>,
      incomplete: nat): (a: Assembly)
    ensures a.summary == s && a.notes == n && a.hits == h && a.groups == groups && a.incompleteGroups == incomplete
    ensures a.used == Total(Prompt(a), RenderedSize)
  {
    var a := Assembly(s, n, h, groups, incomplete, 0);
    var used := Total(Prompt(a), RenderedSize);
    assert Prompt(a.(used := used)) == Prompt(a);
    a.(used := used)
  }

  /** Builds the prompt, or reports an orphan tool result. */
  method Assemble(
    c: Config, items: seq<Message>, run: Id, isLocal: bool,
    summary: Option<SummaryView>, notes: seq<Recall>, hits: seq<Recall>)
    returns (r: Option<Assembly>)
    requires ValidConfig(c)
    ensures r.Some? <==> NoOrphans(Allowed(items, isLocal))
    ensures r.Some? <==> Parse(Allowed(items, isLocal)).Some?
    ensures r.Some? ==>
      Assembled(c, CompleteGroups(Parse(Allowed(items, isLocal)).value), run, isLocal, summary, notes, hits, r.value)
    ensures r.Some? ==> r.value.used == Total(Prompt(r.value), RenderedSize) <= c.total
    ensures r.Some? ==> r.value.incompleteGroups == IncompleteCount(Parse(Allowed(items, isLocal)).value)
  {
    var allowed := FilterAllowed(items, isLocal);
    var parsed, incomplete := ParseGroups(allowed);
    ReadableIffNoOrphans(allowed);
    if parsed.None? { return None; }
    var a := Compose(c, parsed.value, run, isLocal, summary, notes, hits, incomplete);
    AssembledWithinBudget(c, parsed.value, run, isLocal, summary, notes, hits, a);
    r := Some(a);
  }
}
