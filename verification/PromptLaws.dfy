/** Prompts and rolling summaries together: what a prompt quotes and what its summary covers never overlap in
    history. */
module PromptLaws {
  import opened Basics
  import opened Messages
  import opened Pairing
  import opened Groups
  import opened GroupLaws
  import opened Threads
  import opened ThreadLaws
  import opened Summaries
  import opened SummaryLaws
  import Context
  import ContextLaws
  import FilterLaws

  /** A prompt assembled from the thread's log, with the active summary on offer. */
  ghost predicate Prompted(
    t: Thread, c: Context.Config, run: Id, isLocal: bool, view: Context.SummaryView, notes: seq<Context.Recall>,
    hits: seq<Context.Recall>, a: Context.Assembly)
    requires Context.ValidConfig(c)
  {
    var kept := Parse(Context.Allowed(Log(t), isLocal));
    && kept.Some? && ActiveOf(t.rows).Some? && IsViewOf(view, ActiveOf(t.rows).value.summary)
    && Context.Assembled(c, CompleteGroups(kept.value), run, isLocal, Some(view), notes, hits, a)
  }

  /** The view shows this summary: same id, same watermark, same classification. */
  predicate IsViewOf(view: Context.SummaryView, s: Summary) {
    view.id == s.id && view.covered == s.covered && view.classification == s.classification
  }

  /** Whoever may see a classification may see every lower one. */
  lemma LowerIsVisible(m: Message, c: Classification, isLocal: bool)
    requires Rank(m.classification) <= Rank(c) && Context.ProviderAllowed(c, isLocal)
    ensures FilterLaws.Visible(m, isLocal)
  {
  }

  /** A provider that may see a summary may see all it covers: the filter keeps the covered beginning of the log. */
  lemma CoveredIsKept(log: seq<Message>, s: Summary, n: nat, isLocal: bool)
    requires CoversPrefix(s, log, n) && Context.ProviderAllowed(s.classification, isLocal)
    ensures Context.Allowed(log, isLocal) == log[..n] + Context.Allowed(log[n..], isLocal)
  {
    forall m | m in log[..n] ensures FilterLaws.Visible(m, isLocal) {
      var i :| 0 <= i < n && log[i] == m;
      LowerIsVisible(m, s.classification, isLocal);
    }
    assert log == log[..n] + log[n..];
    FilterLaws.AllowedAppend(log[..n], log[n..], isLocal);
    FilterLaws.AllKept(log[..n], isLocal);
  }

  /** The watermark of a summary the provider may see falls between the groups that its filter leaves. */
  lemma WatermarkBetweenKept(t: Thread, active: ActiveSummary, isLocal: bool)
    requires Lived(t) && Covers(active.summary, Log(t)) && Parse(Context.Allowed(Log(t), isLocal)).Some?
    requires Context.ProviderAllowed(active.summary.classification, isLocal)
    ensures ContextLaws.BetweenGroups(CompleteGroups(Parse(Context.Allowed(Log(t), isLocal)).value),
      active.summary.covered)
  {
    var log, w := Log(t), active.summary.covered;
    var n := WatermarkSplits(t, Some(active));
    CoveredIsKept(log, active.summary, n, isLocal);
    var rest := Context.Allowed(log[n..], isLocal);
    SidesOfWatermark(log, n, w, isLocal);
    SplitMeansBetween(log[..n], rest, w);
  }

  lemma SidesOfWatermark(log: seq<Message>, n: nat, w: nat, isLocal: bool)
    requires n <= |log| && (forall i :: 0 <= i < n ==> log[i].threadSeq <= w)
    requires forall i :: n <= i < |log| ==> log[i].threadSeq > w
    ensures forall m :: m in log[..n] ==> m.threadSeq <= w
    ensures forall m :: m in Context.Allowed(log[n..], isLocal) ==> m.threadSeq > w
  {
    forall m | m in Context.Allowed(log[n..], isLocal) ensures m.threadSeq > w {
      ContextLaws.AllowedMembers(log[n..], isLocal, m);
    }
  }

  /** A watermark at the end of a whole beginning falls between groups. */
  lemma SplitMeansBetween(front: seq<Message>, rest: seq<Message>, w: nat)
    requires Whole(front) && Parse(front + rest).Some?
    requires (forall m :: m in front ==> m.threadSeq <= w) && forall m :: m in rest ==> m.threadSeq > w
    ensures ContextLaws.BetweenGroups(CompleteGroups(Parse(front + rest).value), w)
  {
    var log, n := front + rest, |front|;
    assert log[..n] == front && log[n..] == rest;
    forall g | g in CompleteGroups(Parse(log).value)
      ensures forall m, x :: m in g && x in g && m.threadSeq <= w ==> x.threadSeq <= w
    {
      ContextLaws.GroupInChunks(Parse(log).value, g);
      var c :| c in Parse(log).value && c.items == g;
      ChunkOnOneSide(log, n, c);
    }
  }

  /** Every message of a complete group is in the log. */
  lemma GroupsInLog(log: seq<Message>, g: seq<Message>, m: Message)
    requires Parse(log).Some? && g in CompleteGroups(Parse(log).value) && m in g
    ensures m in log
  {
    var chunks := Parse(log).value;
    ContextLaws.GroupInChunks(chunks, g);
    var c :| c in chunks && c.items == g;
    ParseCutsWell(log);
    ItemsInLog(chunks, c, m);
  }

  lemma {:induction false} UpToMembers(log: seq<Message>, w: nat, x: Message)
    ensures x in UpTo(log, w) ==> x in log && x.threadSeq <= w
    decreases |log|
  {
    if log != [] {
      UpToMembers(log[..|log| - 1], w, x);
      assert log == log[..|log| - 1] + [log[|log| - 1]];
    }
  }

  /** Two messages of a sound thread with the same id are the same. */
  lemma SameIdSameMessage(t: Thread, x: Message, y: Message)
    requires Sound(t) && x in Log(t) && y in Log(t) && x.id == y.id
    ensures x == y
  {
    LogMembers(t, x);
    LogMembers(t, y);
    var i :| 0 <= i < |t.rows| && t.rows[i] == MessageRow(x);
    var j :| 0 <= j < |t.rows| && t.rows[j] == MessageRow(y);
    if i < j { assert Clash(t.rows[i], t.rows[j]); } else if j < i { assert Clash(t.rows[j], t.rows[i]); }
  }

  lemma BeyondMeansNotSource(t: Thread, s: Summary, m: Message)
    requires Sound(t) && s.sources == Ids(UpTo(Log(t), s.covered)) && m in Log(t) && m.threadSeq > s.covered
    ensures m.id !in s.sources
  {
    var covered := UpTo(Log(t), s.covered);
    if m.id in s.sources {
      var i :| 0 <= i < |covered| && covered[i].id == m.id;
      UpToMembers(Log(t), s.covered, covered[i]);
      SameIdSameMessage(t, covered[i], m);
    }
  }

  /** A summary that survives the budgets is one the provider may see. */
  lemma SurvivorIsVisible(
    c: Context.Config, groups: seq<seq<Message>>, run: Id, isLocal: bool, view: Context.SummaryView,
    notes: seq<Context.Recall>, hits: seq<Context.Recall>, a: Context.Assembly)
    requires Context.ValidConfig(c) && a.summary.Some?
    requires Context.Assembled(c, groups, run, isLocal, Some(view), notes, hits, a)
    ensures a.summary == Some(view) && Context.ProviderAllowed(view.classification, isLocal)
  {
  }

  /** In every interleaving of appenders and builders, for every provider and whatever its filter leaves: if the active
      summary survives a prompt's budgets, no message quoted from history is one the summary was made from. */
  lemma HistoryIsNotSummarizedTwice(
    steps: seq<Step>, c: Context.Config, run: Id, isLocal: bool, view: Context.SummaryView, notes: seq<Context.Recall>,
    hits: seq<Context.Recall>, a: Context.Assembly, g: seq<Message>, m: Message)
    requires FreshTakes(NEW_SYSTEM, steps) && Context.ValidConfig(c)
    requires Prompted(Interleave(NEW_SYSTEM, steps).thread, c, run, isLocal, view, notes, hits, a)
    requires a.summary.Some? && g in a.groups && m in g && g[0].runId != run
    ensures m.id !in ActiveOf(Interleave(NEW_SYSTEM, steps).thread.rows).value.summary.sources
  {
    var t := Interleave(NEW_SYSTEM, steps).thread;
    var active, kept := ActiveOf(t.rows).value, Context.Allowed(Log(t), isLocal);
    var groups := CompleteGroups(Parse(kept).value);
    EveryInterleavingIsOk(steps);
    ActiveSummaryIsExact(steps);
    SurvivorIsVisible(c, groups, run, isLocal, view, notes, hits, a);
    WatermarkBetweenKept(t, active, isLocal);
    ContextLaws.SummaryReplacesHistory(c, groups, run, isLocal, Some(view), notes, hits, a, g, m);
    ContextLaws.ChosenGroup(c, groups, run, isLocal, Some(view), notes, hits, a, g);
    GroupsInLog(kept, g, m);
    ContextLaws.AllowedMembers(Log(t), isLocal, m);
    BeyondMeansNotSource(t, active.summary, m);
  }
}
