/** Span redaction (`secminiagent/memory/redactor.py`).

    Detector signals carry optional spans of the text. The redactor picks non-overlapping spans greedily and
    rewrites the text from right to left, so that the spans still to come keep their offsets. */
module Redactor {
  import opened Basics
  import opened Sorting

  /** A half-open range of the text with the category that asked for it. */
  datatype Span = Span(start: nat, end: nat, category: string, severity: real)

  /** A detector's finding; the span is missing when the finding cannot be located in the original text. */
  datatype Signal = Signal(category: string, severity: real, range: Option<(nat, nat)>)

  datatype Redaction = Redaction(category: string, replacement: string, start: nat, end: nat)

  datatype RedactionResult = RedactionResult(content: string, redactions: seq<Redaction>, complete: bool,
      unresolved: set<string>)

  /** A signal never carries an empty range. */
  predicate WellFormed(signal: Signal) {
    signal.range.Some? ==> signal.range.value.0 < signal.range.value.1
  }

  // ----- Choosing the spans -----

  /** The sort key: earlier start, then longer range, then higher severity. */
  predicate Before(a: Span, b: Span) {
    || a.start < b.start
    || (a.start == b.start && (a.end > b.end || (a.end == b.end && a.severity >= b.severity)))
  }

  predicate Overlap(a: Span, b: Span) {
    (if a.start > b.start then a.start else b.start) < (if a.end < b.end then a.end else b.end)
  }

  ghost predicate Ascending(s: seq<Span>) {
    forall i, j :: 0 <= i < j < |s| ==> s[i].end <= s[j].start
  }

  /** Keeps a span unless it overlaps one already kept, in key order. What is kept is pairwise disjoint and maximal:
      every span left out overlaps a kept one that comes before it. */
  method NonOverlappingSpans(spans: seq<Span>) returns (accepted: seq<Span>)
    requires forall s :: s in spans ==> s.start < s.end
    ensures Ascending(accepted)
    ensures forall a :: a in accepted ==> a in spans
    ensures forall s :: s in spans ==> Settled(s, accepted)
  {
    var ordered := SortBy(spans, Before);
    SortByElements(spans, Before);
    SameElements(ordered, spans);
    SortBySorted(spans, Before);
    accepted := [];
    for k := 0 to |ordered|
      invariant Keeping(ordered, k, accepted)
    {
      var next := ordered[k];
      if !exists a :: a in accepted && Overlap(next, a) {
        KeepStep(ordered, k, accepted);
        accepted := accepted + [next];
      } else {
        ghost var a :| a in accepted && Overlap(next, a);
        SkipStep(ordered, k, accepted, a);
      }
    }
    KeepingEnds(spans, ordered, accepted);
  }

  /** What has been kept of the first `k` spans in order. */
  ghost predicate Keeping(ordered: seq<Span>, k: nat, accepted: seq<Span>)
    requires k <= |ordered|
  {
    && Ascending(accepted)
    && (forall a :: a in accepted ==> a in ordered[..k])
    && forall i :: 0 <= i < k ==> Settled(ordered[i], accepted)
  }

  lemma KeptComeBefore(ordered: seq<Span>, k: nat, accepted: seq<Span>, a: Span)
    requires k < |ordered| && Keeping(ordered, k, accepted) && SortedBy(ordered, Before) && a in accepted
    ensures a in ordered && Before(a, ordered[k])
  {
    var i :| 0 <= i < k && ordered[i] == a;
  }

  lemma SkipStep(ordered: seq<Span>, k: nat, accepted: seq<Span>, a: Span)
    requires k < |ordered| && Keeping(ordered, k, accepted) && SortedBy(ordered, Before)
    requires a in accepted && Overlap(ordered[k], a)
    ensures Keeping(ordered, k + 1, accepted)
  {
    KeptComeBefore(ordered, k, accepted, a);
    assert Overlap(a, ordered[k]);
    assert ordered[..k + 1] == ordered[..k] + [ordered[k]];
  }

  lemma KeepStep(ordered: seq<Span>, k: nat, accepted: seq<Span>)
    requires k < |ordered| && Keeping(ordered, k, accepted) && SortedBy(ordered, Before)
    requires forall s :: s in ordered ==> s.start < s.end
    requires forall a :: a in accepted ==> !Overlap(ordered[k], a)
    ensures Keeping(ordered, k + 1, accepted + [ordered[k]])
  {
    forall a | a in accepted ensures a in ordered && Before(a, ordered[k]) { KeptComeBefore(ordered, k, accepted, a); }
    AcceptSpan(accepted, ordered[k]);
    assert ordered[..k + 1] == ordered[..k] + [ordered[k]];
  }

  lemma KeepingEnds(spans: seq<Span>, ordered: seq<Span>, accepted: seq<Span>)
    requires Keeping(ordered, |ordered|, accepted) && forall s :: s in ordered <==> s in spans
    ensures forall a :: a in accepted ==> a in spans
    ensures forall s :: s in spans ==> Settled(s, accepted)
  {
    assert ordered[..|ordered|] == ordered;
    forall s | s in spans ensures Settled(s, accepted) {
      var i :| 0 <= i < |ordered| && ordered[i] == s;
    }
  }

  /** `s` was kept, or gave way to a kept span. */
  ghost predicate Settled(s: Span, accepted: seq<Span>) {
    s in accepted || exists a :: a in accepted && GivesWay(s, a)
  }

  /** `s` shares a character with `a`, and `a` starts earlier, or starts with it and is longer, or has the same range
      and is at least as severe. */
  predicate GivesWay(s: Span, a: Span) {
    && a.start < s.end && s.start < a.end
    && (|| a.start < s.start
        || (a.start == s.start && a.end > s.end)
        || (a.start == s.start && a.end == s.end && a.severity >= s.severity))
  }

  /** No located text stays behind a shorter match that starts with it: of the spans that start together, only the
      longest can be kept. */
  lemma LongestIsKept(spans: seq<Span>, accepted: seq<Span>, a: Span, s: Span)
    requires (forall x :: x in spans ==> x.start < x.end) && Ascending(accepted)
    requires (forall x :: x in accepted ==> x in spans) && forall x :: x in spans ==> Settled(x, accepted)
    requires a in accepted && s in spans && s.start == a.start
    ensures s.end <= a.end && (s.end == a.end && s !in accepted ==> s.severity <= a.severity)
  {
    var i :| 0 <= i < |accepted| && accepted[i] == a;
    var b :| b in accepted && (b == s || GivesWay(s, b));
    var j :| 0 <= j < |accepted| && accepted[j] == b;
    assert a in spans && b in spans;
    if i < j { assert accepted[i].end <= accepted[j].start; }
    if j < i { assert accepted[j].end <= accepted[i].start; }
  }

  lemma AcceptSpan(accepted: seq<Span>, next: Span)
    requires Ascending(accepted) && next.start < next.end
    requires forall a :: a in accepted ==> a.start < a.end && Before(a, next) && !Overlap(next, a)
    ensures Ascending(accepted + [next])
    ensures forall s :: Settled(s, accepted) ==> Settled(s, accepted + [next])
    ensures Settled(next, accepted + [next])
  {
    forall i | 0 <= i < |accepted| ensures accepted[i].end <= next.start {
      var a := accepted[i];
      assert a in accepted;
      assert Before(a, next) && !Overlap(next, a);
    }
    var all := accepted + [next];
    forall s | Settled(s, accepted) ensures Settled(s, all) {
      if s !in accepted {
        var a :| a in accepted && GivesWay(s, a);
        assert a in all;
      }
    }
  }

  // ----- Rewriting the text -----

  function Take<T>(s: seq<T>, n: nat): seq<T> {
    if n < |s| then s[..n] else s
  }

  function Drop<T>(s: seq<T>, n: nat): seq<T> {
    if n < |s| then s[n..] else []
  }

  function Marker(category: string): string {
    "[REDACTED:" + Upper(category) + "]"
  }

  function Upper(s: string): (r: string)
    ensures |r| == |s|
  {
    seq(|s|, i requires 0 <= i < |s| => if 'a' <= s[i] <= 'z' then ((s[i] as int) - 32) as char else s[i])
  }

  /** A marker names its category in capitals between fixed brackets. */
  lemma MarkerReads(category: string)
    ensures var m, n := Marker(category), |category|;
            && |m| == n + 11 && m[..10] == "[REDACTED:" && m[n + 10] == ']'
            && (forall i :: 0 <= i < n && 'a' <= category[i] <= 'z' ==>
              m[10 + i] as int - 'A' as int == category[i] as int - 'a' as int)
            && (forall i :: 0 <= i < n && !('a' <= category[i] <= 'z') ==> m[10 + i] == category[i])
  {
  }

  /** The text from `from` on, left to right: the gaps between the spans as they are, a marker for each span. */
  ghost function Stitch(content: string, spans: seq<Span>, from: nat): string {
    if spans == [] then Drop(content, from) else
      Drop(Take(content, spans[0].start), from) + Marker(spans[0].category) + Stitch(content, spans[1..], spans[0].end)
  }

  /** The rewritten text keeps the original up to any point before the first span. */
  lemma StitchPrefix(content: string, spans: seq<Span>, e: nat)
    requires e <= |content|
    requires spans != [] ==> e <= spans[0].start
    ensures Stitch(content, spans, 0) == content[..e] + Stitch(content, spans, e)
  {
    if spans == [] {
      assert Drop(content, 0) == content[..e] + Drop(content, e);
    } else {
      var head := Take(content, spans[0].start);
      assert Drop(head, 0) == content[..e] + Drop(head, e);
      Regroup(Drop(head, 0), content[..e], Drop(head, e), Marker(spans[0].category),
        Stitch(content, spans[1..], spans[0].end));
    }
  }

  lemma Regroup<T>(all: seq<T>, a: seq<T>, b: seq<T>, c: seq<T>, d: seq<T>)
    requires all == a + b
    ensures all + c + d == a + (b + c + d)
  {
  }

  /** The text rewritten span by span, last span first. */
  function RightToLeft(content: string, spans: seq<Span>): string {
    if spans == [] then content else Spliced(RightToLeft(content, spans[1..]), spans[0])
  }

  /** One in-place rewrite. */
  function Spliced(rendered: string, s: Span): string {
    Take(rendered, s.start) + Marker(s.category) + Drop(rendered, s.end)
  }

  /** One right-to-left rewrite puts one more span in place. */
  lemma RewriteOne(content: string, s: Span, rest: seq<Span>)
    requires s.start < s.end && (rest != [] ==> s.end <= rest[0].start && s.end <= |content|)
    ensures Spliced(Stitch(content, rest, 0), s) == Stitch(content, [s] + rest, 0)
  {
    var rendered := Stitch(content, rest, 0);
    assert ([s] + rest)[1..] == rest;
    if rest == [] {
      assert rendered == content;
    } else {
      StitchPrefix(content, rest, s.start);
      StitchPrefix(content, rest, s.end);
      assert Take(rendered, s.start) == content[..s.start] == Drop(Take(content, s.start), 0);
      assert Drop(rendered, s.end) == Stitch(content, rest, s.end);
    }
  }

  // ----- When rewriting from the right is the same -----

  predicate ProperSpans(spans: seq<Span>) {
    && (forall s :: s in spans ==> s.start < s.end)
    && forall i, j :: 0 <= i < j < |spans| ==> spans[i].end <= spans[j].start
  }

  /** The markers in order. */
  function Markers(spans: seq<Span>): string {
    if spans == [] then "" else Marker(spans[0].category) + Markers(spans[1..])
  }

  /** The markers from the last to the first. */
  function MarkersBackwards(spans: seq<Span>): string {
    if spans == [] then "" else MarkersBackwards(spans[1..]) + Marker(spans[0].category)
  }

  /** Each span starts at or beyond the text and the markers of the spans after it. */
  predicate BeyondMarkers(content: string, spans: seq<Span>) {
    spans != [] ==> spans[0].start >= |content| + |Markers(spans[1..])| && BeyondMarkers(content, spans[1..])
  }

  /** From the first span that runs over the end of the text and is not the last one: all spans lie clear of the text
      and of each other's markers, and the markers read the same in both orders. */
  predicate Orderly(content: string, spans: seq<Span>) {
    if |spans| <= 1 then true
    else if spans[0].end <= |content| then Orderly(content, spans[1..])
    else BeyondMarkers(content, spans) && Markers(spans) == MarkersBackwards(spans)
  }

  lemma {:induction false} ProperRest(spans: seq<Span>)
    requires spans != [] && ProperSpans(spans)
    ensures ProperSpans(spans[1..]) && forall t :: t in spans[1..] ==> spans[0].end <= t.start
  {
    forall t | t in spans[1..] ensures spans[0].end <= t.start && t in spans {
      var i :| 0 <= i < |spans| - 1 && spans[1..][i] == t;
      assert spans[i + 1] == t;
    }
  }

  lemma {:induction false} BackwardsLength(spans: seq<Span>)
    ensures |MarkersBackwards(spans)| == |Markers(spans)|
    decreases |spans|
  {
    if spans != [] { BackwardsLength(spans[1..]); }
  }

  /** Beyond the text there are only markers. */
  lemma {:induction false} StitchBeyond(content: string, spans: seq<Span>, from: nat)
    requires ProperSpans(spans) && |content| <= from && forall s :: s in spans ==> from <= s.start
    ensures Stitch(content, spans, from) == Markers(spans)
    decreases |spans|
  {
    if spans != [] {
      ProperRest(spans);
      assert spans[0] in spans && spans[0].start < spans[0].end;
      StitchBeyond(content, spans[1..], spans[0].end);
      NoGap(content, spans[0].start, from, Marker(spans[0].category));
    }
  }

  lemma NoGap(content: string, start: nat, from: nat, marker: string)
    requires |content| <= from
    ensures Drop(Take(content, start), from) + marker == marker
  {
  }

  /** One rewrite at or beyond the end of the original text: the text grows by a marker, or less when it cuts into
      one. */
  lemma {:induction false} SplicedBeyond(content: string, rendered: string, s: Span)
    requires |content| <= |rendered| && rendered[..|content|] == content && |content| <= s.start < s.end
    ensures |content| <= |Spliced(rendered, s)| && Spliced(rendered, s)[..|content|] == content
    ensures |Spliced(rendered, s)| <= |rendered| + |Marker(s.category)|
    ensures |Spliced(rendered, s)| == |rendered| + |Marker(s.category)| <==> s.start >= |rendered|
    ensures s.start >= |rendered| ==> Spliced(rendered, s) == rendered + Marker(s.category)
  {
  }

  /** A rendering of spans beyond the text: it keeps its full length only if no marker was cut, and then the markers
      follow the text from last to first. */
  ghost predicate RenderedBeyond(content: string, spans: seq<Span>, rendered: string) {
    && |content| <= |rendered| <= |content| + |Markers(spans)| && rendered[..|content|] == content
    && (|rendered| == |content| + |Markers(spans)| <==> BeyondMarkers(content, spans))
    && (BeyondMarkers(content, spans) ==> rendered == content + MarkersBackwards(spans))
  }

  lemma {:induction false} OneMoreBeyond(content: string, spans: seq<Span>, rendered: string)
    requires spans != [] && RenderedBeyond(content, spans[1..], rendered) && |content| <= spans[0].start < spans[0].end
    ensures RenderedBeyond(content, spans, Spliced(rendered, spans[0]))
  {
    SplicedBeyond(content, rendered, spans[0]);
    var m := Marker(spans[0].category);
    assert |Markers(spans)| == |m| + |Markers(spans[1..])|;
    Joined(content, MarkersBackwards(spans[1..]), m);
  }

  lemma Joined(a: string, b: string, c: string)
    ensures a + b + c == a + (b + c)
  {
  }

  lemma {:induction false} AllBeyond(content: string, spans: seq<Span>)
    requires ProperSpans(spans) && forall s :: s in spans ==> |content| <= s.start
    ensures RenderedBeyond(content, spans, RightToLeft(content, spans))
    decreases |spans|
  {
    if spans == [] {
      assert content + "" == content;
    } else {
      ProperRest(spans);
      assert spans[0] in spans && forall t :: t in spans[1..] ==> t in spans;
      AllBeyond(content, spans[1..]);
      OneMoreBeyond(content, spans, RightToLeft(content, spans[1..]));
    }
  }

  /** An overrunning span that is not the last: nothing but markers follows it. */
  lemma {:induction false} StitchOverrun(content: string, spans: seq<Span>)
    requires ProperSpans(spans) && spans != [] && |content| < spans[0].end
    ensures Stitch(content, spans, 0) == Take(content, spans[0].start) + Markers(spans)
  {
    ProperRest(spans);
    StitchBeyond(content, spans[1..], spans[0].end);
    assert Drop(Take(content, spans[0].start), 0) == Take(content, spans[0].start);
  }

  /** A span that runs over the end of the text, with spans after it, cuts into their markers. */
  lemma {:induction false} OverrunCutsMarker(content: string, spans: seq<Span>)
    requires ProperSpans(spans) && |spans| > 1 && spans[0].start < |content| < spans[0].end
    ensures |RightToLeft(content, spans)| < |Stitch(content, spans, 0)|
  {
    ProperRest(spans);
    StitchOverrun(content, spans);
    AllBeyond(content, spans[1..]);
    assert Markers(spans[1..]) == Marker(spans[1].category) + Markers(spans[1..][1..]);
  }

  /** From an overrunning span on, the two agree exactly when the markers stay clear of each other and read the same
      backwards. */
  lemma {:induction false} OverrunIff(content: string, spans: seq<Span>)
    requires ProperSpans(spans) && |spans| > 1 && |content| < spans[0].end
    ensures RightToLeft(content, spans) == Stitch(content, spans, 0)
       <==> BeyondMarkers(content, spans) && Markers(spans) == MarkersBackwards(spans)
  {
    StitchOverrun(content, spans);
    if spans[0].start < |content| {
      OverrunCutsMarker(content, spans);
    } else {
      ProperRest(spans);
      forall s | s in spans ensures |content| <= s.start { assert s == spans[0] || s in spans[1..]; }
      AllBeyond(content, spans);
      BackwardsLength(spans);
      SameTail(content, Markers(spans), MarkersBackwards(spans));
    }
  }

  lemma SameTail(a: string, x: string, y: string)
    ensures a + x == a + y <==> x == y
  {
    if a + x == a + y { assert (a + x)[|a|..] == x && (a + y)[|a|..] == y; }
  }

  /** The text before all spans stays. */
  lemma {:induction false} RightToLeftPrefix(content: string, spans: seq<Span>, e: nat)
    requires ProperSpans(spans) && e <= |content| && forall s :: s in spans ==> e <= s.start
    ensures e <= |RightToLeft(content, spans)| && RightToLeft(content, spans)[..e] == content[..e]
    decreases |spans|
  {
    if spans != [] {
      ProperRest(spans);
      assert spans[0] in spans && forall t :: t in spans[1..] ==> t in spans;
      RightToLeftPrefix(content, spans[1..], e);
      SplicedPrefix(RightToLeft(content, spans[1..]), spans[0], e);
    }
  }

  lemma SplicedPrefix(rendered: string, s: Span, e: nat)
    requires e <= s.start && e <= |rendered|
    ensures e <= |Spliced(rendered, s)| && Spliced(rendered, s)[..e] == rendered[..e]
  {
  }

  /** A rewrite inside a common beginning keeps two texts the same or different. */
  lemma {:induction false} SplicedSame(x: string, y: string, s: Span)
    requires s.start < s.end <= |x| && s.end <= |y| && x[..s.end] == y[..s.end]
    ensures Spliced(x, s) == Spliced(y, s) <==> x == y
  {
    var head := Take(x, s.start) + Marker(s.category);
    assert Take(y, s.start) == x[..s.end][..s.start] == Take(x, s.start);
    SameTail(head, Drop(x, s.end), Drop(y, s.end));
    assert x == x[..s.end] + x[s.end..] && y == y[..s.end] + y[s.end..];
    assert Drop(x, s.end) == x[s.end..] && Drop(y, s.end) == y[s.end..];
  }

  /** Rewriting from the right is the left-to-right stitching of gaps and markers if and only if the spans are
      orderly: none but the last runs over the end of the text, or from the first that does they stay clear of each
      other's markers. */
  lemma {:induction false} RightToLeftStitchesIff(content: string, spans: seq<Span>)
    requires ProperSpans(spans)
    ensures RightToLeft(content, spans) == Stitch(content, spans, 0) <==> Orderly(content, spans)
    decreases |spans|, 0
  {
    if spans == [] {
      assert Drop(content, 0) == content;
    } else {
      var s, rest := spans[0], spans[1..];
      assert spans == [s] + rest && s in spans;
      if rest == [] {
        RewriteOne(content, s, rest);
        assert Drop(content, 0) == content;
      } else if s.end <= |content| {
        InsideIff(content, s, rest);
      } else {
        OverrunIff(content, spans);
      }
    }
  }

  /** A span inside the text neither makes nor breaks the agreement. */
  lemma {:induction false} InsideIff(content: string, s: Span, rest: seq<Span>)
    requires ProperSpans([s] + rest) && rest != [] && s.end <= |content|
    ensures RightToLeft(content, [s] + rest) == Stitch(content, [s] + rest, 0) <==> Orderly(content, [s] + rest)
    decreases |rest|, 1
  {
    var spans := [s] + rest;
    assert spans[1..] == rest && s in spans;
    ProperRest(spans);
    assert rest[0] in rest;
    RightToLeftStitchesIff(content, rest);
    RewriteOne(content, s, rest);
    RightToLeftPrefix(content, rest, s.end);
    StitchPrefix(content, rest, s.end);
    SplicedSame(RightToLeft(content, rest), Stitch(content, rest, 0), s);
  }

  function Recorded(s: Span): Redaction {
    Redaction(s.category, Marker(s.category), s.start, s.end)
  }

  function RecordedAll(spans: seq<Span>): (r: seq<Redaction>)
    ensures |r| == |spans|
  {
    seq(|spans|, i requires 0 <= i < |spans| => Recorded(spans[i]))
  }

  lemma RecordedCons(s: Span, rest: seq<Span>)
    ensures RecordedAll([s] + rest) == [Recorded(s)] + RecordedAll(rest)
  {
  }

  predicate Selects(s: Signal, categories: set<string>, x: Span) {
    && s.category in categories
    && s.range == Some((x.start, x.end))
    && x.category == s.category && x.severity == s.severity
  }

  /** The located signals of the selected categories, in the order they came. */
  function Located(signals: seq<Signal>, categories: set<string>): seq<Span> {
    if signals == [] then [] else
      var s := signals[|signals| - 1];
      Located(signals[..|signals| - 1], categories)
      + (if s.category in categories && s.range.Some?
        then [Span(s.range.value.0, s.range.value.1, s.category, s.severity)] else [])
  }

  lemma {:induction false} LocatedMembers(signals: seq<Signal>, categories: set<string>, x: Span)
    ensures x in Located(signals, categories) <==> exists s :: s in signals && Selects(s, categories, x)
    decreases |signals|
  {
    if signals != [] {
      var front, s := signals[..|signals| - 1], signals[|signals| - 1];
      LocatedMembers(front, categories, x);
      assert forall t :: t in signals <==> t in front || t == s;
      if Selects(s, categories, x) {
        assert s in signals;
      }
      if t :| t in front && Selects(t, categories, x) {
        assert t in signals;
      }
    }
  }

  /** Redacts the located signals of the chosen categories. The result is the left-to-right stitching of gaps and
      markers exactly when the chosen spans are orderly; the recorded ranges are those of the original text; the
      unresolved categories are those of chosen signals without a range, and the result is complete exactly when there
      are none. */
  method Redact(content: string, signals: seq<Signal>, categories: set<string>)
      returns (r: RedactionResult, spans: seq<Span>)
    requires forall s :: s in signals ==> WellFormed(s)
    ensures r.content == RightToLeft(content, spans)
    ensures r.content == Stitch(content, spans, 0) <==> Orderly(content, spans)
    ensures |r.redactions| == |spans| && forall i :: 0 <= i < |spans| ==>
      r.redactions[i].start == spans[i].start && r.redactions[i].end == spans[i].end
        && r.redactions[i].category == spans[i].category && r.redactions[i].replacement == Marker(spans[i].category)
    ensures ProperSpans(spans)
    ensures forall a :: a in spans ==> a in Located(signals, categories)
    ensures forall s :: s in Located(signals, categories) ==> Settled(s, spans)
    ensures forall c :: c in r.unresolved <==> Unlocated(signals, categories, c)
    ensures r.complete <==> forall s :: s in signals && s.category in categories ==> s.range.Some?
  {
    var located := Located(signals, categories);
    forall x | x in located ensures x.start < x.end {
      LocatedMembers(signals, categories, x);
    }
    spans := NonOverlappingSpans(located);
    var content', redactions := Rewrite(content, spans);
    assert ProperSpans(spans);
    RightToLeftStitchesIff(content, spans);
    var unresolved := set s | s in signals && s.category in categories && s.range.None? :: s.category;
    r := RedactionResult(content', redactions, unresolved == {}, unresolved);
    UnresolvedMeans(signals, categories, unresolved);
  }

  /** Some chosen signal of this category could not be located. */
  predicate Unlocated(signals: seq<Signal>, categories: set<string>, c: string) {
    exists s :: s in signals && s.category in categories && s.range.None? && s.category == c
  }

  lemma UnresolvedMeans(signals: seq<Signal>, categories: set<string>, unresolved: set<string>)
    requires forall c :: c in unresolved <==> Unlocated(signals, categories, c)
    ensures unresolved == {} <==> forall s :: s in signals && s.category in categories ==> s.range.Some?
  {
    if s :| s in signals && s.category in categories && s.range.None? {
      assert Unlocated(signals, categories, s.category);
    }
  }

  method Rewrite(content: string, accepted: seq<Span>) returns (rendered: string, redactions: seq<Redaction>)
    ensures rendered == RightToLeft(content, accepted)
    ensures redactions == RecordedAll(accepted)
  {
    rendered, redactions := content, [];
    var i := |accepted|;
    assert accepted[i..] == [];
    while i > 0
      invariant 0 <= i <= |accepted|
      invariant rendered == RightToLeft(content, accepted[i..])
      invariant redactions == RecordedAll(accepted[i..])
    {
      i := i - 1;
      assert accepted[i..] == [accepted[i]] + accepted[i + 1..];
      RecordedCons(accepted[i], accepted[i + 1..]);
      rendered := Spliced(rendered, accepted[i]);
      redactions := [Recorded(accepted[i])] + redactions;
    }
    assert accepted[0..] == accepted;
  }
}
