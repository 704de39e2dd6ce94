/** Unified-diff hunk application (`secminiagent/tools/patch_tool.py`).

    A hunk names a block of old lines by its start; applying a list of hunks walks the old file once,
    copying the gaps and rewriting the blocks. */
module Patch {
  import opened Basics

  datatype Op = Context | Delete | Insert
  datatype Line = Line(op: Op, text: string)
  datatype Hunk = Hunk(oldStart: nat, newStart: nat, lines: seq<Line>)

  datatype PatchError =
    | Overlapping(hunk: nat)
    | PastEnd(hunk: nat, line: nat)
    | Mismatch(hunk: nat, line: nat)

  datatype PatchResult = Applied(lines: seq<string>) | Rejected(error: PatchError)

  // ----- What a hunk means -----

  /** The old lines a list of hunk lines consumes. */
  function OldSide(lines: seq<Line>): (r: seq<string>)
    ensures |r| <= |lines|
  {
    if lines == [] then [] else
      OldSide(lines[..|lines| - 1]) + (if Last(lines).op.Insert? then [] else [Last(lines).text])
  }

  /** The new lines a list of hunk lines produces. */
  function NewSide(lines: seq<Line>): (r: seq<string>)
    ensures |r| <= |lines|
  {
    if lines == [] then [] else
      NewSide(lines[..|lines| - 1]) + (if Last(lines).op.Delete? then [] else [Last(lines).text])
  }

  function Last<T>(s: seq<T>): T
    requires s != []
  {
    s[|s| - 1]
  }

  /** Zero-based index of the first old line of the block; a start of 0 means the top of the file. */
  function Start(h: Hunk): nat {
    if h.oldStart == 0 then 0 else h.oldStart - 1
  }

  function End(h: Hunk): nat {
    Start(h) + |OldSide(h.lines)|
  }

  /** Python's `s[lo:hi]`: both bounds are clamped to the length. */
  function Slice<T>(s: seq<T>, lo: nat, hi: nat): seq<T> {
    if lo <= |s| <= hi then s[lo..] else if lo <= hi < |s| then s[lo..hi] else []
  }

  lemma SliceInside<T>(s: seq<T>, lo: nat, hi: nat)
    requires lo <= hi <= |s|
    ensures Slice(s, lo, hi) == s[lo..hi]
  {
  }

  /** `block` stands in `src` at `at`. An empty block stands anywhere, even past the end. */
  predicate StandsAt(src: seq<string>, at: nat, block: seq<string>) {
    block != [] ==> at + |block| <= |src| && src[at..at + |block|] == block
  }

  /** The hunks are in order, do not overlap, and every block stands where its hunk says. */
  ghost predicate Applicable(src: seq<string>, hunks: seq<Hunk>) {
    && (forall i :: 0 <= i < |hunks| ==> StandsAt(src, Start(hunks[i]), OldSide(hunks[i].lines)))
    && (forall i, j :: 0 <= i < j < |hunks| ==> End(hunks[i]) <= Start(hunks[j]))
  }

  /** `src` from line `from` on, with every block replaced by its new side. */
  ghost function Spliced(src: seq<string>, hunks: seq<Hunk>, from: nat): seq<string> {
    if hunks == [] then Slice(src, from, |src|) else
      Slice(src, from, Start(hunks[0])) + NewSide(hunks[0].lines) + Spliced(src, hunks[1..], End(hunks[0]))
  }

  // ----- apply_hunks -----

  /** The line that keeps a hunk's block from standing where the hunk says. */
  ghost predicate BreaksAt(src: seq<string>, h: Hunk, e: PatchError) {
    match e {
      case Overlapping(_) => false
      case PastEnd(_, line) => Start(h) <= line < End(h) && |src| <= line
      case Mismatch(_, line) => Start(h) <= line < End(h) && line < |src|
        && src[line] != OldSide(h.lines)[line - Start(h)]
    }
  }

  /** What a rejection says: everything before the named hunk applies, and that hunk breaks one rule. */
  ghost predicate Explains(src: seq<string>, hunks: seq<Hunk>, e: PatchError) {
    && e.hunk < |hunks|
    && Applicable(src, hunks[..e.hunk])
    && if e.Overlapping? then e.hunk > 0 && Start(hunks[e.hunk]) < End(hunks[e.hunk - 1])
       else BreaksAt(src, hunks[e.hunk], e)
  }

  lemma ApplicableSnoc(src: seq<string>, hunks: seq<Hunk>, k: nat)
    requires k < |hunks| && Applicable(src, hunks[..k])
    requires StandsAt(src, Start(hunks[k]), OldSide(hunks[k].lines))
    requires k > 0 ==> End(hunks[k - 1]) <= Start(hunks[k])
    ensures Applicable(src, hunks[..k + 1])
  {
    var p := hunks[..k];
    var q := hunks[..k + 1];
    forall i, j | 0 <= i < j < |q| ensures End(q[i]) <= Start(q[j]) {
      if j < k {
        assert p[i] == q[i] && p[j] == q[j];
      } else if i < k - 1 {
        assert End(p[i]) <= Start(p[k - 1]);
      }
    }
    forall i | 0 <= i < |q| ensures StandsAt(src, Start(q[i]), OldSide(q[i].lines)) {
      if i < k { assert p[i] == q[i]; }
    }
  }

  lemma SplicedAt(src: seq<string>, hunks: seq<Hunk>, k: nat, from: nat)
    requires k < |hunks|
    ensures Spliced(src, hunks[k..], from)
         == Slice(src, from, Start(hunks[k])) + NewSide(hunks[k].lines) + Spliced(src, hunks[k + 1..], End(hunks[k]))
  {
    assert hunks[k..][1..] == hunks[k + 1..];
  }

  lemma Reassociate<T>(a: seq<T>, b: seq<T>, c: seq<T>, d: seq<T>)
    ensures a + b + c + d == a + (b + c + d)
  {
  }

  /** The first `n` lines have been walked: their old side stands in the source, their new side has been produced. */
  predicate Walked(src: seq<string>, h: Hunk, n: nat, produced: seq<string>, stop: nat)
    requires n <= |h.lines|
  {
    && stop == Start(h) + |OldSide(h.lines[..n])|
    && StandsAt(src, Start(h), OldSide(h.lines[..n]))
    && produced == NewSide(h.lines[..n])
  }

  /** One more line, when it does not break the block. */
  lemma WalkedOne(src: seq<string>, h: Hunk, n: nat, produced: seq<string>, stop: nat)
    requires n < |h.lines| && Walked(src, h, n, produced, stop)
    requires h.lines[n].op.Insert? || (stop < |src| && src[stop] == h.lines[n].text)
    ensures Walked(src, h, n + 1, if h.lines[n].op.Delete?
      then produced else produced + [h.lines[n].text], if h.lines[n].op.Insert? then stop else stop + 1)
  {
    SideSnoc(h.lines, n);
    if !h.lines[n].op.Insert? { StandsSnoc(src, Start(h), OldSide(h.lines[..n])); }
  }

  /** A line that is not there breaks the block. */
  lemma LineBreaks(src: seq<string>, h: Hunk, n: nat, produced: seq<string>, stop: nat, e: PatchError)
    requires n < |h.lines| && Walked(src, h, n, produced, stop) && !h.lines[n].op.Insert?
    requires (e.PastEnd? && e.line == stop >= |src|)
      || (e.Mismatch? && e.line == stop < |src| && src[stop] != h.lines[n].text)
    ensures BreaksAt(src, h, e) && !StandsAt(src, Start(h), OldSide(h.lines))
  {
    SideSnoc(h.lines, n);
    OldSidePrefix(h.lines, n + 1);
    assert OldSide(h.lines)[stop - Start(h)] == h.lines[n].text;
    BrokenBlock(src, h, e);
  }

  /** Walks one hunk's lines from its start: either the whole block stands there, or the offending line is named. */
  method RewriteBlock(src: seq<string>, h: Hunk, k: nat)
      returns (error: Option<PatchError>, produced: seq<string>, stop: nat)
    ensures error.None? <==> StandsAt(src, Start(h), OldSide(h.lines))
    ensures error.None? ==> produced == NewSide(h.lines) && stop == End(h)
    ensures error.Some? ==> error.value.hunk == k && BreaksAt(src, h, error.value)
  {
    produced, stop := [], Start(h);
    for n := 0 to |h.lines|
      invariant Walked(src, h, n, produced, stop)
    {
      var line := h.lines[n];
      if line.op.Insert? || (stop < |src| && src[stop] == line.text) { WalkedOne(src, h, n, produced, stop); }
      if !line.op.Insert? {
        if stop >= |src| {
          LineBreaks(src, h, n, produced, stop, PastEnd(k, stop));
          return Some(PastEnd(k, stop)), produced, stop;
        }
        if src[stop] != line.text {
          LineBreaks(src, h, n, produced, stop, Mismatch(k, stop));
          return Some(Mismatch(k, stop)), produced, stop;
        }
        stop := stop + 1;
      }
      if !line.op.Delete? {
        produced := produced + [line.text];
      }
    }
    assert h.lines[..|h.lines|] == h.lines;
    error := None;
  }

  /** Replaces every hunk's block, or reports the first hunk that cannot be applied. */
  method ApplyHunks(src: seq<string>, hunks: seq<Hunk>) returns (r: PatchResult)
    ensures r.Applied? <==> Applicable(src, hunks)
    ensures r.Applied? ==> r.lines == Spliced(src, hunks, 0)
    ensures r.Rejected? ==> Explains(src, hunks, r.error)
  {
    var result: seq<string> := [];
    var sourceIndex := 0;
    for k := 0 to |hunks|
      invariant Applicable(src, hunks[..k])
      invariant sourceIndex == if k == 0 then 0 else End(hunks[k - 1])
      invariant result + Spliced(src, hunks[k..], sourceIndex) == Spliced(src, hunks, 0)
    {
      var h := hunks[k];
      if Start(h) < sourceIndex {
        r := Rejected(Overlapping(k));
        ExplainedIsNotApplicable(src, hunks, r.error);
        return;
      }
      ghost var before := result;
      result := result + Slice(src, sourceIndex, Start(h));
      var error, produced, stop := RewriteBlock(src, h, k);
      if error.Some? {
        r := Rejected(error.value);
        ExplainedIsNotApplicable(src, hunks, r.error);
        return;
      }
      result := result + produced;
      SplicedAt(src, hunks, k, sourceIndex);
      Reassociate(before, Slice(src, sourceIndex, Start(h)), produced, Spliced(src, hunks[k + 1..], stop));
      sourceIndex := stop;
      ApplicableSnoc(src, hunks, k);
    }
    assert hunks[..|hunks|] == hunks;
    result := result + Slice(src, sourceIndex, |src|);
    r := Applied(result);
  }

  lemma SideSnoc(lines: seq<Line>, n: nat)
    requires n < |lines|
    ensures OldSide(lines[..n + 1]) == OldSide(lines[..n]) + (if lines[n].op.Insert? then [] else [lines[n].text])
    ensures NewSide(lines[..n + 1]) == NewSide(lines[..n]) + (if lines[n].op.Delete? then [] else [lines[n].text])
  {
    assert lines[..n + 1][..n] == lines[..n];
  }

  lemma StandsSnoc(src: seq<string>, at: nat, block: seq<string>)
    requires StandsAt(src, at, block) && at + |block| < |src|
    ensures StandsAt(src, at, block + [src[at + |block|]])
  {
    assert src[at..at + |block| + 1] == src[at..at + |block|] + [src[at + |block|]];
  }

  lemma {:induction false} OldSidePrefix(lines: seq<Line>, n: nat)
    requires n <= |lines|
    ensures OldSide(lines[..n]) <= OldSide(lines)
    decreases |lines|
  {
    if n == |lines| {
      assert lines[..n] == lines;
    } else {
      assert lines[..|lines| - 1][..n] == lines[..n];
      OldSidePrefix(lines[..|lines| - 1], n);
    }
  }

  lemma {:induction false} NewSidePrefix(lines: seq<Line>, n: nat)
    requires n <= |lines|
    ensures NewSide(lines[..n]) <= NewSide(lines)
    decreases |lines|
  {
    if n == |lines| {
      assert lines[..n] == lines;
    } else {
      assert lines[..|lines| - 1][..n] == lines[..n];
      NewSidePrefix(lines[..|lines| - 1], n);
    }
  }

  /** How many lines are of another kind. */
  function Tally(lines: seq<Line>, but: Op): (r: nat)
    ensures r <= |lines|
  {
    if lines == [] then 0 else Tally(lines[..|lines| - 1], but) + (if Last(lines).op != but then 1 else 0)
  }

  lemma {:induction false} SideLengths(lines: seq<Line>)
    ensures |OldSide(lines)| == Tally(lines, Insert) && |NewSide(lines)| == Tally(lines, Delete)
    decreases |lines|
  {
    if lines != [] { SideLengths(lines[..|lines| - 1]); }
  }

  /** The old side holds the context and deleted lines, the new side the context and inserted lines: each line stands
      after as many of its side as come before it, and no other lines are there. */
  lemma {:induction false} SidesByLine(lines: seq<Line>, k: nat)
    requires k < |lines|
    ensures |OldSide(lines)| == Tally(lines, Insert) && |NewSide(lines)| == Tally(lines, Delete)
    ensures lines[k].op != Insert ==>
      var i := Tally(lines[..k], Insert);
      i < |OldSide(lines)| && OldSide(lines)[i] == lines[k].text
    ensures lines[k].op != Delete ==>
      var i := Tally(lines[..k], Delete);
      i < |NewSide(lines)| && NewSide(lines)[i] == lines[k].text
  {
    SideLengths(lines);
    SideLengths(lines[..k]);
    SideSnoc(lines, k);
    OldSidePrefix(lines, k + 1);
    NewSidePrefix(lines, k + 1);
  }

  /** A rejection and applicability exclude each other. */
  lemma ExplainedIsNotApplicable(src: seq<string>, hunks: seq<Hunk>, e: PatchError)
    requires Explains(src, hunks, e)
    ensures !Applicable(src, hunks)
  {
    if e.Overlapping? {
      assert !(End(hunks[e.hunk - 1]) <= Start(hunks[e.hunk]));
    } else {
      BrokenBlock(src, hunks[e.hunk], e);
    }
  }

  lemma BrokenBlock(src: seq<string>, h: Hunk, e: PatchError)
    requires BreaksAt(src, h, e)
    ensures !StandsAt(src, Start(h), OldSide(h.lines))
  {
    if e.Mismatch? && End(h) <= |src| {
      assert src[Start(h)..End(h)][e.line - Start(h)] == src[e.line];
    }
  }

  // ----- Undoing a patch -----

  function SwapLine(l: Line): Line {
    Line(if l.op.Insert? then Delete else if l.op.Delete? then Insert else Context, l.text)
  }

  /** The hunk read backwards: signs swapped, old and new starts exchanged. */
  function Swap(h: Hunk): Hunk {
    Hunk(h.newStart, h.oldStart, seq(|h.lines|, i requires 0 <= i < |h.lines| => SwapLine(h.lines[i])))
  }

  function SwapAll(hunks: seq<Hunk>): (r: seq<Hunk>)
    ensures |r| == |hunks|
  {
    seq(|hunks|, i requires 0 <= i < |hunks| => Swap(hunks[i]))
  }

  /** Every hunk's new start is the one-based line its block has in the new file, which is `shift` lines off. */
  ghost predicate ConsistentNewStarts(hunks: seq<Hunk>, shift: int) {
    hunks != [] ==>
      && hunks[0].newStart == Start(hunks[0]) + shift + 1
      && ConsistentNewStarts(hunks[1..], shift + |NewSide(hunks[0].lines)| - |OldSide(hunks[0].lines)|)
  }

  lemma {:induction false} SwapSides(h: Hunk)
    ensures OldSide(Swap(h).lines) == NewSide(h.lines) && NewSide(Swap(h).lines) == OldSide(h.lines)
    decreases |h.lines|
  {
    if h.lines != [] {
      var shorter := h.(lines := h.lines[..|h.lines| - 1]);
      SwapSides(shorter);
      assert Swap(h).lines[..|h.lines| - 1] == Swap(shorter).lines;
    }
  }

  /** Swapping twice gives the hunks back. */
  lemma SwapIsInvolutive(hunks: seq<Hunk>)
    ensures SwapAll(SwapAll(hunks)) == hunks
  {
    forall i | 0 <= i < |hunks| ensures Swap(Swap(hunks[i])) == hunks[i] {
      assert Swap(Swap(hunks[i])).lines == hunks[i].lines;
    }
  }

  lemma ApplicableCons(src: seq<string>, h: Hunk, rest: seq<Hunk>)
    requires StandsAt(src, Start(h), OldSide(h.lines)) && Applicable(src, rest)
    requires forall i :: 0 <= i < |rest| ==> End(h) <= Start(rest[i])
    ensures Applicable(src, [h] + rest)
  {
    var all := [h] + rest;
    forall i | 0 <= i < |all| ensures StandsAt(src, Start(all[i]), OldSide(all[i].lines)) {
      if i > 0 { assert all[i] == rest[i - 1]; }
    }
    forall i, j | 0 <= i < j < |all| ensures End(all[i]) <= Start(all[j]) {
      assert all[j] == rest[j - 1];
      if i > 0 { assert all[i] == rest[i - 1]; }
    }
  }

  lemma SwapAllCons(hunks: seq<Hunk>)
    requires hunks != []
    ensures SwapAll(hunks) == [Swap(hunks[0])] + SwapAll(hunks[1..])
  {
  }

  lemma SplicedCons(src: seq<string>, h: Hunk, rest: seq<Hunk>, from: nat)
    ensures Spliced(src, [h] + rest, from) == Slice(src, from, Start(h)) + NewSide(h.lines) + Spliced(src, rest, End(h))
  {
    assert ([h] + rest)[1..] == rest;
  }

  /** In `a + b + c + d`, the piece `b` is followed by `c`, which stands where its length says. */
  lemma Pieces<T>(a: seq<T>, b: seq<T>, c: seq<T>, d: seq<T>)
    ensures var s := a + b + c + d;
            && |s| >= |a| + |b| + |c|
            && Slice(s, |a|, |a| + |b|) == b
            && s[|a| + |b|..|a| + |b| + |c|] == c
  {
    var s := a + b + c + d;
    SliceInside(s, |a|, |a| + |b|);
    assert s[|a|..|a| + |b|] == b;
  }

  /** One hunk of the undo: the tail of the new file already gives back the old tail, so the head does too. */
  lemma UndoStep(src: seq<string>, h: Hunk, rest: seq<Hunk>, from: nat, done: seq<string>, dst: seq<string>)
    requires from <= Start(h) <= |src| && StandsAt(src, Start(h), OldSide(h.lines))
    requires Start(Swap(h)) == |done| + (Start(h) - from)
    requires StandsAt(dst, Start(Swap(h)), OldSide(Swap(h).lines))
    requires Slice(dst, |done|, Start(Swap(h))) == src[from..Start(h)]
    requires Applicable(dst, rest) && forall i :: 0 <= i < |rest| ==> End(Swap(h)) <= Start(rest[i])
    requires Spliced(dst, rest, End(Swap(h))) == src[End(h)..]
    ensures Applicable(dst, [Swap(h)] + rest)
    ensures Spliced(dst, [Swap(h)] + rest, |done|) == src[from..]
  {
    SwapSides(h);
    ApplicableCons(dst, Swap(h), rest);
    SplicedCons(dst, Swap(h), rest, |done|);
    GapBlockTail(src, from, h);
  }

  /** Where the block of `h` lands in the new file. */
  lemma LandsAt(src: seq<string>, h: Hunk, from: nat, done: seq<string>, tail: seq<string>, dst: seq<string>)
    requires from <= Start(h) <= |src|
    requires h.newStart == |done| + Start(h) - from + 1
    requires dst == done + src[from..Start(h)] + NewSide(h.lines) + tail
    ensures Start(Swap(h)) == |done| + (Start(h) - from)
    ensures End(Swap(h)) == |done + src[from..Start(h)] + NewSide(h.lines)|
    ensures StandsAt(dst, Start(Swap(h)), OldSide(Swap(h).lines))
    ensures Slice(dst, |done|, Start(Swap(h))) == src[from..Start(h)]
  {
    SwapSides(h);
    Pieces(done, src[from..Start(h)], NewSide(h.lines), tail);
  }

  /** The swapped hunks apply to the new file from line `at` on and give back the old lines. */
  ghost predicate Undone(dst: seq<string>, back: seq<Hunk>, at: nat, was: seq<string>) {
    Applicable(dst, back) && StartFrom(back, at) && Spliced(dst, back, at) == was
  }

  ghost predicate StartFrom(hunks: seq<Hunk>, at: nat) {
    forall i :: 0 <= i < |hunks| ==> at <= Start(hunks[i])
  }

  /** Every hunk that has lines starts inside the file. */
  ghost predicate LinesInside(src: seq<string>, hunks: seq<Hunk>) {
    forall i :: 0 <= i < |hunks| && hunks[i].lines != [] ==> Start(hunks[i]) <= |src|
  }

  /** `dst` is `done` and then the patched rest of the file, and the hunks' new starts say so. */
  ghost predicate Undoable(src: seq<string>, hunks: seq<Hunk>, from: nat, shift: int, done: seq<string>,
      dst: seq<string>) {
    && Applicable(src, hunks) && from <= |src|
    && StartFrom(hunks, from) && LinesInside(src, hunks)
    && ConsistentNewStarts(hunks, shift) && shift == |done| - from
    && dst == done + Spliced(src, hunks, from)
  }

  lemma {:induction false} UndoFrom(src: seq<string>, hunks: seq<Hunk>, from: nat, shift: int, done: seq<string>,
      dst: seq<string>)
    requires Undoable(src, hunks, from, shift, done, dst)
    ensures Undone(dst, SwapAll(hunks), |done|, src[from..])
    decreases |hunks|
  {
    if NoLines(hunks) {
      NoLinesUndone(src, hunks, from, done);
    } else {
      var h, rest := hunks[0], hunks[1..];
      var done' := done + src[from..Start(h)] + NewSide(h.lines);
      RestUndoable(src, hunks, from, shift, done, dst);
      UndoFrom(src, rest, End(h), shift + |NewSide(h.lines)| - |OldSide(h.lines)|, done', dst);
      HeadUndone(src, hunks, from, shift, done, dst);
    }
  }

  lemma {:induction false} HeadUndone(src: seq<string>, hunks: seq<Hunk>, from: nat, shift: int, done: seq<string>,
      dst: seq<string>)
    requires hunks != [] && Undoable(src, hunks, from, shift, done, dst)
      && from <= Start(hunks[0]) <= End(hunks[0]) <= |src|
    requires Undone(dst, SwapAll(hunks[1..]), |done + src[from..Start(hunks[0])] + NewSide(hunks[0].lines)|,
      src[End(hunks[0])..])
    ensures Undone(dst, SwapAll(hunks), |done|, src[from..])
  {
    SplicedHead(src, hunks, from, done);
    UndoHead(src, hunks[0], hunks[1..], from, done, dst);
    SwapAllCons(hunks);
  }

  /** A hunk before one with lines ends inside the file. */
  lemma {:induction false} FirstInside(src: seq<string>, hunks: seq<Hunk>)
    requires Applicable(src, hunks) && LinesInside(src, hunks) && !NoLines(hunks)
    ensures Start(hunks[0]) <= End(hunks[0]) <= |src|
  {
    var k :| 0 <= k < |hunks| && hunks[k].lines != [];
    assert k > 0 ==> End(hunks[0]) <= Start(hunks[k]);
    assert StandsAt(src, Start(hunks[0]), OldSide(hunks[0].lines));
  }

  lemma {:induction false} LinesInsideTail(src: seq<string>, hunks: seq<Hunk>)
    requires hunks != [] && LinesInside(src, hunks)
    ensures LinesInside(src, hunks[1..])
  {
    forall i | 0 <= i < |hunks[1..]| && hunks[1..][i].lines != [] ensures Start(hunks[1..][i]) <= |src| {
      assert hunks[1..][i] == hunks[i + 1];
    }
  }

  lemma {:induction false} RestUndoable(src: seq<string>, hunks: seq<Hunk>, from: nat, shift: int, done: seq<string>,
      dst: seq<string>)
    requires !NoLines(hunks) && Undoable(src, hunks, from, shift, done, dst)
    ensures from <= Start(hunks[0]) <= End(hunks[0]) <= |src|
    ensures Undoable(src, hunks[1..], End(hunks[0]), shift + |NewSide(hunks[0].lines)| - |OldSide(hunks[0].lines)|,
                     done + src[from..Start(hunks[0])] + NewSide(hunks[0].lines), dst)
  {
    FirstInside(src, hunks);
    TailApplies(src, hunks);
    LinesInsideTail(src, hunks);
    SplicedHead(src, hunks, from, done);
  }

  /** Hunks without lines leave the two files with the same tail. */
  lemma {:induction false} NoLinesUndone(src: seq<string>, hunks: seq<Hunk>, from: nat, done: seq<string>)
    requires NoLines(hunks) && Applicable(src, hunks) && from <= |src| && StartFrom(hunks, from)
    requires ConsistentNewStarts(hunks, |done| - from)
    ensures Undone(done + Spliced(src, hunks, from), SwapAll(hunks), |done|, src[from..])
  {
    var dst := done + Spliced(src, hunks, from);
    NoLinesSplice(src, hunks, from);
    assert Slice(src, from, |src|) == src[from..];
    NoLinesSwapped(hunks, |done| - from, dst, |done|);
    NoLinesSplice(dst, SwapAll(hunks), |done|);
    assert Slice(dst, |done|, |dst|) == dst[|done|..] == src[from..];
  }

  /** Given the undone rest, the head is undone too. */
  lemma {:induction false} UndoHead(src: seq<string>, h: Hunk, rest: seq<Hunk>, from: nat, done: seq<string>,
      dst: seq<string>)
    requires from <= Start(h) <= End(h) <= |src| && StandsAt(src, Start(h), OldSide(h.lines))
    requires h.newStart == |done| + Start(h) - from + 1
    requires dst == done + src[from..Start(h)] + NewSide(h.lines) + Spliced(src, rest, End(h))
    requires Undone(dst, SwapAll(rest), |done + src[from..Start(h)] + NewSide(h.lines)|, src[End(h)..])
    ensures Undone(dst, [Swap(h)] + SwapAll(rest), |done|, src[from..])
  {
    LandsAt(src, h, from, done, Spliced(src, rest, End(h)), dst);
    UndoStep(src, h, SwapAll(rest), from, done, dst);
  }

  lemma {:induction false} SplicedHead(src: seq<string>, hunks: seq<Hunk>, from: nat, done: seq<string>)
    requires hunks != [] && from <= Start(hunks[0]) <= |src|
    ensures done + Spliced(src, hunks, from)
         == done + src[from..Start(hunks[0])] + NewSide(hunks[0].lines) + Spliced(src, hunks[1..], End(hunks[0]))
  {
    SliceInside(src, from, Start(hunks[0]));
    Reassociate(done, src[from..Start(hunks[0])], NewSide(hunks[0].lines), Spliced(src, hunks[1..], End(hunks[0])));
  }

  lemma GapBlockTail(src: seq<string>, from: nat, h: Hunk)
    requires from <= Start(h) <= |src| && StandsAt(src, Start(h), OldSide(h.lines))
    ensures src[from..Start(h)] + OldSide(h.lines) + src[End(h)..] == src[from..]
  {
  }

  /** A patch whose hunks with lines start inside the file, with new starts that say where their blocks land, is undone
      by the same patch with its signs and starts swapped. */
  lemma UndoRestores(src: seq<string>, hunks: seq<Hunk>)
    requires Applicable(src, hunks) && LinesInside(src, hunks)
    requires ConsistentNewStarts(hunks, 0)
    ensures Applicable(Spliced(src, hunks, 0), SwapAll(hunks))
    ensures Spliced(Spliced(src, hunks, 0), SwapAll(hunks), 0) == src
  {
    assert [] + Spliced(src, hunks, 0) == Spliced(src, hunks, 0);
    UndoFrom(src, hunks, 0, 0, [], Spliced(src, hunks, 0));
    assert src[0..] == src;
  }

  /** By how many lines the hunks lengthen the file. */
  ghost function Growth(hunks: seq<Hunk>): int {
    if hunks == [] then 0 else |NewSide(hunks[0].lines)| - |OldSide(hunks[0].lines)| + Growth(hunks[1..])
  }

  /** The patched file is longer by exactly the hunks' growth, even when hunks start past the end. */
  lemma {:induction false} SplicedLength(src: seq<string>, hunks: seq<Hunk>, from: nat)
    requires Applicable(src, hunks) && StartFrom(hunks, from)
    ensures |Spliced(src, hunks, from)| == (if from <= |src| then |src| - from else 0) + Growth(hunks)
    decreases |hunks|
  {
    if hunks != [] {
      TailApplies(src, hunks);
      SplicedLength(src, hunks[1..], End(hunks[0]));
    }
  }

  lemma {:induction false} TailApplies(src: seq<string>, hunks: seq<Hunk>)
    requires hunks != [] && Applicable(src, hunks)
    ensures Applicable(src, hunks[1..]) && StartFrom(hunks[1..], End(hunks[0]))
    ensures StandsAt(src, Start(hunks[0]), OldSide(hunks[0].lines))
  {
    var rest := hunks[1..];
    forall i | 0 <= i < |rest|
        ensures StandsAt(src, Start(rest[i]), OldSide(rest[i].lines)) && End(hunks[0]) <= Start(rest[i]) {
      assert rest[i] == hunks[i + 1];
    }
    forall i, j | 0 <= i < j < |rest| ensures End(rest[i]) <= Start(rest[j]) {
      assert rest[i] == hunks[i + 1] && rest[j] == hunks[j + 1];
    }
  }

  /** A consistent new start counts the growth of every hunk before. */
  lemma {:induction false} NewStartAt(hunks: seq<Hunk>, shift: int, k: nat)
    requires ConsistentNewStarts(hunks, shift) && k < |hunks|
    ensures hunks[k].newStart == Start(hunks[k]) + shift + Growth(hunks) - Growth(hunks[k..]) + 1
    decreases k
  {
    if k > 0 {
      NewStartAt(hunks[1..], shift + |NewSide(hunks[0].lines)| - |OldSide(hunks[0].lines)|, k - 1);
      assert hunks[1..][k - 1..] == hunks[k..];
    } else {
      assert hunks[0..] == hunks;
    }
  }

  /** A hunk with lines and an empty old side has a new side. */
  lemma {:induction false} SomeSide(lines: seq<Line>)
    requires lines != [] && OldSide(lines) == []
    ensures NewSide(lines) != []
  {
    var n := |lines| - 1;
    assert lines[..n + 1] == lines;
    SideSnoc(lines, n);
  }

  /** Hunks without lines replace nothing. */
  ghost predicate NoLines(hunks: seq<Hunk>) {
    forall i :: 0 <= i < |hunks| ==> hunks[i].lines == []
  }

  lemma {:induction false} NoLinesNoGrowth(hunks: seq<Hunk>)
    requires NoLines(hunks)
    ensures Growth(hunks) == 0
    decreases |hunks|
  {
    if hunks != [] { NoLinesNoGrowth(hunks[1..]); }
  }

  lemma {:induction false} NoLinesSplice(src: seq<string>, hunks: seq<Hunk>, from: nat)
    requires NoLines(hunks) && Applicable(src, hunks) && StartFrom(hunks, from)
    ensures Spliced(src, hunks, from) == Slice(src, from, |src|)
    decreases |hunks|
  {
    if hunks != [] {
      var h := hunks[0];
      assert OldSide(h.lines) == [] && NewSide(h.lines) == [];
      TailApplies(src, hunks);
      NoLinesSplice(src, hunks[1..], Start(h));
      SlicesJoin(src, from, Start(h));
    }
  }

  lemma SlicesJoin(src: seq<string>, from: nat, mid: nat)
    requires from <= mid
    ensures Slice(src, from, mid) + [] + Slice(src, mid, |src|) == Slice(src, from, |src|)
  {
  }

  /** Swapped hunks without lines still have none, start in order, and fit anywhere. */
  lemma {:induction false} NoLinesSwapped(hunks: seq<Hunk>, shift: int, dst: seq<string>, at: nat)
    requires NoLines(hunks) && ConsistentNewStarts(hunks, shift)
    requires forall i :: 0 <= i < |hunks| ==> at <= Start(hunks[i]) + shift
    requires forall i, j :: 0 <= i < j < |hunks| ==> End(hunks[i]) <= Start(hunks[j])
    ensures NoLines(SwapAll(hunks)) && Applicable(dst, SwapAll(hunks)) && StartFrom(SwapAll(hunks), at)
  {
    forall i | 0 <= i < |hunks|
        ensures Start(SwapAll(hunks)[i]) == Start(hunks[i]) + shift && SwapAll(hunks)[i].lines == [] {
      NoLinesShift(hunks, shift, i);
    }
  }

  lemma {:induction false} NoLinesShift(hunks: seq<Hunk>, shift: int, i: nat)
    requires NoLines(hunks) && ConsistentNewStarts(hunks, shift) && i < |hunks|
    ensures hunks[i].newStart == Start(hunks[i]) + shift + 1
    decreases i
  {
    if i > 0 { NoLinesShift(hunks[1..], shift, i - 1); }
  }

  /** The last hunk that has lines. */
  lemma {:induction false} LastLined(hunks: seq<Hunk>, i: nat) returns (k: nat)
    requires i < |hunks| && hunks[i].lines != []
    ensures i <= k < |hunks| && hunks[k].lines != [] && NoLines(hunks[k + 1..])
    decreases |hunks| - i
  {
    if NoLines(hunks[i + 1..]) { return i; }
    var j :| 0 <= j < |hunks[i + 1..]| && hunks[i + 1..][j].lines != [];
    k := LastLined(hunks, i + 1 + j);
  }

  /** A patch whose last hunk with lines starts past the end cannot be undone: its block would have to stand past the
      end of the new file. */
  lemma {:induction false} PastEndIsNotUndone(src: seq<string>, hunks: seq<Hunk>, k: nat)
    requires Applicable(src, hunks) && ConsistentNewStarts(hunks, 0)
    requires k < |hunks| && hunks[k].lines != [] && NoLines(hunks[k + 1..]) && Start(hunks[k]) > |src|
    ensures !Applicable(Spliced(src, hunks, 0), SwapAll(hunks))
  {
    var last, dst := hunks[k], Spliced(src, hunks, 0);
    SplicedLength(src, hunks, 0);
    NewStartAt(hunks, 0, k);
    assert hunks[k..][1..] == hunks[k + 1..];
    NoLinesNoGrowth(hunks[k + 1..]);
    SomeSide(last.lines);
    SwapSides(last);
    assert SwapAll(hunks)[k] == Swap(last);
    assert !StandsAt(dst, Start(Swap(last)), OldSide(Swap(last).lines));
  }

  /** A patch with consistent new starts is undone by its swapped form exactly when every hunk that has lines starts
      inside the file. */
  lemma {:induction false} UndoneIffInside(src: seq<string>, hunks: seq<Hunk>)
    requires Applicable(src, hunks) && ConsistentNewStarts(hunks, 0)
    ensures Undone(Spliced(src, hunks, 0), SwapAll(hunks), 0, src) <==> LinesInside(src, hunks)
  {
    if LinesInside(src, hunks) {
      UndoRestores(src, hunks);
    } else {
      var i: nat :| i < |hunks| && hunks[i].lines != [] && Start(hunks[i]) > |src|;
      var k := LastLined(hunks, i);
      LaterStarts(src, hunks, i, k);
      PastEndIsNotUndone(src, hunks, k);
    }
  }

  lemma {:induction false} LaterStarts(src: seq<string>, hunks: seq<Hunk>, i: nat, k: nat)
    requires Applicable(src, hunks) && i <= k < |hunks|
    ensures Start(hunks[i]) <= Start(hunks[k])
  {
    if i < k { assert End(hunks[i]) <= Start(hunks[k]); }
  }

  /** Undoing the undoing gives the patched file back. */
  lemma {:induction false} RedoRestores(src: seq<string>, hunks: seq<Hunk>)
    requires Applicable(src, hunks) && ConsistentNewStarts(hunks, 0) && LinesInside(src, hunks)
    ensures var dst := Spliced(src, hunks, 0);
            && Applicable(Spliced(dst, SwapAll(hunks), 0), SwapAll(SwapAll(hunks)))
            && Spliced(Spliced(dst, SwapAll(hunks), 0), SwapAll(SwapAll(hunks)), 0) == dst
  {
    UndoRestores(src, hunks);
    SwapIsInvolutive(hunks);
  }

  /** Starting inside the file matters: an insertion past the end is appended, and its swapped patch is rejected. */
  lemma PastEndCannotBeUndone()
    ensures var src := ["a"];
            var hunks := [Hunk(5, 5, [Line(Insert, "x")])];
            && Applicable(src, hunks) && ConsistentNewStarts(hunks, 0)
            && Spliced(src, hunks, 0) == ["a", "x"]
            && !Applicable(Spliced(src, hunks, 0), SwapAll(hunks))
  {
    var src := ["a"];
    var h := Hunk(5, 5, [Line(Insert, "x")]);
    InsertingSides(["x"]);
    assert Inserting(["x"]) == [Line(Insert, "x")];
    SwapSides(h);
    assert SwapAll([h])[0] == Swap(h);
    assert !StandsAt(["a", "x"], 4, ["x"]);
  }

  lemma OneHunk(src: seq<string>, h: Hunk)
    requires End(h) <= |src|
    ensures Spliced(src, [h], 0) == src[..Start(h)] + NewSide(h.lines) + src[End(h)..]
  {
    SliceInside(src, 0, Start(h));
    SplicedCons(src, h, [], 0);
    assert [h] + [] == [h];
    assert src[0..Start(h)] == src[..Start(h)];
  }

  /** The lines of a hunk that only inserts. */
  function Inserting(texts: seq<string>): (r: seq<Line>)
    ensures |r| == |texts|
  {
    seq(|texts|, i requires 0 <= i < |texts| => Line(Insert, texts[i]))
  }

  lemma {:induction false} InsertingSides(texts: seq<string>)
    ensures OldSide(Inserting(texts)) == [] && NewSide(Inserting(texts)) == texts
    decreases |texts|
  {
    if texts != [] {
      var n := |texts| - 1;
      InsertingSides(texts[..n]);
      assert Inserting(texts)[..n] == Inserting(texts[..n]) && Inserting(texts)[..n + 1] == Inserting(texts);
      SideSnoc(Inserting(texts), n);
      assert texts == texts[..n] + [texts[n]];
    }
  }

  /** A zero-context insertion `@@ -n,0 ...` means "after line n" in the unified format, but is applied before line n:
      the two readings agree exactly when every inserted line repeats line n. */
  lemma {:induction false} ZeroContextInsertionGoesBefore(src: seq<string>, n: nat, m: nat, texts: seq<string>)
    requires 1 <= n <= |src|
    ensures var hunks := [Hunk(n, m, Inserting(texts))];
            && Applicable(src, hunks)
            && Spliced(src, hunks, 0) == src[..n - 1] + texts + src[n - 1..]
            && (Spliced(src, hunks, 0) == src[..n] + texts + src[n..] <==> forall t :: t in texts ==> t == src[n - 1])
  {
    var h := Hunk(n, m, Inserting(texts));
    InsertingSides(texts);
    InsertionApplies(src, h);
    OneHunk(src, h);
    MovedLines(src[..n - 1], src[n - 1], src[n..], texts);
    assert src[..n - 1] + [src[n - 1]] == src[..n] && [src[n - 1]] + src[n..] == src[n - 1..];
  }

  lemma {:induction false} InsertionApplies(src: seq<string>, h: Hunk)
    requires OldSide(h.lines) == [] && 1 <= h.oldStart <= |src|
    ensures Start(h) == End(h) == h.oldStart - 1 && Applicable(src, [h])
  {
  }

  /** Lines can move over a line exactly when they all repeat it. */
  lemma {:induction false} MovedLines(before: seq<string>, line: string, after: seq<string>, texts: seq<string>)
    ensures before + texts + ([line] + after) == before + [line] + texts + after
      <==> forall t :: t in texts ==> t == line
  {
    var left, right := texts + [line], [line] + texts;
    assert before + texts + ([line] + after) == before + left + after;
    assert before + [line] + texts + after == before + right + after;
    SameMiddle(before, left, right, after);
    Rotated(line, texts);
  }

  lemma SameMiddle<T>(before: seq<T>, x: seq<T>, y: seq<T>, after: seq<T>)
    requires |x| == |y|
    ensures before + x + after == before + y + after <==> x == y
  {
    if before + x + after == before + y + after {
      assert (before + x + after)[|before|..|before| + |x|] == x && (before + y + after)[|before|..|before| + |y|] == y;
    }
  }

  lemma {:induction false} Rotated(line: string, texts: seq<string>)
    ensures texts + [line] == [line] + texts <==> forall t :: t in texts ==> t == line
  {
    if texts + [line] == [line] + texts {
      forall i | 0 <= i < |texts| ensures texts[i] == line { RotatedAt(line, texts, i); }
    }
    if forall t :: t in texts ==> t == line { AllRepeat(line, texts); }
  }

  lemma {:induction false} AllRepeat(line: string, texts: seq<string>)
    requires forall t :: t in texts ==> t == line
    ensures texts + [line] == [line] + texts
  {
    var left, right := texts + [line], [line] + texts;
    forall i | 0 <= i < |left| ensures left[i] == line && right[i] == line {
      if i < |texts| { assert texts[i] in texts; }
      if i > 0 { assert texts[i - 1] in texts; }
    }
  }

  lemma {:induction false} RotatedAt(line: string, texts: seq<string>, i: nat)
    requires texts + [line] == [line] + texts && i < |texts|
    ensures texts[i] == line
    decreases i
  {
    assert (texts + [line])[i] == ([line] + texts)[i];
    if i > 0 { RotatedAt(line, texts, i - 1); }
  }
}
