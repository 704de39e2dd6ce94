/** The reverse-provenance closure of a deletion (`_plan` in `secminiagent/memory/cascade_delete.py`): breadth-first
    over live relations, with depth and node limits. */
module Closure {
  import opened Basics
  import opened Records

  // ----- Reachability -----

  function LiveInto(relations: Relations, s: set<Id>): set<Id> {
    set r | r in relations && relations[r].live && relations[r].target in s
  }

  function SourcesOf(relations: Relations, ids: set<Id>): set<Id> {
    set r | r in ids && r in relations :: relations[r].source
  }

  /** Every record within `d` live relations of a direct one. */
  ghost function Ball(relations: Relations, direct: set<Id>, d: nat): set<Id> {
    if d == 0 then direct else
      Ball(relations, direct, d - 1) + SourcesOf(relations, LiveInto(relations, Ball(relations, direct, d - 1)))
  }

  /** Whatever is made from a member is a member. */
  ghost predicate Closed(relations: Relations, s: set<Id>) {
    forall r :: r in relations && relations[r].live && relations[r].target in s ==> relations[r].source in s
  }

  ghost predicate LeastClosed(relations: Relations, direct: set<Id>, s: set<Id>) {
    && direct <= s && Closed(relations, s)
    && forall t: set<Id> :: direct <= t && Closed(relations, t) ==> s <= t
  }

  /** Everything some number of live relations away from a direct record. */
  ghost function ClosureOf(relations: Relations, direct: set<Id>): set<Id> {
    set x | x in direct + SourcesOf(relations, relations.Keys) && exists d: nat :: x in Ball(relations, direct, d)
  }

  lemma {:induction false} BallGrows(relations: Relations, direct: set<Id>, m: nat, n: nat)
    requires m <= n
    ensures Ball(relations, direct, m) <= Ball(relations, direct, n)
    decreases n
  {
    if m < n { BallGrows(relations, direct, m, n - 1); }
  }

  lemma {:induction false} BallInUniverse(relations: Relations, direct: set<Id>, d: nat)
    ensures Ball(relations, direct, d) <= direct + SourcesOf(relations, relations.Keys)
    decreases d
  {
    if d > 0 { BallInUniverse(relations, direct, d - 1); }
  }

  lemma BallInClosure(relations: Relations, direct: set<Id>, d: nat)
    ensures Ball(relations, direct, d) <= ClosureOf(relations, direct)
  {
    BallInUniverse(relations, direct, d);
  }

  lemma {:induction false} BallInClosed(relations: Relations, direct: set<Id>, d: nat, t: set<Id>)
    requires direct <= t && Closed(relations, t)
    ensures Ball(relations, direct, d) <= t
    decreases d
  {
    if d > 0 { BallInClosed(relations, direct, d - 1, t); }
  }

  /** The closure is the least set that holds the direct records and is closed. */
  lemma ClosureIsLeast(relations: Relations, direct: set<Id>)
    ensures LeastClosed(relations, direct, ClosureOf(relations, direct))
  {
    var s := ClosureOf(relations, direct);
    assert Ball(relations, direct, 0) == direct;
    BallInClosure(relations, direct, 0);
    forall r | r in relations && relations[r].live && relations[r].target in s ensures relations[r].source in s {
      var d: nat :| relations[r].target in Ball(relations, direct, d);
      assert r in LiveInto(relations, Ball(relations, direct, d));
      assert relations[r].source in Ball(relations, direct, d + 1);
      BallInClosure(relations, direct, d + 1);
    }
    forall t: set<Id> | direct <= t && Closed(relations, t) ensures s <= t {
      forall x | x in s ensures x in t {
        var d: nat :| x in Ball(relations, direct, d);
        BallInClosed(relations, direct, d, t);
      }
    }
  }

  /** A ball that stops growing is the whole closure. */
  lemma StableBallIsClosure(relations: Relations, direct: set<Id>, d: nat)
    requires Ball(relations, direct, d + 1) == Ball(relations, direct, d)
    ensures ClosureOf(relations, direct) == Ball(relations, direct, d)
  {
    var b := Ball(relations, direct, d);
    BallGrows(relations, direct, 0, d);
    forall r | r in relations && relations[r].live && relations[r].target in b ensures relations[r].source in b {
      assert r in LiveInto(relations, b);
      assert relations[r].source in SourcesOf(relations, LiveInto(relations, b));
    }
    ClosureIsLeast(relations, direct);
    BallInClosure(relations, direct, d);
  }

  // ----- The search -----

  datatype Found = Found(closure: set<Id>, derived: set<Id>, relationIds: set<Id>, adjacency: map<Id, set<Id>>)

  datatype Search = Collected(found: Found) | LimitExceeded | DerivedMissing

  function Children(adjacency: map<Id, set<Id>>, n: Id): set<Id> {
    if n in adjacency then adjacency[n] else {}
  }

  /** The records made from `n` by the given relations. */
  function MadeFrom(relations: Relations, ids: set<Id>, n: Id): set<Id> {
    set r | r in ids && r in relations && relations[r].target == n :: relations[r].source
  }

  /** The records are few enough, and every one is close enough to a direct record. */
  ghost predicate Limited(relations: Relations, direct: set<Id>, records: set<Id>, maxDepth: int, maxNodes: int) {
    direct == {} || (|records| <= maxNodes && exists d: nat :: d < maxDepth && records <= Ball(relations, direct, d))
  }

  ghost predicate WithinLimits(relations: Relations, direct: set<Id>, maxDepth: int, maxNodes: int) {
    Limited(relations, direct, ClosureOf(relations, direct), maxDepth, maxNodes)
  }

  /** Every record the search discovers is stored and not deleted. */
  ghost predicate DerivedPresent(memories: Memories, relations: Relations, direct: set<Id>) {
    forall x :: x in ClosureOf(relations, direct) - direct ==> LiveRow(memories, x)
  }

  /** What the search has when it has expanded exactly the records of `expanded`. */
  ghost predicate Recorded(relations: Relations, direct: set<Id>, expanded: set<Id>, f: Found) {
    && f.derived == f.closure - direct
    && f.relationIds == LiveInto(relations, expanded)
    && forall n :: Children(f.adjacency, n) == MadeFrom(relations, f.relationIds, n)
  }

  /** Expands one level: follows every live relation into the frontier. */
  method ExpandLevel(memories: Memories, relations: Relations, direct: set<Id>, f: Found, frontier: set<Id>)
    returns (ok: bool, f': Found, next: set<Id>)
    requires f.derived == f.closure - direct && direct <= f.closure
    requires forall n :: Children(f.adjacency, n) == MadeFrom(relations, f.relationIds, n)
    ensures ok ==>
      f'.closure == f.closure + SourcesOf(relations, LiveInto(relations, frontier)) && next == f'.closure - f.closure
    ensures ok ==> f'.derived == f'.closure - direct && f'.relationIds == f.relationIds + LiveInto(relations, frontier)
    ensures ok ==> forall n :: Children(f'.adjacency, n) == MadeFrom(relations, f'.relationIds, n)
    ensures ok ==> forall x :: x in next ==> LiveRow(memories, x)
    ensures !ok ==>
      exists x :: x in SourcesOf(relations, LiveInto(relations, frontier)) && x !in f.closure && !LiveRow(memories, x)
  {
    var todo := LiveInto(relations, frontier);
    f', next := f, {};
    while todo != {}
      invariant todo <= LiveInto(relations, frontier)
      invariant f'.closure == f.closure + SourcesOf(relations, LiveInto(relations, frontier) - todo)
      invariant next == f'.closure - f.closure
      invariant f'.derived == f'.closure - direct
      invariant f'.relationIds == f.relationIds + (LiveInto(relations, frontier) - todo)
      invariant forall n :: Children(f'.adjacency, n) == MadeFrom(relations, f'.relationIds, n)
      invariant forall x :: x in next ==> LiveRow(memories, x)
      decreases todo
    {
      var r :| r in todo;
      var child, parent := relations[r].source, relations[r].target;
      AddedRelation(relations, f', r);
      var adjacency := f'.adjacency[parent := Children(f'.adjacency, parent) + {child}];
      f' := f'.(relationIds := f'.relationIds + {r}, adjacency := adjacency);
      ghost var done := LiveInto(relations, frontier) - todo;
      assert SourcesOf(relations, done + {r}) == SourcesOf(relations, done) + {child};
      assert LiveInto(relations, frontier) - (todo - {r}) == done + {r};
      todo := todo - {r};
      if child !in f'.closure {
        if !LiveRow(memories, child) { return false, f', next; }
        f' := f'.(closure := f'.closure + {child}, derived := f'.derived + {child});
        next := next + {child};
      }
    }
    ok := true;
  }

  /** Recording one relation adds its source to the children of its target. */
  lemma AddedRelation(relations: Relations, f: Found, r: Id)
    requires r in relations && forall n :: Children(f.adjacency, n) == MadeFrom(relations, f.relationIds, n)
    ensures var parent := relations[r].target;
            var adjacency := f.adjacency[parent := Children(f.adjacency, parent) + {relations[r].source}];
            forall n :: Children(adjacency, n) == MadeFrom(relations, f.relationIds + {r}, n)
  {
    forall n ensures MadeFrom(relations, f.relationIds + {r}, n)
                  == MadeFrom(relations, f.relationIds, n)
                    + (if relations[r].target == n then {relations[r].source} else {}) { }
  }

  /** The records expanded before level `d`. */
  ghost function Before(relations: Relations, direct: set<Id>, d: nat): set<Id> {
    if d == 0 then {} else Ball(relations, direct, d - 1)
  }

  /** Following only the frontier is enough: older members have been followed before. */
  lemma FrontierIsEnough(relations: Relations, direct: set<Id>, d: nat, frontier: set<Id>)
    requires frontier == Ball(relations, direct, d) - Before(relations, direct, d)
    ensures Ball(relations, direct, d + 1)
         == Ball(relations, direct, d) + SourcesOf(relations, LiveInto(relations, frontier))
    ensures LiveInto(relations, Ball(relations, direct, d))
      == LiveInto(relations, Before(relations, direct, d)) + LiveInto(relations, frontier)
  {
    var b := Ball(relations, direct, d);
    if d > 0 { BallGrows(relations, direct, d - 1, d); }
    forall x | x in SourcesOf(relations, LiveInto(relations, b))
        ensures x in b + SourcesOf(relations, LiveInto(relations, frontier)) {
      var r :| r in LiveInto(relations, b) && relations[r].source == x;
      if relations[r].target !in frontier {
        assert r in LiveInto(relations, Ball(relations, direct, d - 1));
      }
    }
  }

  /** A level with new records at or beyond the depth limit is farther than the limit allows. */
  lemma TooDeep(relations: Relations, direct: set<Id>, d: nat, n: nat)
    requires Ball(relations, direct, d) != Before(relations, direct, d) && n < d
    ensures !(ClosureOf(relations, direct) <= Ball(relations, direct, n))
  {
    BallInClosure(relations, direct, d);
    BallGrows(relations, direct, n, d - 1);
    BallGrows(relations, direct, d - 1, d);
    Squeezed(Ball(relations, direct, n), Ball(relations, direct, d - 1), Ball(relations, direct, d),
      ClosureOf(relations, direct));
  }

  lemma Squeezed<T>(limit: set<T>, inner: set<T>, outer: set<T>, all: set<T>)
    requires limit <= inner <= outer <= all && inner != outer
    ensures !(all <= limit)
  {
  }

  lemma TooMany(relations: Relations, direct: set<Id>, d: nat, maxNodes: int)
    requires |Ball(relations, direct, d)| > maxNodes
    ensures |ClosureOf(relations, direct)| > maxNodes
  {
    BallInClosure(relations, direct, d);
    SubsetSize(Ball(relations, direct, d), ClosureOf(relations, direct));
  }

  lemma {:induction false} SubsetSize<T>(a: set<T>, b: set<T>)
    requires a <= b
    ensures |a| <= |b|
    decreases a
  {
    if a != {} {
      var x :| x in a;
      SubsetSize(a - {x}, b - {x});
      assert |b - {x}| == |b| - 1;
    }
  }

  /** After `depth` levels: the closure so far, its last level, and what has been recorded. */
  ghost predicate Searching(
    memories: Memories, relations: Relations, direct: set<Id>, maxDepth: int, maxNodes: int,
    depth: nat, f: Found, frontier: set<Id>)
  {
    && f.closure == Ball(relations, direct, depth)
    && frontier == f.closure - Before(relations, direct, depth)
    && Recorded(relations, direct, Before(relations, direct, depth), f)
    && (forall x :: x in f.closure - direct ==> LiveRow(memories, x))
    && (depth > 0 ==> direct != {} && depth <= maxDepth && |Before(relations, direct, depth)| <= maxNodes)
  }

  lemma SearchStarts(memories: Memories, relations: Relations, direct: set<Id>, maxDepth: int, maxNodes: int)
    ensures Searching(memories, relations, direct, maxDepth, maxNodes, 0, Found(direct, {}, {}, map[]), direct)
  {
  }

  lemma SearchStops(
    memories: Memories, relations: Relations, direct: set<Id>, maxDepth: int, maxNodes: int, depth: nat, f: Found,
      frontier: set<Id>)
    requires Searching(memories, relations, direct, maxDepth, maxNodes, depth, f, frontier) && frontier != {}
    requires depth >= maxDepth || |f.closure| > maxNodes
    ensures !WithinLimits(relations, direct, maxDepth, maxNodes)
  {
    if depth >= maxDepth {
      forall n: nat | n < maxDepth ensures !(ClosureOf(relations, direct) <= Ball(relations, direct, n)) {
        TooDeep(relations, direct, depth, n);
      }
    } else {
      TooMany(relations, direct, depth, maxNodes);
    }
  }

  lemma SearchGoesOn(
    memories: Memories, relations: Relations, direct: set<Id>, maxDepth: int, maxNodes: int,
    depth: nat, f: Found, frontier: set<Id>, f': Found, next: set<Id>)
    requires Searching(memories, relations, direct, maxDepth, maxNodes, depth, f, frontier) && frontier != {}
    requires depth < maxDepth && |f.closure| <= maxNodes
    requires f'.closure == f.closure + SourcesOf(relations, LiveInto(relations, frontier))
      && next == f'.closure - f.closure
    requires f'.derived == f'.closure - direct && f'.relationIds == f.relationIds + LiveInto(relations, frontier)
    requires forall n :: Children(f'.adjacency, n) == MadeFrom(relations, f'.relationIds, n)
    requires forall x :: x in next ==> LiveRow(memories, x)
    ensures Searching(memories, relations, direct, maxDepth, maxNodes, depth + 1, f', next)
    ensures f'.closure <= direct + SourcesOf(relations, relations.Keys)
  {
    FrontierIsEnough(relations, direct, depth, frontier);
    BallInUniverse(relations, direct, depth + 1);
    assert Before(relations, direct, depth + 1) == f.closure;
    assert direct != {} by { if depth == 0 { assert f.closure == direct; } }
  }

  lemma SearchMisses(
    memories: Memories, relations: Relations, direct: set<Id>, maxDepth: int, maxNodes: int, depth: nat, f: Found,
      frontier: set<Id>)
    requires Searching(memories, relations, direct, maxDepth, maxNodes, depth, f, frontier)
    requires exists x ::
      x in SourcesOf(relations, LiveInto(relations, frontier)) && x !in f.closure && !LiveRow(memories, x)
    ensures !DerivedPresent(memories, relations, direct)
  {
    var x :| x in SourcesOf(relations, LiveInto(relations, frontier)) && x !in f.closure && !LiveRow(memories, x);
    FrontierIsEnough(relations, direct, depth, frontier);
    BallInClosure(relations, direct, depth + 1);
    BallGrows(relations, direct, 0, depth);
    assert x in ClosureOf(relations, direct) - direct;
  }

  /** An empty last level means the ball before it was already the closure. */
  lemma LastLevelEmpty(relations: Relations, direct: set<Id>, depth: nat)
    requires depth > 0 && Ball(relations, direct, depth) - Ball(relations, direct, depth - 1) == {}
    ensures ClosureOf(relations, direct) == Ball(relations, direct, depth - 1) == Ball(relations, direct, depth)
  {
    BallGrows(relations, direct, depth - 1, depth);
    NothingLeft(Ball(relations, direct, depth - 1), Ball(relations, direct, depth));
    StableBallIsClosure(relations, direct, depth - 1);
  }

  lemma NothingLeft<T>(a: set<T>, b: set<T>)
    requires a <= b && b - a == {}
    ensures a == b
  {
    forall x | x in b ensures x in a {
      assert x in a || x in b - a;
    }
  }

  lemma SearchEnds(
    memories: Memories, relations: Relations, direct: set<Id>, maxDepth: int, maxNodes: int, depth: nat, f: Found)
    requires Searching(memories, relations, direct, maxDepth, maxNodes, depth, f, {})
    ensures f.closure == ClosureOf(relations, direct) && Recorded(relations, direct, f.closure, f)
    ensures WithinLimits(relations, direct, maxDepth, maxNodes)
  {
    if depth > 0 {
      LastLevelEmpty(relations, direct, depth);
      assert f.closure <= Ball(relations, direct, depth - 1);
    } else {
      NothingLeft({}, direct);
      assert LiveInto(relations, {}) == {};
      StableBallIsClosure(relations, direct, 0);
    }
  }

  lemma LessLeft<T>(universe: set<T>, a: set<T>, b: set<T>)
    requires a <= b <= universe
    ensures a == b || universe - b < universe - a
    ensures b - a == {} <==> a == b
  {
    if a != b {
      var x :| x in b && x !in a;
      assert x in universe - a && x !in universe - b && x in b - a;
    }
  }

  /** The breadth-first search: collects exactly the closure, unless a limit or a missing record stops it. */
  method CollectClosure(memories: Memories, relations: Relations, direct: set<Id>, maxDepth: int, maxNodes: int)
      returns (s: Search)
    ensures s.Collected?
      <==> WithinLimits(relations, direct, maxDepth, maxNodes) && DerivedPresent(memories, relations, direct)
    ensures s.Collected? ==>
      s.found.closure == ClosureOf(relations, direct) && Recorded(relations, direct, s.found.closure, s.found)
    ensures s.LimitExceeded? ==> !WithinLimits(relations, direct, maxDepth, maxNodes)
    ensures s.DerivedMissing? ==> !DerivedPresent(memories, relations, direct)
  {
    var f := Found(direct, {}, {}, map[]);
    var frontier := direct;
    var depth := 0;
    ghost var universe := direct + SourcesOf(relations, relations.Keys);
    SearchStarts(memories, relations, direct, maxDepth, maxNodes);
    while frontier != {}
      invariant Searching(memories, relations, direct, maxDepth, maxNodes, depth, f, frontier)
      invariant direct <= f.closure <= universe
      decreases universe - f.closure, if frontier == {} then 0 else 1
    {
      if depth >= maxDepth || |f.closure| > maxNodes {
        SearchStops(memories, relations, direct, maxDepth, maxNodes, depth, f, frontier);
        return LimitExceeded;
      }
      var ok, f', next := ExpandLevel(memories, relations, direct, f, frontier);
      if !ok {
        SearchMisses(memories, relations, direct, maxDepth, maxNodes, depth, f, frontier);
        return DerivedMissing;
      }
      SearchGoesOn(memories, relations, direct, maxDepth, maxNodes, depth, f, frontier, f', next);
      LessLeft(universe, f.closure, f'.closure);
      f, frontier, depth := f', next, depth + 1;
    }
    SearchEnds(memories, relations, direct, maxDepth, maxNodes, depth, f);
    assert DerivedPresent(memories, relations, direct);
    s := Collected(f);
  }
}
