/** The cycle check of a deletion plan (the nested `visit` of `_plan` in `secminiagent/memory/cascade_delete.py`):
    depth-first, with the records on the current path and the records already done. */
module Cycles {
  import opened Basics
  import opened Closure

  /** Each record of the walk is made from the one before it. */
  ghost predicate Walk(adjacency: map<Id, set<Id>>, p: seq<Id>) {
    forall i :: 0 <= i < |p| - 1 ==> p[i + 1] in Children(adjacency, p[i])
  }

  ghost predicate Loop(adjacency: map<Id, set<Id>>, p: seq<Id>) {
    |p| >= 2 && p[0] == p[|p| - 1] && Walk(adjacency, p)
  }

  ghost predicate Cyclic(adjacency: map<Id, set<Id>>) {
    exists p: seq<Id> :: Loop(adjacency, p)
  }

  /** Every edge leads to a smaller rank. */
  ghost predicate Ranked(adjacency: map<Id, set<Id>>, rank: map<Id, int>) {
    forall a, b :: b in Children(adjacency, a) ==> a in rank && b in rank && rank[b] < rank[a]
  }

  lemma {:induction false} WalkDescends(adjacency: map<Id, set<Id>>, rank: map<Id, int>, p: seq<Id>)
    requires Ranked(adjacency, rank) && Walk(adjacency, p) && |p| >= 2
    ensures p[0] in rank && p[|p| - 1] in rank && rank[p[|p| - 1]] < rank[p[0]]
    decreases |p|
  {
    if |p| > 2 {
      assert Walk(adjacency, p[1..]);
      WalkDescends(adjacency, rank, p[1..]);
    }
    assert p[1] in Children(adjacency, p[0]);
  }

  /** A graph whose edges descend has no cycle. */
  lemma RankedIsAcyclic(adjacency: map<Id, set<Id>>, rank: map<Id, int>)
    requires Ranked(adjacency, rank)
    ensures !Cyclic(adjacency)
  {
    forall p: seq<Id> | |p| >= 2 && Walk(adjacency, p) ensures p[0] != p[|p| - 1] {
      WalkDescends(adjacency, rank, p);
    }
  }

  /** Every child of a finished record finished before it. */
  ghost predicate Finished(adjacency: map<Id, set<Id>>, order: seq<Id>) {
    forall i, c :: 0 <= i < |order| && c in Children(adjacency, order[i]) ==> c in order[..i]
  }

  ghost predicate NoRepeats(s: seq<Id>) {
    forall i, j :: 0 <= i < j < |s| ==> s[i] != s[j]
  }

  /** When every record with children has finished, there is no cycle. */
  lemma FinishedIsAcyclic(adjacency: map<Id, set<Id>>, order: seq<Id>)
    requires NoRepeats(order) && Finished(adjacency, order)
    requires forall n :: Children(adjacency, n) != {} ==> n in order
    ensures !Cyclic(adjacency)
  {
    var rank := map n | n in order :: Position(order, n);
    forall a, b | b in Children(adjacency, a) ensures a in rank && b in rank && rank[b] < rank[a] {
      assert a in order;
      assert b in order[..Position(order, a)];
    }
    RankedIsAcyclic(adjacency, rank);
  }

  lemma FinishOne(adjacency: map<Id, set<Id>>, order: seq<Id>, node: Id)
    requires NoRepeats(order) && Finished(adjacency, order) && node !in order
    requires forall c :: c in Children(adjacency, node) ==> c in order
    ensures NoRepeats(order + [node]) && Finished(adjacency, order + [node])
  {
    var more := order + [node];
    forall i, c | 0 <= i < |more| && c in Children(adjacency, more[i]) ensures c in more[..i] {
      assert more[..i] == order[..i];
      if i == |order| { assert order[..i] == order; }
    }
  }

  ghost function Position(order: seq<Id>, n: Id): (i: int)
    requires n in order
    ensures 0 <= i < |order| && order[i] == n
  {
    var i :| 0 <= i < |order| && order[i] == n;
    i
  }

  class CycleCheck {
    const adjacency: map<Id, set<Id>>
    var visiting: set<Id>
    var visited: set<Id>
    ghost const nodes: set<Id>
    ghost var path: seq<Id>
    ghost var order: seq<Id>

    /** The records being visited form a walk; the finished ones are in finishing order. */
    ghost predicate Valid()
      reads this
    {
      && (forall n :: n in nodes ==> Children(adjacency, n) <= nodes)
      && visiting <= nodes
      && (forall n :: n in visiting <==> n in path)
      && Walk(adjacency, path)
      && (forall n :: n in visited <==> n in order)
      && NoRepeats(order) && Finished(adjacency, order)
      && visiting !! visited
    }

    constructor (adjacency: map<Id, set<Id>>, ghost nodes: set<Id>)
      requires forall n :: n in nodes ==> Children(adjacency, n) <= nodes
      ensures Valid() && visiting == {} && visited == {} && path == []
      ensures this.adjacency == adjacency && this.nodes == nodes
    {
      this.adjacency, this.nodes := adjacency, nodes;
      visiting, visited, path, order := {}, {}, [], [];
    }

    /** Visits one record and everything made from it: either all of it finishes, or a cycle has been found. */
    method Visit(node: Id) returns (ok: bool)
      requires Valid() && node in nodes
      requires path != [] ==> node in Children(adjacency, path[|path| - 1])
      modifies this
      ensures ok ==>
        Valid() && path == old(path) && visiting == old(visiting) && old(visited) <= visited && node in visited
      ensures !ok ==> Cyclic(adjacency)
      decreases nodes - visiting
    {
      if node in visiting {
        ClosesLoop(adjacency, path, node);
        return false;
      }
      if node in visited { return true; }
      visiting := visiting + {node};
      ghost var before := path;
      path := path + [node];
      ghost var mine := path;
      ghost var had := visited;
      var todo := Children(adjacency, node);
      while todo != {}
        invariant Valid() && path == mine && visiting == old(visiting) + {node} && had <= visited
        invariant todo <= Children(adjacency, node)
        invariant forall c :: c in Children(adjacency, node) - todo ==> c in visited
        decreases todo
      {
        var child :| child in todo;
        var fine := Visit(child);
        if !fine { return false; }
        todo := todo - {child};
      }
      FinishOne(adjacency, order, node);
      visiting := visiting - {node};
      path := before;
      visited := visited + {node};
      order := order + [node];
      ok := true;
    }

    /** Visits every record of the closure. */
    method VisitAll(closure: set<Id>) returns (ok: bool)
      requires Valid() && visiting == {} && visited == {} && path == [] && closure == nodes
      requires forall n :: Children(adjacency, n) != {} ==> n in closure
      modifies this
      ensures ok <==> !Cyclic(adjacency)
    {
      var todo := closure;
      while todo != {}
        invariant Valid() && path == [] && visiting == {}
        invariant todo <= closure
        invariant forall n :: n in closure - todo ==> n in visited
        decreases todo
      {
        var node :| node in todo;
        var fine := Visit(node);
        if !fine { return false; }
        todo := todo - {node};
      }
      FinishedIsAcyclic(adjacency, order);
      ok := true;
    }
  }

  /** Coming back to a record on the path closes a cycle. */
  lemma ClosesLoop(adjacency: map<Id, set<Id>>, path: seq<Id>, node: Id)
    requires node in path && Walk(adjacency, path) && node in Children(adjacency, path[|path| - 1])
    ensures Cyclic(adjacency)
  {
    var i :| 0 <= i < |path| && path[i] == node;
    var p := path[i..] + [node];
    assert Loop(adjacency, p);
  }
}
