/** Greedy selection under a budget: the shape shared by notes, search hits and message groups in
    `secminiagent/memory/context_assembler.py`. */
module Budgets {
  function Total<T>(items: seq<T>, size: T -> nat): nat {
    if items == [] then 0 else Total(items[..|items| - 1], size) + size(items[|items| - 1])
  }

  /** Takes the items in order, keeping each eligible one that still fits. */
  function Greedy<T>(items: seq<T>, eligible: T -> bool, size: T -> nat, budget: nat): seq<T> {
    if items == [] then [] else
      var kept := Greedy(items[..|items| - 1], eligible, size, budget);
      var x := items[|items| - 1];
      if eligible(x) && Total(kept, size) + size(x) <= budget then kept + [x] else kept
  }

  /** `a` is `b` with some elements left out. */
  ghost predicate Subsequence<T(!new)>(a: seq<T>, b: seq<T>) {
    || a == []
    || (b != [] && (|| Subsequence(a, b[..|b| - 1])
                    || (a[|a| - 1] == b[|b| - 1] && Subsequence(a[..|a| - 1], b[..|b| - 1]))))
  }

  function Reversed<T>(s: seq<T>): (r: seq<T>)
    ensures |r| == |s| && forall i :: 0 <= i < |s| ==> r[i] == s[|s| - 1 - i]
  {
    seq(|s|, i requires 0 <= i < |s| => s[|s| - 1 - i])
  }

  lemma TotalSnoc<T>(items: seq<T>, x: T, size: T -> nat)
    ensures Total(items + [x], size) == Total(items, size) + size(x)
  {
    assert (items + [x])[..|items|] == items;
  }

  lemma {:induction false} TotalAppend<T>(a: seq<T>, b: seq<T>, size: T -> nat)
    ensures Total(a + b, size) == Total(a, size) + Total(b, size)
    decreases |b|
  {
    if b == [] {
      assert a + b == a;
    } else {
      TotalAppend(a, b[..|b| - 1], size);
      assert a + b == (a + b[..|b| - 1]) + [b[|b| - 1]];
      TotalSnoc(a + b[..|b| - 1], b[|b| - 1], size);
    }
  }

  lemma {:induction false} TotalReversed<T>(s: seq<T>, size: T -> nat)
    ensures Total(Reversed(s), size) == Total(s, size)
    decreases |s|
  {
    if s != [] {
      var front, x := s[..|s| - 1], s[|s| - 1];
      TotalReversed(front, size);
      assert Reversed(s) == [x] + Reversed(front);
      TotalAppend([x], Reversed(front), size);
      assert [x] == [] + [x];
      TotalSnoc([], x, size);
    }
  }

  /** The total does not depend on the order. */
  lemma {:induction false} TotalPermuted<T>(a: seq<T>, b: seq<T>, size: T -> nat)
    requires multiset(a) == multiset(b)
    ensures Total(a, size) == Total(b, size)
    decreases |a|
  {
    if a == [] {
      assert |b| == |multiset(b)| == 0;
    } else {
      var front, x := a[..|a| - 1], a[|a| - 1];
      assert a == front + [x];
      assert multiset(front) == multiset(a) - multiset{x};
      assert x in multiset(b);
      var i :| 0 <= i < |b| && b[i] == x;
      var rest := b[..i] + b[i + 1..];
      TotalWithout(b, i, size);
      TotalPermuted(front, rest, size);
    }
  }

  lemma {:induction false} TotalWithout<T>(b: seq<T>, i: nat, size: T -> nat)
    requires i < |b|
    ensures multiset(b[..i] + b[i + 1..]) == multiset(b) - multiset{b[i]}
    ensures Total(b, size) == Total(b[..i] + b[i + 1..], size) + size(b[i])
  {
    var a, x, c := b[..i], b[i], b[i + 1..];
    assert b == a + [x] + c;
    TotalMiddle(a, x, c, size);
  }

  lemma {:induction false} TotalMiddle<T>(a: seq<T>, x: T, c: seq<T>, size: T -> nat)
    ensures Total(a + [x] + c, size) == Total(a + c, size) + size(x)
    ensures multiset(a + c) == multiset(a + [x] + c) - multiset{x}
  {
    TotalAppend(a, c, size);
    TotalAppend(a + [x], c, size);
    TotalSnoc(a, x, size);
  }

  /** The selection stays within the budget, keeps the order, takes only eligible items, and is maximal: an eligible
      item left out would not fit beside what was kept. */
  lemma {:induction false} GreedyIsMaximal<T(!new)>(items: seq<T>, eligible: T -> bool, size: T -> nat, budget: nat)
    ensures Total(Greedy(items, eligible, size, budget), size) <= budget
    ensures Subsequence(Greedy(items, eligible, size, budget), items)
    ensures forall x :: x in Greedy(items, eligible, size, budget) ==> x in items && eligible(x)
    ensures forall x :: x in items && eligible(x) && x !in Greedy(items, eligible, size, budget) ==>
              Total(Greedy(items, eligible, size, budget), size) + size(x) > budget
    decreases |items|
  {
    if items != [] {
      var front, x := items[..|items| - 1], items[|items| - 1];
      GreedyIsMaximal(front, eligible, size, budget);
      var kept := Greedy(front, eligible, size, budget);
      TotalSnoc(kept, x, size);
      assert items == front + [x];
      assert (kept + [x])[..|kept|] == kept;
    }
  }

  // ----- Subsequences -----

  lemma {:induction false} SubsequenceOfMore<T(!new)>(a: seq<T>, b: seq<T>, x: T)
    requires Subsequence(a, b)
    ensures Subsequence(a, b + [x]) && Subsequence(a + [x], b + [x])
  {
    assert (b + [x])[..|b + [x]| - 1] == b && (a + [x])[..|a + [x]| - 1] == a;
  }

  lemma {:induction false} SubsequenceCons<T(!new)>(a: seq<T>, b: seq<T>, x: T)
    requires Subsequence(a, b)
    ensures Subsequence(a, [x] + b) && Subsequence([x] + a, [x] + b)
    decreases |b|
  {
    if a == [] {
      SubsequenceHead(b, x);
      assert [x] + a == [x];
    } else {
      var front, y := b[..|b| - 1], b[|b| - 1];
      assert [x] + b == ([x] + front) + [y];
      if Subsequence(a, front) {
        SubsequenceCons(a, front, x);
        SubsequenceOfMore(a, [x] + front, y);
        SubsequenceOfMore([x] + a, [x] + front, y);
      } else {
        var less := a[..|a| - 1];
        SubsequenceCons(less, front, x);
        SubsequenceOfMore(less, [x] + front, y);
        SubsequenceOfMore([x] + less, [x] + front, y);
        assert less + [y] == a && ([x] + less) + [y] == [x] + a;
      }
    }
  }

  lemma {:induction false} SubsequenceHead<T(!new)>(b: seq<T>, x: T)
    ensures Subsequence([x], [x] + b)
    decreases |b|
  {
    if b == [] {
      assert [x] + b == [x] && [x][..0] == [];
    } else {
      var n := |b| - 1;
      SubsequenceHead(b[..n], x);
      SubsequenceOfMore([x], [x] + b[..n], b[n]);
      assert [x] + b == ([x] + b[..n]) + [b[n]];
    }
  }

  /** Leaving elements out and turning round commute. */
  lemma {:induction false} SubsequenceReversed<T(!new)>(a: seq<T>, b: seq<T>)
    requires Subsequence(a, b)
    ensures Subsequence(Reversed(a), Reversed(b))
    decreases |b|
  {
    if a != [] {
      var front, y := b[..|b| - 1], b[|b| - 1];
      assert Reversed(b) == [y] + Reversed(front);
      if Subsequence(a, front) {
        SubsequenceReversed(a, front);
        SubsequenceCons(Reversed(a), Reversed(front), y);
      } else {
        SubsequenceReversed(a[..|a| - 1], front);
        SubsequenceCons(Reversed(a[..|a| - 1]), Reversed(front), y);
        assert Reversed(a) == [y] + Reversed(a[..|a| - 1]);
      }
    }
  }

  lemma {:induction false} SubsequenceMembers<T(!new)>(a: seq<T>, b: seq<T>, x: T)
    requires Subsequence(a, b) && x in a
    ensures x in b
    decreases |b|
  {
    var front := b[..|b| - 1];
    if Subsequence(a, front) {
      SubsequenceMembers(a, front, x);
    } else if x != a[|a| - 1] {
      SubsequenceMembers(a[..|a| - 1], front, x);
    }
  }
}
