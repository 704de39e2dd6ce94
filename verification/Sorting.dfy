/** Stable sorting by a total preorder, standing for the library's `sorted` and SQL's `ORDER BY`. */
module Sorting {
  ghost predicate TotalPreorder<T(!new)>(leq: (T, T) -> bool) {
    && (forall a, b :: leq(a, b) || leq(b, a))
    && (forall a, b, c :: leq(a, b) && leq(b, c) ==> leq(a, c))
  }

  ghost predicate SortedBy<T>(s: seq<T>, leq: (T, T) -> bool) {
    forall i, j :: 0 <= i < j < |s| ==> leq(s[i], s[j])
  }

  /** Inserts `x` after every element that may come before it. */
  function InsertBy<T>(x: T, s: seq<T>, leq: (T, T) -> bool): seq<T> {
    if s == [] || !leq(s[0], x) then [x] + s else [s[0]] + InsertBy(x, s[1..], leq)
  }

  function SortBy<T>(s: seq<T>, leq: (T, T) -> bool): seq<T> {
    if s == [] then [] else InsertBy(s[|s| - 1], SortBy(s[..|s| - 1], leq), leq)
  }

  lemma {:induction false} InsertByElements<T>(x: T, s: seq<T>, leq: (T, T) -> bool)
    ensures multiset(InsertBy(x, s, leq)) == multiset(s) + multiset{x}
    decreases |s|
  {
    if s != [] && leq(s[0], x) {
      InsertByElements(x, s[1..], leq);
      assert s == [s[0]] + s[1..];
    }
  }

  lemma {:induction false} SortByElements<T>(s: seq<T>, leq: (T, T) -> bool)
    ensures multiset(SortBy(s, leq)) == multiset(s)
    decreases |s|
  {
    if s != [] {
      SortByElements(s[..|s| - 1], leq);
      InsertByElements(s[|s| - 1], SortBy(s[..|s| - 1], leq), leq);
      assert s == s[..|s| - 1] + [s[|s| - 1]];
    }
  }

  lemma SameElements<T>(a: seq<T>, b: seq<T>)
    requires multiset(a) == multiset(b)
    ensures |a| == |b| && forall x :: x in a <==> x in b
  {
    forall x ensures x in a <==> x in b {
      assert x in a <==> x in multiset(a);
      assert x in b <==> x in multiset(b);
    }
    assert |a| == |multiset(a)| && |b| == |multiset(b)|;
  }

  lemma {:induction false} InsertBySorted<T(!new)>(x: T, s: seq<T>, leq: (T, T) -> bool)
    requires TotalPreorder(leq) && SortedBy(s, leq)
    ensures SortedBy(InsertBy(x, s, leq), leq)
    decreases |s|
  {
    var r := InsertBy(x, s, leq);
    if s == [] {
    } else if !leq(s[0], x) {
      forall i | 0 <= i < |s| ensures leq(x, s[i]) {
        assert leq(x, s[0]);
      }
    } else {
      InsertBySorted(x, s[1..], leq);
      var tail := InsertBy(x, s[1..], leq);
      InsertByElements(x, s[1..], leq);
      forall y | y in tail ensures leq(s[0], y) {
        assert y in multiset(tail);
        assert y == x || y in s[1..];
      }
      assert r == [s[0]] + tail;
    }
  }

  lemma {:induction false} SortBySorted<T(!new)>(s: seq<T>, leq: (T, T) -> bool)
    requires TotalPreorder(leq)
    ensures SortedBy(SortBy(s, leq), leq)
    decreases |s|
  {
    if s != [] {
      SortBySorted(s[..|s| - 1], leq);
      InsertBySorted(s[|s| - 1], SortBy(s[..|s| - 1], leq), leq);
    }
  }

  /** An element that may come last is inserted last. */
  lemma {:induction false} InsertByLast<T>(x: T, s: seq<T>, leq: (T, T) -> bool)
    requires forall i :: 0 <= i < |s| ==> leq(s[i], x)
    ensures InsertBy(x, s, leq) == s + [x]
    decreases |s|
  {
    if s != [] {
      InsertByLast(x, s[1..], leq);
      assert s == [s[0]] + s[1..];
    }
  }

  /** Appending an element that may come after everything appends it to the sorted order. */
  lemma SortBySnoc<T>(s: seq<T>, x: T, leq: (T, T) -> bool)
    requires forall y :: y in s ==> leq(y, x)
    ensures SortBy(s + [x], leq) == SortBy(s, leq) + [x]
  {
    assert (s + [x])[..|s|] == s;
    SortByElements(s, leq);
    var t := SortBy(s, leq);
    forall y | y in t ensures leq(y, x) {
      assert y in multiset(t);
      assert y in s;
    }
    InsertByLast(x, SortBy(s, leq), leq);
  }

  /** Sorting leaves a sorted sequence as it is. */
  lemma {:induction false} SortByIdentity<T>(s: seq<T>, leq: (T, T) -> bool)
    requires SortedBy(s, leq)
    ensures SortBy(s, leq) == s
    decreases |s|
  {
    if s != [] {
      var front := s[..|s| - 1];
      SortByIdentity(front, leq);
      InsertByLast(s[|s| - 1], front, leq);
      assert s == front + [s[|s| - 1]];
    }
  }

  // ----- Elements once each -----

  lemma {:induction false} OnceEach<T>(s: seq<T>, x: T)
    requires forall i, j :: 0 <= i < j < |s| ==> s[i] != s[j]
    ensures multiset(s)[x] <= 1
    decreases |s|
  {
    if s != [] {
      var n := |s| - 1;
      OnceEach(s[..n], x);
      assert s == s[..n] + [s[n]];
      if x == s[n] { assert x !in s[..n]; }
    }
  }

  lemma TwiceApart<T>(s: seq<T>, i: nat, j: nat)
    requires i < j < |s| && s[i] == s[j]
    ensures multiset(s)[s[i]] >= 2
  {
    assert s == s[..j] + s[j..];
    assert s[i] in s[..j] && s[j] in s[j..];
    assert s[i] in multiset(s[..j]) && s[i] in multiset(s[j..]);
  }

  /** Sorting keeps the members, once each. */
  lemma SortedOnce<T>(s: seq<T>, leq: (T, T) -> bool)
    requires forall i, j :: 0 <= i < j < |s| ==> s[i] != s[j]
    ensures var t := SortBy(s, leq);
            |t| == |s| && (forall x :: x in t <==> x in s) && forall i, j :: 0 <= i < j < |t| ==> t[i] != t[j]
  {
    var t := SortBy(s, leq);
    SortByElements(s, leq);
    SameElements(t, s);
    forall i, j | 0 <= i < j < |t| ensures t[i] != t[j] {
      if t[i] == t[j] {
        TwiceApart(t, i, j);
        OnceEach(s, t[i]);
      }
    }
  }
}
