/** Thread sequence numbers for legacy rows (the probing loop of `_session_inference` in
    `secminiagent/memory/migration.py`). */
module LegacyNumbers {
  import opened Basics
  import opened Messages
  import opened Sorting

  /** A legacy row of a session: a transcript event, or any other record. `created` orders creation times. */
  datatype LegacyRow =
    | EventRow(id: Id, number: Option<nat>, created: nat, role: Role, calls: seq<Id>, result: Option<Id>,
      classification: Classification, size: nat)
    | OtherRow(id: Id, number: Option<nat>, created: nat)

  const NO_NUMBER: nat := 0x8000_0000

  function NumberKey(row: LegacyRow): nat {
    match row.number case Some(n) => n case None => NO_NUMBER
  }

  predicate CreatedOrder(a: LegacyRow, b: LegacyRow) {
    a.created < b.created || (a.created == b.created && a.id <= b.id)
  }

  /** The sort key of the numbering: number, creation time, id. */
  predicate RowOrder(a: LegacyRow, b: LegacyRow) {
    NumberKey(a) < NumberKey(b) || (NumberKey(a) == NumberKey(b) && CreatedOrder(a, b))
  }

  function Max(a: nat, b: nat): nat {
    if a >= b then a else b
  }

  /** The number a row gets after a row that got `last`: its own if that is higher, else the next one. */
  function NextNumber(last: nat, number: Option<nat>): nat {
    match number
    case Some(p) => Max(1, Max(p, last + 1))
    case None => last + 1
  }

  function LastNumber(rows: seq<LegacyRow>): nat {
    if rows == [] then 0 else NextNumber(LastNumber(rows[..|rows| - 1]), rows[|rows| - 1].number)
  }

  /** The number of the row at `i`: that of the rows up to it. */
  function NumberAt(rows: seq<LegacyRow>, i: nat): nat
    requires i < |rows|
  {
    LastNumber(rows[..i + 1])
  }

  lemma {:induction false} NumberStep(rows: seq<LegacyRow>, i: nat)
    requires i < |rows|
    ensures NumberAt(rows, i) == NextNumber(LastNumber(rows[..i]), rows[i].number)
    ensures NumberAt(rows, i) > LastNumber(rows[..i])
  {
    assert rows[..i + 1][..i] == rows[..i];
  }

  /** A row gets the least number that is positive, above the number of the row before it, and not below its own. */
  lemma {:induction false} LeastNumberAbove(rows: seq<LegacyRow>, i: nat, n: nat)
    requires i < |rows|
    ensures NumberAt(rows, i) >= 1 && (i > 0 ==> NumberAt(rows, i) > NumberAt(rows, i - 1))
    ensures rows[i].number.Some? ==> NumberAt(rows, i) >= rows[i].number.value
    ensures n >= 1 && (i > 0 ==> n > NumberAt(rows, i - 1)) && (rows[i].number.Some? ==> n >= rows[i].number.value) ==>
      NumberAt(rows, i) <= n
  {
    NumberStep(rows, i);
    if i == 0 { assert rows[..0] == []; }
  }

  /** Numbers climb strictly in sorted order. */
  lemma {:induction false} NumbersClimb(rows: seq<LegacyRow>, i: nat, j: nat)
    requires i < j < |rows|
    ensures NumberAt(rows, i) < NumberAt(rows, j)
    decreases j
  {
    NumberStep(rows, j);
    if i < j - 1 { NumbersClimb(rows, i, j - 1); }
  }

  /** Distinct positive legacy numbers are kept. */
  lemma {:induction false} GoodNumbersKept(rows: seq<LegacyRow>, i: nat)
    requires i < |rows| && SortedBy(rows, RowOrder)
    requires forall j :: 0 <= j <= i ==> rows[j].number.Some? && rows[j].number.value >= 1
    requires forall j, m :: 0 <= j < m <= i ==> rows[j].number != rows[m].number
    ensures NumberAt(rows, i) == rows[i].number.value
    decreases i
  {
    NumberStep(rows, i);
    if i > 0 {
      GoodNumbersKept(rows, i - 1);
      assert RowOrder(rows[i - 1], rows[i]);
    }
  }

  // ----- The probing loop -----

  /** The highest legacy number so far. */
  function Base(rows: seq<LegacyRow>): nat {
    if rows == [] then 1 else
      match rows[|rows| - 1].number
      case Some(p) => Max(1, p)
      case None => Base(rows[..|rows| - 1])
  }

  ghost predicate Ascending(rows: seq<LegacyRow>) {
    forall i, j :: 0 <= i < j < |rows| && rows[i].number.Some? && rows[j].number.Some? ==>
        rows[i].number.value <= rows[j].number.value
  }

  lemma {:induction false} BaseBelow(rows: seq<LegacyRow>, k: nat)
    requires k < |rows| && Ascending(rows) && rows[k].number.Some?
    ensures Base(rows[..k]) <= Max(1, rows[k].number.value)
  {
    BaseBelowNumber(rows, k, k);
  }

  lemma {:induction false} BaseBelowNumber(rows: seq<LegacyRow>, n: nat, k: nat)
    requires n <= k < |rows| && Ascending(rows) && rows[k].number.Some?
    ensures Base(rows[..n]) <= Max(1, rows[k].number.value)
    decreases n
  {
    if n > 0 {
      assert rows[..n][..n - 1] == rows[..n - 1];
      BaseBelowNumber(rows, n - 1, k);
    }
  }

  /** The numbers from the highest legacy number to the last one given are all taken, and none is beyond. */
  ghost predicate Filled(rows: seq<LegacyRow>, k: nat, used: set<nat>)
    requires k <= |rows|
  {
    && (forall v :: Base(rows[..k]) <= v <= LastNumber(rows[..k]) ==> v in used)
    && (forall v :: v in used ==> v <= LastNumber(rows[..k]))
  }

  lemma {:induction false} FilledStep(rows: seq<LegacyRow>, k: nat, used: set<nat>)
    requires k < |rows| && Ascending(rows) && Filled(rows, k, used)
    ensures Filled(rows, k + 1, used + {NumberAt(rows, k)})
  {
    assert rows[..k + 1][..k] == rows[..k];
    NumberStep(rows, k);
    if rows[k].number.Some? { BaseBelow(rows, k); }
  }

  lemma SortedAscends(rows: seq<LegacyRow>)
    requires SortedBy(rows, RowOrder)
    ensures Ascending(rows)
  {
    forall i, j | 0 <= i < j < |rows| && rows[i].number.Some? && rows[j].number.Some?
        ensures rows[i].number.value <= rows[j].number.value {
      assert RowOrder(rows[i], rows[j]);
    }
  }

  /** Tries numbers upward until one is free. */
  method Probe(rows: seq<LegacyRow>, k: nat, used: set<nat>, next: nat) returns (n: nat)
    requires k < |rows| && Ascending(rows) && Filled(rows, k, used) && next == LastNumber(rows[..k]) + 1
    ensures n == NumberAt(rows, k)
  {
    NumberStep(rows, k);
    n := match rows[k].number { case Some(p) => p case None => next };
    n := Max(1, n);
    if rows[k].number.Some? { BaseBelow(rows, k); }
    while n in used
      invariant n <= NumberAt(rows, k) && (rows[k].number.Some? ==> n >= Max(1, rows[k].number.value))
        && (rows[k].number.None? ==> n == next)
      decreases NumberAt(rows, k) - n
    {
      n := n + 1;
    }
  }

  ghost function NumberMap(rows: seq<LegacyRow>, k: nat): map<Id, nat>
    requires k <= |rows|
  {
    if k == 0 then map[] else NumberMap(rows, k - 1)[rows[k - 1].id := NumberAt(rows, k - 1)]
  }

  /** Numbers the rows of a session. */
  method AssignNumbers(rows: seq<LegacyRow>) returns (numbers: map<Id, nat>, next: nat)
    ensures var sorted := SortBy(rows, RowOrder);
      numbers == NumberMap(sorted, |sorted|) && next == LastNumber(sorted) + 1
  {
    var sorted := SortBy(rows, RowOrder);
    SortBySorted(rows, RowOrder);
    SortedAscends(sorted);
    var used: set<nat> := {};
    numbers, next := map[], 1;
    for k := 0 to |sorted|
      invariant Filled(sorted, k, used) && next == LastNumber(sorted[..k]) + 1 && numbers == NumberMap(sorted, k)
    {
      var n := Probe(sorted, k, used, next);
      FilledStep(sorted, k, used);
      NumberStep(sorted, k);
      used := used + {n};
      next := Max(next, n + 1);
      numbers := numbers[sorted[k].id := n];
    }
    assert sorted[..|sorted|] == sorted;
  }
}
