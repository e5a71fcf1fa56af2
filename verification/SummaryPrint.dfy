/** print_summary (src/mini_strace.c): the in-place selection sort and the grand totals. */
module SummaryPrint {
  import opened SummaryRows

  // ----- Totals of a list of rows -----

  datatype Totals = Totals(calls: int, errors: int, time: int) {
    function Plus(r: Row): Totals { Totals(calls + r.calls, errors + r.errors, time + r.time) }
  }

  function Sum(rows: seq<Row>): Totals {
    if rows == [] then Totals(0, 0, 0) else Sum(rows[..|rows| - 1]).Plus(rows[|rows| - 1])
  }

  /** Taking any one row out of the list takes its numbers out of the totals. */
  lemma {:induction false} SumWithout(rows: seq<Row>, i: nat)
    requires i < |rows|
    ensures Sum(rows) == Sum(rows[..i] + rows[i + 1..]).Plus(rows[i])
    decreases |rows|
  {
    var before, last := rows[..|rows| - 1], rows[|rows| - 1];
    if i == |rows| - 1 {
      assert rows[..i] + rows[i + 1..] == before;
    } else {
      var rest := rows[..i] + rows[i + 1..];
      assert rest[..|rest| - 1] == before[..i] + before[i + 1..];
      SumWithout(before, i);
    }
  }

  /** The totals do not depend on the order of the rows. */
  lemma {:induction false} SumOfPermutation(a: seq<Row>, b: seq<Row>)
    requires multiset(a) == multiset(b)
    ensures Sum(a) == Sum(b)
    decreases |a|
  {
    assert |a| == |multiset(a)| == |multiset(b)| == |b|;
    if a != [] {
      var before, last := a[..|a| - 1], a[|a| - 1];
      assert a == before + [last];
      assert last in multiset(b);
      var i :| 0 <= i < |b| && b[i] == last;
      var rest := b[..i] + b[i + 1..];
      assert b == b[..i] + [b[i]] + b[i + 1..];
      assert multiset(rest) == multiset(b) - multiset{last};
      assert multiset(before) == multiset(a) - multiset{last};
      SumOfPermutation(before, rest);
      SumWithout(b, i);
    }
  }

  // What the three totals are, field by field.

  function CallsOf(rows: seq<Row>): int {
    if rows == [] then 0 else rows[0].calls + CallsOf(rows[1..])
  }

  function ErrorsOf(rows: seq<Row>): int {
    if rows == [] then 0 else rows[0].errors + ErrorsOf(rows[1..])
  }

  function TimeOf(rows: seq<Row>): int {
    if rows == [] then 0 else rows[0].time + TimeOf(rows[1..])
  }

  lemma {:induction false} FieldsAppend(rows: seq<Row>, r: Row)
    ensures CallsOf(rows + [r]) == CallsOf(rows) + r.calls
    ensures ErrorsOf(rows + [r]) == ErrorsOf(rows) + r.errors
    ensures TimeOf(rows + [r]) == TimeOf(rows) + r.time
  {
    if rows == [] {
      assert rows + [r] == [r] && [r][1..] == [];
    } else {
      assert (rows + [r])[1..] == rows[1..] + [r];
      FieldsAppend(rows[1..], r);
    }
  }

  /** The grand totals are the sums of the calls, of the errors and of the times of the rows. */
  lemma {:induction false} SumFieldByField(rows: seq<Row>)
    ensures Sum(rows) == Totals(CallsOf(rows), ErrorsOf(rows), TimeOf(rows))
  {
    if rows != [] {
      var before, last := rows[..|rows| - 1], rows[|rows| - 1];
      assert rows == before + [last];
      SumFieldByField(before);
      FieldsAppend(before, last);
    }
  }

  // ----- The sort -----

  ghost predicate SlowestFirst(rows: seq<Row>) {
    forall i, j :: 0 <= i < j < |rows| ==> rows[i].time >= rows[j].time
  }

  /** rows[..i] is final: sorted, and at least as slow as everything after it. */
  ghost predicate SortedTo(rows: seq<Row>, i: nat) {
    && i <= |rows|
    && forall j, k :: 0 <= j < i && j < k < |rows| ==> rows[j].time >= rows[k].time
  }

  method FindSlowest(a: array<Row>, i: nat, n: nat) returns (slowest: nat)
    requires i < n <= a.Length
    ensures i <= slowest < n
    ensures forall k :: i <= k < n ==> a[slowest].time >= a[k].time
  {
    slowest := i;
    for j := i + 1 to n
      invariant i <= slowest < n
      invariant forall k :: i <= k < j ==> a[slowest].time >= a[k].time
    {
      if a[j].time > a[slowest].time {
        slowest := j;
      }
    }
  }

  method Swap(a: array<Row>, i: nat, j: nat, n: nat)
    requires i < n && j < n && n <= a.Length
    modifies a
    ensures a[..n] == old(a[..n])[i := old(a[j])][j := old(a[i])]
    ensures multiset(a[..n]) == old(multiset(a[..n]))
    ensures a[n..] == old(a[n..])
  {
    ghost var was := a[..n];
    var tmp := a[i];
    a[i] := a[j];
    a[j] := tmp;
    assert a[..n] == was[i := was[j]][j := was[i]];
  }

  lemma {:induction false} SortedStep(rows: seq<Row>, i: nat, m: nat)
    requires SortedTo(rows, i) && i <= m < |rows|
    requires forall k :: i <= k < |rows| ==> rows[m].time >= rows[k].time
    ensures SortedTo(rows[i := rows[m]][m := rows[i]], i + 1)
  {
  }

  /** Selection sort of the first n rows, slowest first. */
  method SortRows(a: array<Row>, n: nat)
    requires n <= a.Length
    modifies a
    ensures SlowestFirst(a[..n])
    ensures multiset(a[..n]) == old(multiset(a[..n]))
    ensures a[n..] == old(a[n..])
  {
    var i := 0;
    while i < n - 1
      invariant 0 <= i && (n == 0 ==> i == 0) && (n > 0 ==> i < n)
      invariant SortedTo(a[..n], i)
      invariant multiset(a[..n]) == old(multiset(a[..n]))
      invariant a[n..] == old(a[n..])
    {
      var m := FindSlowest(a, i, n);
      assert forall k :: i <= k < n ==> a[..n][m].time >= a[..n][k].time;
      SortedStep(a[..n], i, m);
      if m != i {
        Swap(a, i, m, n);
      } else {
        assert a[..n][i := a[m]][m := a[i]] == a[..n];
      }
      i := i + 1;
    }
  }

  /** The loop over the grand totals. */
  method AddUp(a: array<Row>, n: nat) returns (t: Totals)
    requires n <= a.Length
    ensures t == Sum(a[..n])
  {
    t := Totals(0, 0, 0);
    for i := 0 to n
      invariant t == Sum(a[..i])
    {
      t := Totals(t.calls + a[i].calls, t.errors + a[i].errors, t.time + a[i].time);
      assert a[..i + 1][..i] == a[..i];
    }
  }

  /** What print_summary shows: a permutation of the table, slowest first, over totals that are
      those of the unsorted table. */
  method PrintSummary(a: array<Row>, n: nat) returns (rows: seq<Row>, grand: Totals)
    requires n <= a.Length
    modifies a
    ensures rows == a[..n]
    ensures SlowestFirst(rows)
    ensures multiset(rows) == old(multiset(a[..n]))
    ensures grand == Sum(rows) == Sum(old(a[..n]))
    ensures grand == Totals(CallsOf(rows), ErrorsOf(rows), TimeOf(rows))
  {
    ghost var was := a[..n];
    SortRows(a, n);
    grand := AddUp(a, n);
    rows := a[..n];
    SumOfPermutation(rows, was);
    SumFieldByField(rows);
  }

  // ----- The grand totals and the completed calls -----

  lemma {:induction false} SumUpdated(rows: seq<Row>, i: nat, r: Row)
    requires i < |rows|
    ensures Sum(rows[i := r]) ==
            Sum(rows).Plus(Row("", r.calls - rows[i].calls, r.errors - rows[i].errors, r.time - rows[i].time))
  {
    SumWithout(rows, i);
    SumWithout(rows[i := r], i);
    assert rows[i := r][..i] + rows[i := r][i + 1..] == rows[..i] + rows[i + 1..];
  }

  /** A call that finds a row, or room for one, adds itself to the totals. */
  lemma {:induction false} SumAddCall(rows: seq<Row>, d: Done)
    requires FindRow(rows, d.name) < |rows| || |rows| < MAX_SUMMARY_ENTRIES
    ensures Sum(AddCall(rows, d)) == Sum(rows).Plus(Bump(Row("", 0, 0, 0), d))
  {
    var i := FindRow(rows, d.name);
    if i < |rows| {
      SumUpdated(rows, i, Bump(rows[i], d));
    } else {
      var r := Bump(Row(d.name, 0, 0, 0), d);
      assert (rows + [r])[..|rows|] == rows;
    }
  }

  lemma {:induction false} RowOfSeen(ds: seq<Done>, name: string)
    requires |Distinct(ds)| <= MAX_SUMMARY_ENTRIES
    ensures FindRow(Tally(ds), name) < |Tally(ds)| || name !in Distinct(ds)
    ensures |Tally(ds)| == |Distinct(ds)|
  {
    TallyIsGroupBy(ds);
    DistinctNames(ds);
    if name in Distinct(ds) {
      var k :| 0 <= k < |Distinct(ds)| && Distinct(ds)[k] == name;
      FindRowUnique(GroupBy(ds), name, k);
    }
  }

  /** How many of the calls failed, and how long they took together. */
  function Failed(ds: seq<Done>): nat {
    if ds == [] then 0 else (if ds[0].ret < 0 then 1 else 0) + Failed(ds[1..])
  }

  function TimeTaken(ds: seq<Done>): int {
    if ds == [] then 0 else ds[0].took + TimeTaken(ds[1..])
  }

  lemma {:induction false} CallsAppend(ds: seq<Done>, d: Done)
    ensures Failed(ds + [d]) == Failed(ds) + if d.ret < 0 then 1 else 0
    ensures TimeTaken(ds + [d]) == TimeTaken(ds) + d.took
  {
    if ds == [] {
      assert ds + [d] == [d] && [d][1..] == [];
    } else {
      assert (ds + [d])[1..] == ds[1..] + [d];
      CallsAppend(ds[1..], d);
    }
  }

  /** With at most 256 distinct names nothing is dropped: the printed grand totals are the
      number of completed calls, of failed ones, and the time they took. */
  lemma {:induction false} GrandTotalsAreComplete(ds: seq<Done>)
    requires |Distinct(ds)| <= MAX_SUMMARY_ENTRIES
    ensures Sum(Tally(ds)) == Totals(|ds|, Failed(ds), TimeTaken(ds))
  {
    if ds != [] {
      var before, d := ds[..|ds| - 1], ds[|ds| - 1];
      assert ds == before + [d];
      GrandTotalsAreComplete(before);
      RowOfSeen(before, d.name);
      SumAddCall(Tally(before), d);
      CallsAppend(before, d);
    }
  }
}
