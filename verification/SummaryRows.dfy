/** The rows of the -c table (src/mini_strace.c) as values. */
module SummaryRows {

  const MAX_SUMMARY_ENTRIES := 256

  /** One row; time is in integer nanoseconds. */
  datatype Row = Row(name: string, calls: int, errors: int, time: int)

  /** A completed call that the filter let through. */
  datatype Done = Done(name: string, ret: int, took: int)

  function Bump(r: Row, d: Done): Row {
    r.(calls := r.calls + 1, errors := r.errors + if d.ret < 0 then 1 else 0, time := r.time + d.took)
  }

  /** Index of the row of that name, or the number of rows: the scan of summary_lookup_or_add. */
  function FindRow(rows: seq<Row>, name: string): (i: nat)
    ensures i <= |rows|
  {
    if rows == [] || rows[0].name == name then 0 else 1 + FindRow(rows[1..], name)
  }

  /** summary_lookup_or_add followed by the three updates; dropped when the table is full. */
  function AddCall(rows: seq<Row>, d: Done): seq<Row> {
    var i := FindRow(rows, d.name);
    if i < |rows| then rows[i := Bump(rows[i], d)]
    else if |rows| < MAX_SUMMARY_ENTRIES then rows + [Bump(Row(d.name, 0, 0, 0), d)]
    else rows
  }

  lemma {:induction false} FindRowUnique(rows: seq<Row>, name: string, i: nat)
    requires i <= |rows|
    requires forall j :: 0 <= j < i ==> rows[j].name != name
    requires i < |rows| ==> rows[i].name == name
    ensures FindRow(rows, name) == i
  {
    if i != 0 {
      FindRowUnique(rows[1..], name, i - 1);
    }
  }

  // ----- The table over a whole run -----

  /** The table after a sequence of completed calls. */
  function Tally(ds: seq<Done>): seq<Row> {
    if ds == [] then [] else AddCall(Tally(ds[..|ds| - 1]), ds[|ds| - 1])
  }

  lemma {:induction false} TallyOne(ds: seq<Done>, d: Done)
    ensures Tally(ds + [d]) == AddCall(Tally(ds), d)
  {
    assert (ds + [d])[..|ds|] == ds;
  }

  // An independent account: group the calls by name.

  /** The distinct names in order of first appearance. */
  function Distinct(ds: seq<Done>): seq<string> {
    if ds == [] then []
    else
      var before, d := Distinct(ds[..|ds| - 1]), ds[|ds| - 1];
      if d.name in before then before else before + [d.name]
  }

  function Calls(ds: seq<Done>, name: string): int {
    if ds == [] then 0
    else Calls(ds[..|ds| - 1], name) + if ds[|ds| - 1].name == name then 1 else 0
  }

  function Errors(ds: seq<Done>, name: string): int {
    if ds == [] then 0
    else Errors(ds[..|ds| - 1], name) + if ds[|ds| - 1].name == name && ds[|ds| - 1].ret < 0 then 1 else 0
  }

  function Time(ds: seq<Done>, name: string): int {
    if ds == [] then 0
    else Time(ds[..|ds| - 1], name) + if ds[|ds| - 1].name == name then ds[|ds| - 1].took else 0
  }

  function FirstNames(names: seq<string>): seq<string> {
    if |names| <= MAX_SUMMARY_ENTRIES then names else names[..MAX_SUMMARY_ENTRIES]
  }

  function GroupRow(ds: seq<Done>, name: string): Row {
    Row(name, Calls(ds, name), Errors(ds, name), Time(ds, name))
  }

  function GroupBy(ds: seq<Done>): (rows: seq<Row>)
    ensures |rows| == |FirstNames(Distinct(ds))|
    ensures forall i :: 0 <= i < |rows| ==> rows[i] == GroupRow(ds, FirstNames(Distinct(ds))[i])
  {
    var names := FirstNames(Distinct(ds));
    seq(|names|, i requires 0 <= i < |names| => GroupRow(ds, names[i]))
  }

  /** A name that never appeared has nothing counted. */
  lemma {:induction false} UnseenName(ds: seq<Done>, name: string)
    requires name !in Distinct(ds)
    ensures GroupRow(ds, name) == Row(name, 0, 0, 0)
  {
    if ds != [] {
      UnseenName(ds[..|ds| - 1], name);
    }
  }

  lemma {:induction false} DistinctNames(ds: seq<Done>)
    ensures forall i, j :: 0 <= i < j < |Distinct(ds)| ==> Distinct(ds)[i] != Distinct(ds)[j]
  {
    if ds != [] {
      DistinctNames(ds[..|ds| - 1]);
    }
  }

  lemma {:induction false} GroupRowStep(ds: seq<Done>, d: Done, name: string)
    ensures GroupRow(ds + [d], name) ==
            if d.name == name then Bump(GroupRow(ds, name), d) else GroupRow(ds, name)
  {
    assert (ds + [d])[..|ds|] == ds;
  }

  lemma {:induction false} DistinctStep(ds: seq<Done>, d: Done)
    ensures Distinct(ds + [d]) == if d.name in Distinct(ds) then Distinct(ds) else Distinct(ds) + [d.name]
  {
    assert (ds + [d])[..|ds|] == ds;
  }

  /** A further call of a name seen before. */
  lemma {:induction false} GroupBySeen(ds: seq<Done>, d: Done, k: nat)
    requires k < |Distinct(ds)| && Distinct(ds)[k] == d.name
    ensures AddCall(GroupBy(ds), d) == GroupBy(ds + [d])
  {
    var rows, rows' := GroupBy(ds), GroupBy(ds + [d]);
    DistinctStep(ds, d);
    DistinctNames(ds);
    assert |rows'| == |rows|;
    FindRowUnique(rows, d.name, if k < |rows| then k else |rows|);
    forall i | 0 <= i < |rows|
      ensures rows'[i] == if i == k then Bump(rows[i], d) else rows[i]
    {
      GroupRowStep(ds, d, Distinct(ds)[i]);
    }
  }

  /** The first call of a name. */
  lemma {:induction false} GroupByNew(ds: seq<Done>, d: Done)
    requires d.name !in Distinct(ds)
    ensures AddCall(GroupBy(ds), d) == GroupBy(ds + [d])
  {
    var rows, rows' := GroupBy(ds), GroupBy(ds + [d]);
    DistinctStep(ds, d);
    FindRowUnique(rows, d.name, |rows|);
    forall i | 0 <= i < |rows|
      ensures rows'[i] == rows[i]
    {
      GroupRowStep(ds, d, Distinct(ds)[i]);
    }
    GroupRowStep(ds, d, d.name);
    UnseenName(ds, d.name);
  }

  /** The incremental table is the grouping by name of the first 256 distinct names, each with
      the totals of all its calls. */
  lemma {:induction false} TallyIsGroupBy(ds: seq<Done>)
    ensures Tally(ds) == GroupBy(ds)
  {
    if ds != [] {
      var before, d := ds[..|ds| - 1], ds[|ds| - 1];
      assert ds == before + [d];
      TallyIsGroupBy(before);
      if d.name in Distinct(before) {
        var k :| 0 <= k < |Distinct(before)| && Distinct(before)[k] == d.name;
        GroupBySeen(before, d, k);
      } else {
        GroupByNew(before, d);
      }
    }
  }

  /** One row a name, up to 256. */
  lemma {:induction false} TableSize(ds: seq<Done>)
    ensures |Tally(ds)| == if |Distinct(ds)| < 256 then |Distinct(ds)| else 256
  {
    TallyIsGroupBy(ds);
  }
}
