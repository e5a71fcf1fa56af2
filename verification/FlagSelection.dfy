/** Which entries of a table are printed, and how, without reference to the walk. */
module FlagSelection {
  import opened FlagMeaning
  import opened FlagWalk

  predicate Contains(v: bv64, m: bv64) { v & m == m }

  /** The entries of a table that lie within a value, in order. */
  function Within(table: FlagTable, skipZero: bool, v: bv64): FlagTable {
    if table == [] then []
    else if (table[0].value != 0 || !skipZero) && Contains(v, table[0].value)
    then [table[0]] + Within(table[1..], skipZero, v)
    else Within(table[1..], skipZero, v)
  }

  lemma {:induction false} SameAnd(v: bv64, e: bv64, m: bv64)
    requires And(e, m) == 0
    ensures And(Without(v, e), m) == And(v, m)
  {
  }

  lemma {:induction false} SameWithin(v: bv64, e: bv64, m: bv64)
    requires And(e, m) == 0
    ensures Contains(Without(v, e), m) <==> Contains(v, m)
  {
    SameAnd(v, e, m);
    assert Contains(Without(v, e), m) <==> And(Without(v, e), m) == m;
  }

  lemma {:induction false} HitsIsContains(e: FlagEntry, v: bv64, skipZero: bool)
    ensures Hits(e, v, skipZero) <==> (e.value != 0 || !skipZero) && Contains(v, e.value)
  {
  }

  lemma {:induction false} WithinRest(table: FlagTable, skipZero: bool, v: bv64, e: bv64)
    requires forall i :: 0 <= i < |table| ==> And(e, table[i].value) == 0
    ensures Within(table, skipZero, Without(v, e)) == Within(table, skipZero, v)
    decreases |table|
  {
    if table != [] {
      SameWithin(v, e, table[0].value);
      WithinRest(table[1..], skipZero, v, e);
    }
  }

  /** In a table without overlaps, the entries printed are exactly those within the value, in the
      order of the table. */
  lemma {:induction false} DisjointTable(table: FlagTable, skipZero: bool, v: bv64)
    requires forall i, j :: 0 <= i < j < |table| ==> And(table[i].value, table[j].value) == 0
    ensures Matched(table, skipZero, v) == Within(table, skipZero, v)
    decreases |table|
  {
    if table != [] {
      var e, tail := table[0], table[1..];
      forall i | 0 <= i < |tail|
        ensures And(e.value, tail[i].value) == 0
      {
        assert tail[i] == table[i + 1];
      }
      MatchedStep(table, skipZero, v);
      HitsIsContains(e, v, skipZero);
      DisjointTable(tail, skipZero, if Hits(e, v, skipZero) then Without(v, e.value) else v);
      WithinRest(tail, skipZero, v, e.value);
    }
  }

  /** The text of a nonzero value: the names of the entries printed, in order, and the hex of the
      bits left over, with bars between them. */
  lemma {:induction false} TableTokens(table: FlagTable, zero: string, v: bv64)
    requires Named(table) && v != 0
    ensures var rest := Unexplained(table, false, v);
            TableText(table, zero, v) ==
            JoinOr(Names(Matched(table, false, v)) + if rest != 0 then [HexText(rest)] else [])
  {
    FinishedWalk(table, false, [], v, false);
    FromNothing(table, false, v);
  }

  /** The text of a mask, which is never empty. */
  lemma {:induction false} MaskTokens(table: FlagTable, v: bv64)
    requires Named(table)
    ensures var ms, rest := Matched(table, true, v), Unexplained(table, true, v);
            MaskText(table, v) == JoinOr(Names(ms) + if rest != 0 || ms == [] then [HexText(rest)] else [])
  {
    FinishedWalk(table, true, [], v, true);
    FromNothing(table, true, v);
  }

  lemma {:induction false} FromNothing(table: FlagTable, skipZero: bool, v: bv64)
    ensures [] + Matched(table, skipZero, v) == Matched(table, skipZero, v) && JoinOr(Names([])) == ""
  {
    assert Names([]) == [];
  }

  /** The text of open flags: the access mode, the names in order, and the rest. */
  lemma {:induction false} OpenTokens(table: FlagTable, flags: bv64)
    requires Named(table)
    ensures var v := Without(flags, O_ACCMODE);
            var rest := Unexplained(table, true, v);
            OpenText(table, flags) ==
            JoinOr([AccessMode(flags)] + Names(Matched(table, true, v)) + if rest != 0 then [HexText(rest)] else [])
  {
    var v, mode := Without(flags, O_ACCMODE), FlagEntry(0, AccessMode(flags));
    var ms := Matched(table, true, v);
    FinishedWalk(table, true, [mode], v, false);
    assert Names([mode]) == [mode.name] && JoinOr([mode.name]) == mode.name;
    assert Names([mode] + ms) == [mode.name] + Names(ms);
  }
}
