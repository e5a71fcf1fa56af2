/** What the order of the calls does to the -c table: nothing, while the table has room for every name. */
module SummaryOrder {
  import opened SummaryRows

  lemma {:induction false} DistinctMembers(ds: seq<Done>, name: string)
    ensures name in Distinct(ds) <==> exists d :: d in ds && d.name == name
  {
    if ds != [] {
      var before, d := ds[..|ds| - 1], ds[|ds| - 1];
      assert ds == before + [d];
      DistinctMembers(before, name);
    }
  }

  /** Taking one call out of the sequence takes it out of its row. */
  lemma {:induction false} GroupRowWithout(ds: seq<Done>, i: nat, name: string)
    requires i < |ds|
    ensures GroupRow(ds, name) ==
            var rest := GroupRow(ds[..i] + ds[i + 1..], name);
            if ds[i].name == name then Bump(rest, ds[i]) else rest
    decreases |ds|
  {
    var before, last := ds[..|ds| - 1], ds[|ds| - 1];
    assert ds == before + [last];
    GroupRowStep(before, last, name);
    if i < |ds| - 1 {
      GroupRowWithout(before, i, name);
      var rest := before[..i] + before[i + 1..];
      assert ds[..i] + ds[i + 1..] == rest + [last];
      GroupRowStep(rest, last, name);
    } else {
      assert ds[..i] + ds[i + 1..] == before;
    }
  }

  lemma {:induction false} GroupRowPermuted(a: seq<Done>, b: seq<Done>, name: string)
    requires multiset(a) == multiset(b)
    ensures GroupRow(a, name) == GroupRow(b, name)
    decreases |a|
  {
    assert |a| == |multiset(a)| == |multiset(b)| == |b|;
    if a != [] {
      var before, last := a[..|a| - 1], a[|a| - 1];
      assert a == before + [last];
      assert last in multiset(b);
      var i :| 0 <= i < |b| && b[i] == last;
      var rest := b[..i] + b[i + 1..];
      assert b == b[..i] + [b[i]] + b[i + 1..];
      assert multiset(rest) == multiset(b) - multiset{last};
      assert multiset(before) == multiset(a) - multiset{last};
      GroupRowPermuted(before, rest, name);
      GroupRowStep(before, last, name);
      GroupRowWithout(b, i, name);
    }
  }

  /** Lists without repetition and with the same members are permutations of each other. */
  lemma {:induction false} SameMembers<T>(a: seq<T>, b: seq<T>)
    requires forall i, j :: 0 <= i < j < |a| ==> a[i] != a[j]
    requires forall i, j :: 0 <= i < j < |b| ==> b[i] != b[j]
    requires forall x :: x in a <==> x in b
    ensures multiset(a) == multiset(b)
  {
    forall x
      ensures multiset(a)[x] == multiset(b)[x]
    {
      OnceOrNever(a, x);
      OnceOrNever(b, x);
    }
  }

  lemma {:induction false} OnceOrNever<T>(a: seq<T>, x: T)
    requires forall i, j :: 0 <= i < j < |a| ==> a[i] != a[j]
    ensures multiset(a)[x] == if x in a then 1 else 0
  {
    if a != [] {
      var before, last := a[..|a| - 1], a[|a| - 1];
      assert a == before + [last];
      OnceOrNever(before, x);
    }
  }

  lemma {:induction false} RowsDistinct(ds: seq<Done>)
    ensures forall i, j :: 0 <= i < j < |GroupBy(ds)| ==> GroupBy(ds)[i] != GroupBy(ds)[j]
  {
    DistinctNames(ds);
    forall i, j | 0 <= i < j < |GroupBy(ds)|
      ensures GroupBy(ds)[i].name != GroupBy(ds)[j].name
    {
      assert Distinct(ds)[i] != Distinct(ds)[j];
    }
  }

  /** The rows are those of the first 256 names. */
  lemma {:induction false} GroupByMembers(ds: seq<Done>, r: Row)
    ensures r in GroupBy(ds) <==> r.name in FirstNames(Distinct(ds)) && r == GroupRow(ds, r.name)
  {
    var names := FirstNames(Distinct(ds));
    if r.name in names && r == GroupRow(ds, r.name) {
      var i :| 0 <= i < |names| && names[i] == r.name;
      assert GroupBy(ds)[i] == r;
    }
  }

  lemma {:induction false} DistinctPermuted(a: seq<Done>, b: seq<Done>)
    requires multiset(a) == multiset(b)
    ensures multiset(Distinct(a)) == multiset(Distinct(b))
  {
    DistinctNames(a);
    DistinctNames(b);
    forall name
      ensures name in Distinct(a) <==> name in Distinct(b)
    {
      DistinctMembers(a, name);
      DistinctMembers(b, name);
      assert forall d :: d in a <==> d in multiset(a);
      assert forall d :: d in b <==> d in multiset(b);
    }
    SameMembers(Distinct(a), Distinct(b));
  }

  ghost predicate SameFirstNames(a: seq<Done>, b: seq<Done>) {
    forall name :: name in FirstNames(Distinct(a)) <==> name in FirstNames(Distinct(b))
  }

  /** The condition can only fail when there are more than 256 names. */
  lemma {:induction false} FewNames(a: seq<Done>, b: seq<Done>)
    requires multiset(a) == multiset(b) && |Distinct(a)| <= MAX_SUMMARY_ENTRIES
    ensures SameFirstNames(a, b)
  {
    DistinctPermuted(a, b);
    assert |Distinct(a)| == |multiset(Distinct(a))| == |Distinct(b)|;
    forall name
      ensures name in Distinct(a) <==> name in Distinct(b)
    {
      assert name in Distinct(a) <==> name in multiset(Distinct(a));
      assert name in Distinct(b) <==> name in multiset(Distinct(b));
    }
  }

  lemma {:induction false} SameRows(a: seq<Done>, b: seq<Done>)
    requires multiset(a) == multiset(b) && SameFirstNames(a, b)
    ensures multiset(GroupBy(a)) == multiset(GroupBy(b))
  {
    RowsDistinct(a);
    RowsDistinct(b);
    forall r
      ensures r in GroupBy(a) <==> r in GroupBy(b)
    {
      GroupByMembers(a, r);
      GroupByMembers(b, r);
      GroupRowPermuted(a, b, r.name);
    }
    SameMembers(GroupBy(a), GroupBy(b));
  }

  lemma {:induction false} SameRowsSameNames(a: seq<Done>, b: seq<Done>, name: string)
    requires multiset(GroupBy(a)) == multiset(GroupBy(b)) && name in FirstNames(Distinct(a))
    ensures name in FirstNames(Distinct(b))
  {
    var r := GroupRow(a, name);
    GroupByMembers(a, r);
    GroupByMembers(b, r);
    assert r in multiset(GroupBy(a));
  }

  /** Two rows of the same name are the same row, however many names there are. */
  lemma {:induction false} RowsAgree(a: seq<Done>, b: seq<Done>, r: Row, q: Row)
    requires multiset(a) == multiset(b)
    requires r in Tally(a) && q in Tally(b) && r.name == q.name
    ensures r == q
  {
    TallyIsGroupBy(a);
    TallyIsGroupBy(b);
    GroupByMembers(a, r);
    GroupByMembers(b, q);
    GroupRowPermuted(a, b, r.name);
  }

  /** The same calls in another order give the same rows exactly when the first 256 names are the
      same set, and so always when there are no more than 256. */
  lemma {:induction false} TalliesAgree(a: seq<Done>, b: seq<Done>)
    requires multiset(a) == multiset(b)
    ensures multiset(Tally(a)) == multiset(Tally(b)) <==> SameFirstNames(a, b)
    ensures |Distinct(a)| <= MAX_SUMMARY_ENTRIES ==> multiset(Tally(a)) == multiset(Tally(b))
  {
    TallyIsGroupBy(a);
    TallyIsGroupBy(b);
    if |Distinct(a)| <= MAX_SUMMARY_ENTRIES {
      FewNames(a, b);
    }
    if SameFirstNames(a, b) {
      SameRows(a, b);
    } else if multiset(GroupBy(a)) == multiset(GroupBy(b)) {
      forall name
        ensures name in FirstNames(Distinct(a)) <==> name in FirstNames(Distinct(b))
      {
        if name in FirstNames(Distinct(a)) {
          SameRowsSameNames(a, b, name);
        }
        if name in FirstNames(Distinct(b)) {
          SameRowsSameNames(b, a, name);
        }
      }
    }
  }

  // ----- Where it fails -----

  lemma {:induction false} FirstCallFirstName(d: Done, ds: seq<Done>)
    ensures Distinct([d] + ds) != [] && Distinct([d] + ds)[0] == d.name
  {
    if ds == [] {
      assert [d] + ds == [d] && [d][..0] == [];
    } else {
      var before, last := ds[..|ds| - 1], ds[|ds| - 1];
      assert [d] + ds == ([d] + before) + [last];
      FirstCallFirstName(d, before);
      DistinctStep([d] + before, last);
    }
  }

  /** A name past the first 256 has no row; the same call made first has one. */
  lemma {:induction false} OrderDecides(ds: seq<Done>, d: Done)
    requires |Distinct(ds)| >= MAX_SUMMARY_ENTRIES && d.name !in Distinct(ds)
    ensures multiset(ds + [d]) == multiset([d] + ds)
    ensures d.name !in FirstNames(Distinct(ds + [d])) && d.name in FirstNames(Distinct([d] + ds))
    ensures multiset(Tally(ds + [d])) != multiset(Tally([d] + ds))
  {
    DistinctStep(ds, d);
    FirstCallFirstName(d, ds);
    assert FirstNames(Distinct([d] + ds))[0] == d.name;
    TalliesAgree(ds + [d], [d] + ds);
  }

  function Name(n: nat): (s: string)
    ensures |s| == n
  {
    seq(n, _ => 'a')
  }

  function Numbered(n: nat): seq<Done> {
    if n == 0 then [] else Numbered(n - 1) + [Done(Name(n), 0, 0)]
  }

  lemma {:induction false} NumberedNames(n: nat)
    ensures |Distinct(Numbered(n))| == n
    ensures forall s :: s in Distinct(Numbered(n)) ==> |s| <= n
  {
    if n > 0 {
      NumberedNames(n - 1);
      DistinctStep(Numbered(n - 1), Done(Name(n), 0, 0));
    }
  }

  /** 257 calls of 257 names: the last one first makes another table. */
  lemma {:induction false} OneNameTooMany()
    ensures var ds, d := Numbered(256), Done(Name(257), 0, 0);
            multiset(ds + [d]) == multiset([d] + ds) && multiset(Tally(ds + [d])) != multiset(Tally([d] + ds))
  {
    NumberedNames(256);
    OrderDecides(Numbered(256), Done(Name(257), 0, 0));
  }
}
