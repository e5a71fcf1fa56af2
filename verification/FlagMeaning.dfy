/** What the flag texts mean: the walk explains every bit once, and the text can be read back. */
module FlagMeaning {
  import opened Bytes
  import opened FlagWalk
  import opened Splitting

  // ----- What the walk explains -----

  /** The entries printed, in order, and the bits left over. */
  function Matched(table: FlagTable, skipZero: bool, rest: bv64): FlagTable
    decreases |table|
  {
    if table == [] then []
    else if Hits(table[0], rest, skipZero)
    then [table[0]] + Matched(table[1..], skipZero, Without(rest, table[0].value))
    else Matched(table[1..], skipZero, rest)
  }

  function Unexplained(table: FlagTable, skipZero: bool, rest: bv64): bv64
    decreases |table|
  {
    if table == [] then rest
    else Unexplained(table[1..], skipZero,
                     if Hits(table[0], rest, skipZero) then Without(rest, table[0].value) else rest)
  }

  function OrAll(es: FlagTable): bv64 {
    if es == [] then 0 else Or(es[0].value, OrAll(es[1..]))
  }

  lemma {:induction false} OrZero(v: bv64)
    ensures Or(0, v) == v && Or(v, 0) == v
  {
  }

  lemma {:induction false} OrRegroup(a: bv64, b: bv64, c: bv64)
    ensures Or(Or(a, b), c) == Or(a, Or(b, c))
  {
  }

  lemma {:induction false} SplitBits(v: bv64, e: bv64)
    requires And(v, e) == e
    ensures Or(e, Without(v, e)) == v
  {
  }

  lemma {:induction false} OutsideBits(v: bv64, e: bv64, m: bv64)
    requires And(m, Without(v, e)) == m
    ensures And(m, v) == m && And(e, m) == 0 && And(m, e) == 0
  {
  }

  lemma {:induction false} KeepBits(v: bv64, e: bv64, c: bv64)
    requires And(v, c) == c && And(e, c) == 0
    ensures And(Without(v, e), c) == c
  {
  }

  /** One entry of the walk. */
  lemma {:induction false} MatchedStep(table: FlagTable, skipZero: bool, v: bv64)
    requires table != []
    ensures var e, tail := table[0], table[1..];
            if Hits(e, v, skipZero)
            then && Matched(table, skipZero, v) == [e] + Matched(tail, skipZero, Without(v, e.value))
                 && Unexplained(table, skipZero, v) == Unexplained(tail, skipZero, Without(v, e.value))
            else && Matched(table, skipZero, v) == Matched(tail, skipZero, v)
                 && Unexplained(table, skipZero, v) == Unexplained(tail, skipZero, v)
  {
  }

  lemma {:induction false} OrAllCons(e: FlagEntry, es: FlagTable)
    ensures OrAll([e] + es) == Or(e.value, OrAll(es))
  {
    assert ([e] + es)[1..] == es;
  }

  /** The printed bits and the remainder are together the value. */
  lemma {:induction false} WalkExplainsAll(table: FlagTable, skipZero: bool, v: bv64)
    ensures Or(OrAll(Matched(table, skipZero, v)), Unexplained(table, skipZero, v)) == v
    decreases |table|
  {
    OrZero(v);
    if table != [] {
      var e, tail := table[0], table[1..];
      MatchedStep(table, skipZero, v);
      if Hits(e, v, skipZero) {
        var w := Without(v, e.value);
        var m := Matched(tail, skipZero, w);
        WalkExplainsAll(tail, skipZero, w);
        OrAllCons(e, m);
        OrRegroup(e.value, OrAll(m), Unexplained(tail, skipZero, w));
        SplitBits(v, e.value);
      } else {
        WalkExplainsAll(tail, skipZero, v);
      }
    }
  }

  /** Printed entries come from the table and lie within the value. */
  lemma {:induction false} MatchedWithin(table: FlagTable, skipZero: bool, v: bv64, m: FlagEntry)
    requires m in Matched(table, skipZero, v)
    ensures m in table && And(m.value, v) == m.value
    decreases |table|
  {
    if table != [] {
      var e, tail := table[0], table[1..];
      MatchedStep(table, skipZero, v);
      if Hits(e, v, skipZero) {
        if m == e {
          AndSwap(v, e.value);
        } else {
          MatchedWithin(tail, skipZero, Without(v, e.value), m);
          OutsideBits(v, e.value, m.value);
        }
      } else {
        MatchedWithin(tail, skipZero, v, m);
      }
    }
  }

  lemma {:induction false} AndSwap(a: bv64, b: bv64)
    ensures And(a, b) == And(b, a)
  {
  }

  /** No bit is printed twice. */
  lemma {:induction false} MatchedDisjoint(table: FlagTable, skipZero: bool, v: bv64, i: nat, j: nat)
    requires i < j < |Matched(table, skipZero, v)|
    ensures And(Matched(table, skipZero, v)[i].value, Matched(table, skipZero, v)[j].value) == 0
    decreases |table|
  {
    if table != [] {
      var e, tail := table[0], table[1..];
      MatchedStep(table, skipZero, v);
      if Hits(e, v, skipZero) {
        var w := Without(v, e.value);
        var ms := Matched(tail, skipZero, w);
        assert Matched(table, skipZero, v)[j] == ms[j - 1];
        if i == 0 {
          MatchedWithin(tail, skipZero, w, ms[j - 1]);
          OutsideBits(v, e.value, ms[j - 1].value);
        } else {
          assert Matched(table, skipZero, v)[i] == ms[i - 1];
          MatchedDisjoint(tail, skipZero, w, i - 1, j - 1);
        }
      } else {
        MatchedDisjoint(tail, skipZero, v, i, j);
      }
    }
  }

  // ----- Composites -----

  /** In any table where no entry before c overlaps it, a value holding all of c's bits prints c,
      and prints no other entry that shares a bit with it. */
  lemma {:induction false} CompositeWins(table: FlagTable, skipZero: bool, c: nat, v: bv64)
    requires c < |table| && table[c].value != 0
    requires forall i :: 0 <= i < c ==> And(table[i].value, table[c].value) == 0
    requires And(v, table[c].value) == table[c].value
    ensures table[c] in Matched(table, skipZero, v)
    ensures forall m :: m in Matched(table, skipZero, v) ==> m == table[c] || And(m.value, table[c].value) == 0
    decreases c
  {
    var e, tail := table[0], table[1..];
    var bits := table[c].value;
    MatchedStep(table, skipZero, v);
    if c == 0 {
      forall m | m in Matched(tail, skipZero, Without(v, bits))
        ensures And(m.value, bits) == 0
      {
        MatchedWithin(tail, skipZero, Without(v, bits), m);
        OutsideBits(v, bits, m.value);
      }
    } else {
      assert tail[c - 1] == table[c];
      if Hits(e, v, skipZero) {
        KeepBits(v, e.value, bits);
        CompositeWins(tail, skipZero, c - 1, Without(v, e.value));
      } else {
        CompositeWins(tail, skipZero, c - 1, v);
      }
    }
  }

  // ----- The text as a list of tokens -----

  function JoinOr(toks: seq<string>): string {
    if toks == [] then "" else Join('|', toks)
  }

  function Names(es: FlagTable): (ns: seq<string>)
    ensures |ns| == |es| && forall i :: 0 <= i < |es| ==> ns[i] == es[i].name
  {
    seq(|es|, i requires 0 <= i < |es| => es[i].name)
  }

  ghost predicate NoneEmpty(toks: seq<string>) { forall i :: 0 <= i < |toks| ==> toks[i] != [] }

  lemma {:induction false} JoinSnoc(c: char, ps: seq<string>, p: string)
    requires ps != []
    ensures Join(c, ps + [p]) == Join(c, ps) + ([c] + p)
    decreases |ps|
  {
    assert (ps + [p])[1..] == ps[1..] + [p];
    if |ps| == 1 {
      assert (ps + [p])[1..] == [p];
    } else {
      JoinSnoc(c, ps[1..], p);
    }
  }

  lemma {:induction false} JoinNonEmpty(toks: seq<string>)
    requires NoneEmpty(toks)
    ensures JoinOr(toks) == [] <==> toks == []
  {
  }

  /** Printing one more name. */
  lemma {:induction false} AppendToken(toks: seq<string>, name: string)
    requires NoneEmpty(toks)
    ensures JoinOr(toks) + (Separator(JoinOr(toks)) + name) == JoinOr(toks + [name])
  {
    JoinNonEmpty(toks);
    if toks == [] {
      assert toks + [name] == [name];
    } else {
      JoinSnoc('|', toks, name);
    }
  }

  lemma {:induction false} NamesCons(toks: seq<string>, e: FlagEntry, es: FlagTable)
    ensures (toks + [e.name]) + Names(es) == toks + Names([e] + es)
  {
  }

  lemma {:induction false} WalkTokens(table: FlagTable, skipZero: bool, toks: seq<string>, v: bv64)
    requires Named(table) && NoneEmpty(toks)
    ensures Walk(table, skipZero, Walked(JoinOr(toks), v)) ==
            Walked(JoinOr(toks + Names(Matched(table, skipZero, v))), Unexplained(table, skipZero, v))
    decreases |table|
  {
    if table == [] {
      assert toks + Names([]) == toks;
    } else {
      var e, tail := table[0], table[1..];
      assert e in table;
      MatchedStep(table, skipZero, v);
      if Hits(e, v, skipZero) {
        AppendToken(toks, e.name);
        WalkTokens(tail, skipZero, toks + [e.name], Without(v, e.value));
        var ms := Matched(tail, skipZero, Without(v, e.value));
        NamesCons(toks, e, ms);
      } else {
        WalkTokens(tail, skipZero, toks, v);
      }
    }
  }

  lemma {:induction false} FinishTokens(toks: seq<string>, v: bv64, force: bool)
    requires NoneEmpty(toks)
    ensures Finish(Walked(JoinOr(toks), v), force) ==
            JoinOr(toks + if v != 0 || (force && toks == []) then [HexText(v)] else [])
  {
    JoinNonEmpty(toks);
    AppendToken(toks, HexText(v));
    assert toks + [] == toks;
  }

  /** A walk over v after some entries have been printed, finished: names in order and the rest. */
  lemma {:induction false} FinishedWalk(table: FlagTable, skipZero: bool, pre: FlagTable, v: bv64, force: bool)
    requires Named(table) && Named(pre)
    ensures var es, rest := pre + Matched(table, skipZero, v), Unexplained(table, skipZero, v);
            Finish(Walk(table, skipZero, Walked(JoinOr(Names(pre)), v)), force) ==
            JoinOr(Names(es) + if rest != 0 || (force && es == []) then [HexText(rest)] else [])
  {
    var ms, rest := Matched(table, skipZero, v), Unexplained(table, skipZero, v);
    assert forall i :: 0 <= i < |pre| ==> pre[i] in pre;
    WalkTokens(table, skipZero, Names(pre), v);
    NamesAppend(pre, ms);
    MatchedNamed(table, skipZero, v);
    var es := pre + ms;
    assert forall i :: 0 <= i < |es| ==> es[i].name != [];
    FinishTokens(Names(es), rest, force);
  }

  lemma {:induction false} MatchedNamed(table: FlagTable, skipZero: bool, v: bv64)
    requires Named(table)
    ensures forall i :: 0 <= i < |Matched(table, skipZero, v)| ==> Matched(table, skipZero, v)[i].name != []
  {
    var ms := Matched(table, skipZero, v);
    forall i | 0 <= i < |ms|
      ensures ms[i].name != []
    {
      MatchedWithin(table, skipZero, v, ms[i]);
    }
  }

  // ----- Reading the text back -----

  predicate IsHexText(t: string) {
    |t| > 2 && t[..2] == "0x" && IsHex(t[2..]) && ParseHex(t[2..]) < 0x1_0000_0000_0000_0000
  }

  /** The value of a name in a table; 0 for a name it does not hold. */
  function ValueOf(names: FlagTable, t: string): bv64 {
    if names == [] then 0
    else if names[0].name == t then names[0].value
    else ValueOf(names[1..], t)
  }

  function TokenValue(names: FlagTable, t: string): bv64 {
    if IsHexText(t) then ParseHex(t[2..]) as bv64 else ValueOf(names, t)
  }

  function OrValues(names: FlagTable, toks: seq<string>): bv64 {
    if toks == [] then 0 else Or(TokenValue(names, toks[0]), OrValues(names, toks[1..]))
  }

  /** Splits a text at its bars and ORs the values of the pieces. */
  function Meaning(names: FlagTable, text: string): bv64 {
    OrValues(names, Pieces('|', text))
  }

  /** The names can be told apart: no bars, not hex, and equal names have equal values. */
  ghost predicate WellNamed(names: FlagTable) {
    && (forall e :: e in names ==> e.name != [] && '|' !in e.name && !IsHexText(e.name))
    && (forall e, f :: e in names && f in names && e.name == f.name ==> e.value == f.value)
  }

  lemma {:induction false} ValueOfName(names: FlagTable, e: FlagEntry)
    requires e in names
    requires forall f, g :: f in names && g in names && f.name == g.name ==> f.value == g.value
    ensures ValueOf(names, e.name) == e.value
  {
    if names[0].name != e.name {
      assert e in names[1..];
      ValueOfName(names[1..], e);
    } else {
      assert names[0] in names;
    }
  }

  lemma {:induction false} BitsRoundTrip(v: bv64)
    ensures (v as nat) as bv64 == v
  {
  }

  lemma {:induction false} PrefixedHex(n: nat)
    ensures var t := "0x" + Hex(n);
            |t| > 2 && t[..2] == "0x" && t[2..] == Hex(n) && IsHex(t[2..]) && ParseHex(t[2..]) == n && '|' !in t
  {
    HexRoundTrip(n);
    var t := "0x" + Hex(n);
    assert forall i :: 2 <= i < |t| ==> t[i] == Hex(n)[i - 2];
  }

  /** Hex digits of a number below 2^64 are read as that number. */
  lemma {:induction false} HexToken(names: FlagTable, n: nat, t: string)
    requires n < 0x1_0000_0000_0000_0000 && t == "0x" + Hex(n)
    ensures IsHexText(t) && TokenValue(names, t) == n as bv64 && '|' !in t && t != []
  {
    PrefixedHex(n);
  }

  lemma {:induction false} HexTextValue(names: FlagTable, v: bv64)
    ensures IsHexText(HexText(v)) && TokenValue(names, HexText(v)) == v
    ensures '|' !in HexText(v) && HexText(v) != []
  {
    HexToken(names, v as nat, HexText(v));
    BitsRoundTrip(v);
  }

  lemma {:induction false} OrValuesSnoc(names: FlagTable, toks: seq<string>, t: string)
    ensures OrValues(names, toks + [t]) == Or(OrValues(names, toks), TokenValue(names, t))
  {
    if toks == [] {
      assert toks + [t] == [t] && [t][1..] == [];
      OrZero(TokenValue(names, t));
    } else {
      assert (toks + [t])[1..] == toks[1..] + [t];
      OrValuesSnoc(names, toks[1..], t);
      OrRegroup(TokenValue(names, toks[0]), OrValues(names, toks[1..]), TokenValue(names, t));
    }
  }

  lemma {:induction false} OrValuesOfNames(names: FlagTable, es: FlagTable)
    requires WellNamed(names) && forall e :: e in es ==> e in names
    ensures OrValues(names, Names(es)) == OrAll(es)
  {
    if es != [] {
      assert es[0] in es;
      ValueOfName(names, es[0]);
      assert Names(es)[1..] == Names(es[1..]);
      OrValuesOfNames(names, es[1..]);
    }
  }

  /** A text made of names of the table and, last, the hex remainder. */
  lemma {:induction false} ReadBack(names: FlagTable, es: FlagTable, rest: bv64, hex: bool)
    requires WellNamed(names) && (forall e :: e in es ==> e in names)
    requires es != [] || hex
    requires !hex ==> rest == 0
    ensures Meaning(names, JoinOr(Names(es) + if hex then [HexText(rest)] else [])) == Or(OrAll(es), rest)
  {
    var toks := Names(es) + if hex then [HexText(rest)] else [];
    HexTextValue(names, rest);
    forall p | p in toks
      ensures '|' !in p
    {
      if p in Names(es) {
        var i :| 0 <= i < |es| && p == es[i].name;
        assert es[i] in es;
      }
    }
    PiecesUnique('|', toks);
    OrValuesOfNames(names, es);
    if hex {
      OrValuesSnoc(names, Names(es), HexText(rest));
    } else {
      assert toks == Names(es);
      OrZero(OrAll(es));
    }
  }

  lemma {:induction false} MatchedInNames(table: FlagTable, names: FlagTable, skipZero: bool, v: bv64)
    requires forall e :: e in table ==> e in names
    ensures forall m :: m in Matched(table, skipZero, v) ==> m in names
  {
    forall m | m in Matched(table, skipZero, v)
      ensures m in names
    {
      MatchedWithin(table, skipZero, v, m);
    }
  }

  lemma {:induction false} Single(names: FlagTable, t: string)
    requires '|' !in t
    ensures Meaning(names, t) == TokenValue(names, t)
  {
    assert Join('|', [t]) == t;
    PiecesUnique('|', [t]);
    OrZero(TokenValue(names, t));
    assert OrValues(names, [t]) == Or(TokenValue(names, t), OrValues(names, [t][1..]));
    assert [t][1..] == [];
  }

  /** What is left of a nonzero value that no entry of the table matches is the value. */
  lemma {:induction false} NothingMatched(table: FlagTable, skipZero: bool, v: bv64)
    requires Matched(table, skipZero, v) == []
    ensures Unexplained(table, skipZero, v) == v
  {
    WalkExplainsAll(table, skipZero, v);
    OrZero(Unexplained(table, skipZero, v));
  }

  lemma {:induction false} NamesAppend(a: FlagTable, b: FlagTable)
    ensures Names(a) + Names(b) == Names(a + b)
  {
  }

  lemma {:induction false} OrAllAppend(a: FlagTable, b: FlagTable)
    ensures OrAll(a + b) == Or(OrAll(a), OrAll(b))
  {
    if a == [] {
      assert a + b == b;
      OrZero(OrAll(b));
    } else {
      assert a == [a[0]] + a[1..];
      assert a + b == [a[0]] + (a[1..] + b);
      OrAllCons(a[0], a[1..] + b);
      OrAllCons(a[0], a[1..]);
      OrAllAppend(a[1..], b);
      OrRegroup(a[0].value, OrAll(a[1..]), OrAll(b));
    }
  }

  lemma {:induction false} OrAllOne(e: FlagEntry)
    ensures OrAll([e]) == e.value
  {
    assert [e] == [e] + [];
    OrAllCons(e, []);
    OrZero(e.value);
  }

  /** A walk over v after some entries have been printed, finished and read back. */
  lemma {:induction false} WalkReadBack(table: FlagTable, names: FlagTable, skipZero: bool, pre: FlagTable,
                                        v: bv64, force: bool)
    requires WellNamed(names) && (forall e :: e in table ==> e in names) && (forall e :: e in pre ==> e in names)
    requires pre != [] || v != 0 || force
    ensures Meaning(names, Finish(Walk(table, skipZero, Walked(JoinOr(Names(pre)), v)), force)) == Or(OrAll(pre), v)
  {
    var ms, rest := Matched(table, skipZero, v), Unexplained(table, skipZero, v);
    FinishedWalk(table, skipZero, pre, v, force);
    MatchedInNames(table, names, skipZero, v);
    if ms == [] {
      NothingMatched(table, skipZero, v);
    }
    ReadBack(names, pre + ms, rest, rest != 0 || (force && pre + ms == []));
    OrAllAppend(pre, ms);
    OrRegroup(OrAll(pre), OrAll(ms), rest);
    WalkExplainsAll(table, skipZero, v);
  }

  /** format_flag_table_value and its kin lose nothing: for every table and every value, reading
      the full text gives the value back. */
  lemma {:induction false} TableRoundTrip(table: FlagTable, names: FlagTable, zero: string, v: bv64)
    requires WellNamed(names) && forall e :: e in table ==> e in names
    requires '|' !in zero && TokenValue(names, zero) == 0
    ensures Meaning(names, TableText(table, zero, v)) == v
  {
    if v == 0 {
      Single(names, zero);
    } else {
      assert Names([]) == [];
      WalkReadBack(table, names, false, [], v, false);
      OrZero(v);
    }
  }

  /** The same for format_map_flags, format_mount_flags and format_statx_mask. */
  lemma {:induction false} MaskRoundTrip(table: FlagTable, names: FlagTable, v: bv64)
    requires WellNamed(names) && forall e :: e in table ==> e in names
    ensures Meaning(names, MaskText(table, v)) == v
  {
    assert Names([]) == [];
    WalkReadBack(table, names, true, [], v, true);
    OrZero(v);
  }

  // ----- open flags -----

  function AccessEntry(flags: bv64): FlagEntry {
    FlagEntry(if And(flags, O_ACCMODE) == 1 then 1 else if And(flags, O_ACCMODE) == 2 then 2 else 0,
              AccessMode(flags))
  }

  lemma {:induction false} AccessBits(flags: bv64)
    ensures Or(AccessEntry(flags).value, Without(flags, O_ACCMODE)) == flags <==> And(flags, O_ACCMODE) != O_ACCMODE
  {
  }

  /** format_open_flags loses nothing exactly when the two access-mode bits are not both set;
      with both set it shows O_RDONLY. */
  lemma {:induction false} OpenRoundTripIff(table: FlagTable, names: FlagTable, flags: bv64)
    requires WellNamed(names) && (forall e :: e in table ==> e in names)
    requires AccessEntry(flags) in names
    ensures Meaning(names, OpenText(table, flags)) == flags <==> And(flags, O_ACCMODE) != O_ACCMODE
  {
    var mode := AccessEntry(flags);
    assert Names([mode]) == [mode.name] && JoinOr([mode.name]) == mode.name;
    WalkReadBack(table, names, true, [mode], Without(flags, O_ACCMODE), false);
    OrAllOne(mode);
    AccessBits(flags);
  }

  // ----- clone flags -----

  lemma {:induction false} OrSwap(a: bv64, b: bv64)
    ensures Or(a, b) == Or(b, a)
  {
  }

  lemma {:induction false} OrExchange(a: bv64, b: bv64, c: bv64)
    ensures Or(Or(a, b), c) == Or(Or(a, c), b)
  {
    OrSwap(b, c);
    OrRegroup(a, b, c);
    OrRegroup(a, c, b);
  }

  lemma {:induction false} CloneTokens(table: FlagTable, flags: bv64, sig: FlagEntry)
    requires Named(table) && sig.name != []
    ensures var rest := Unexplained(table, false, flags);
            CloneText(table, flags, sig.name) ==
            JoinOr(Names(Matched(table, false, flags) + [sig]) + if rest != 0 then [HexText(rest)] else [])
  {
    var ms, rest := Matched(table, false, flags), Unexplained(table, false, flags);
    WalkTokens(table, false, [], flags);
    assert [] + Names(ms) == Names(ms);
    forall i | 0 <= i < |ms|
      ensures ms[i].name != []
    {
      MatchedWithin(table, false, flags, ms[i]);
    }
    AppendToken(Names(ms), sig.name);
    assert Names(ms) + [sig.name] == Names(ms + [sig]);
    JoinNonEmpty(Names(ms + [sig]));
    FinishTokens(Names(ms + [sig]), rest, false);
  }

  /** format_clone_flags_value with an exit signal loses nothing. */
  lemma {:induction false} CloneWithSignal(table: FlagTable, names: FlagTable, flags: bv64, sig: FlagEntry)
    requires WellNamed(names) && (forall e :: e in table ==> e in names) && sig in names
    ensures Meaning(names, CloneText(table, flags, sig.name)) == Or(flags, sig.value)
  {
    var ms, rest := Matched(table, false, flags), Unexplained(table, false, flags);
    var es := ms + [sig];
    MatchedInNames(table, names, false, flags);
    assert forall i :: 0 <= i < |es| ==> es[i] in es;
    CloneTokens(table, flags, sig);
    ReadBack(names, es, rest, rest != 0);
    OrAllAppend(ms, [sig]);
    OrAllOne(sig);
    OrExchange(OrAll(ms), sig.value, rest);
    WalkExplainsAll(table, false, flags);
  }

  ghost predicate SomeEntryHits(table: FlagTable, v: bv64) {
    exists e :: e in table && Hits(e, v, false)
  }

  /** Something is printed exactly when some entry of the table lies within the value. */
  lemma {:induction false} MatchedIff(table: FlagTable, v: bv64)
    ensures Matched(table, false, v) != [] <==> SomeEntryHits(table, v)
    decreases |table|
  {
    if table != [] {
      var e, tail := table[0], table[1..];
      MatchedStep(table, false, v);
      assert table == [e] + tail;
      if Hits(e, v, false) {
        assert e in table;
      } else {
        MatchedIff(tail, v);
      }
    }
  }

  /** Without an exit signal the flags can be read back exactly when they are 0 or some entry of
      the table lies within them; otherwise the text is "0". */
  lemma {:induction false} CloneWithoutSignalIff(table: FlagTable, names: FlagTable, flags: bv64)
    requires WellNamed(names) && (forall e :: e in table ==> e in names)
    requires TokenValue(names, "0") == 0
    ensures Meaning(names, CloneText(table, flags, "")) == flags <==> flags == 0 || SomeEntryHits(table, flags)
  {
    var ms, rest := Matched(table, false, flags), Unexplained(table, false, flags);
    MatchedIff(table, flags);
    WalkTokens(table, false, [], flags);
    assert [] + Names(ms) == Names(ms);
    MatchedInNames(table, names, false, flags);
    assert forall i :: 0 <= i < |ms| ==> ms[i] in ms;
    JoinNonEmpty(Names(ms));
    if ms == [] {
      Single(names, "0");
    } else {
      FinishTokens(Names(ms), rest, false);
      ReadBack(names, ms, rest, rest != 0);
      WalkExplainsAll(table, false, flags);
    }
  }

  // The low byte of clone's argument is the exit signal.
  const CSIGNAL: bv64 := 0xff

  /** format_clone_flags on one value: lossless exactly when there is an exit signal, or a named
      flag, or nothing to show. */
  lemma {:induction false} CloneRoundTripIff(table: FlagTable, names: FlagTable, value: bv64, sig: FlagEntry)
    requires WellNamed(names) && (forall e :: e in table ==> e in names)
    requires TokenValue(names, "0") == 0
    requires sig.value == And(value, CSIGNAL) && (sig.value != 0 ==> sig in names)
    ensures var flags, signal := Without(value, CSIGNAL), if sig.value != 0 then sig.name else "";
            Meaning(names, CloneText(table, flags, signal)) == value
            <==> sig.value != 0 || flags == 0 || SomeEntryHits(table, flags)
  {
    LowByte(value);
    var flags := Without(value, CSIGNAL);
    if sig.value != 0 {
      CloneWithSignal(table, names, flags, sig);
    } else {
      CloneWithoutSignalIff(table, names, flags);
    }
  }

  lemma {:induction false} LowByte(value: bv64)
    ensures Or(Without(value, CSIGNAL), And(value, CSIGNAL)) == value
    ensures And(value, CSIGNAL) == 0 ==> Without(value, CSIGNAL) == value
  {
  }
}
