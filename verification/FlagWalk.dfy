/** The OR-of-names decoders (src/decoders.c): a greedy walk over a table of flag values. */
module FlagWalk {
  import opened Bytes
  import opened BoundedText
  import opened Options

  datatype FlagEntry = FlagEntry(value: bv64, name: string)

  type FlagTable = seq<FlagEntry>

  // The operators on unsigned long long values.
  function And(a: bv64, b: bv64): bv64 { a & b }
  function Or(a: bv64, b: bv64): bv64 { a | b }
  function Without(a: bv64, b: bv64): bv64 { a & !b }

  /** Text printed so far and bits not yet explained. */
  datatype Walked = Walked(text: string, rest: bv64)

  function Separator(text: string): string { if text == [] then "" else "|" }

  /** All the bits of the entry are still unexplained. Some of the walkers pass over zero entries. */
  predicate Hits(e: FlagEntry, rest: bv64, skipZero: bool) {
    (skipZero ==> e.value != 0) && And(rest, e.value) == e.value
  }

  function Take(e: FlagEntry, w: Walked): Walked {
    Walked(w.text + (Separator(w.text) + e.name), Without(w.rest, e.value))
  }

  function Visit(e: FlagEntry, skipZero: bool, w: Walked): Walked {
    if Hits(e, w.rest, skipZero) then Take(e, w) else w
  }

  /** The walk with unbounded room. */
  function Walk(table: FlagTable, skipZero: bool, w: Walked): Walked
    decreases |table|
  {
    if table == [] then w
    else Walk(table[1..], skipZero, Visit(table[0], skipZero, w))
  }

  function HexText(v: bv64): string { "0x" + Hex(v as nat) }

  /** The hex remainder, printed when bits are left or, if forced, when nothing was printed. */
  function Finish(w: Walked, force: bool): string {
    if w.rest != 0 || (force && w.text == [])
    then w.text + (Separator(w.text) + HexText(w.rest)) else w.text
  }

  /** format_flag_table_value; with another text for 0 also format_prot_flags and
      format_access_mode, and with the entry of bit 0x200 put first format_at_flags_walk. */
  function TableText(table: FlagTable, zero: string, value: bv64): string {
    if value == 0 then zero else Finish(Walk(table, false, Walked("", value)), false)
  }

  /** format_map_flags, format_mount_flags, format_statx_mask. */
  function MaskText(table: FlagTable, value: bv64): string {
    Finish(Walk(table, true, Walked("", value)), true)
  }

  const O_ACCMODE: bv64 := 3

  function AccessMode(flags: bv64): string {
    if And(flags, O_ACCMODE) == 1 then "O_WRONLY"
    else if And(flags, O_ACCMODE) == 2 then "O_RDWR"
    else "O_RDONLY"
  }

  /** format_open_flags. */
  function OpenText(table: FlagTable, flags: bv64): string {
    Finish(Walk(table, true, Walked(AccessMode(flags), Without(flags, O_ACCMODE))), false)
  }

  function WithSignal(w: Walked, signal: string): Walked {
    if signal == [] then w else w.(text := w.text + (Separator(w.text) + signal))
  }

  /** format_clone_flags_value; signal is the text of the exit signal, empty for none. */
  function CloneText(table: FlagTable, flags: bv64, signal: string): string {
    var w := WithSignal(Walk(table, false, Walked("", flags)), signal);
    if w.text == [] then "0" else Finish(w, false)
  }

  // ----- The bounded walk -----

  ghost predicate Named(table: FlagTable) { forall e :: e in table ==> e.name != [] }

  lemma {:induction false} WalkExtends(table: FlagTable, skipZero: bool, w: Walked)
    ensures w.text <= Walk(table, skipZero, w).text
    decreases |table|
  {
    if table != [] {
      WalkExtends(table[1..], skipZero, Visit(table[0], skipZero, w));
    }
  }

  /** A walk that prints nothing explains nothing. */
  lemma {:induction false} SilentWalk(table: FlagTable, skipZero: bool, w: Walked)
    requires Named(table) && Walk(table, skipZero, w).text == []
    ensures Walk(table, skipZero, w) == w
    decreases |table|
  {
    WalkExtends(table, skipZero, w);
    if table != [] {
      assert table[0] in table;
      SilentWalk(table[1..], skipZero, Visit(table[0], skipZero, w));
    }
  }

  /** One turn of the walk. */
  method VisitEntry(e: FlagEntry, skipZero: bool, out: array<char>, oi0: nat, rest0: bv64, ghost sofar: string)
    returns (oi: nat, rest: bv64)
    requires oi0 == |sofar| < out.Length && Chain(out[..], sofar)
    modifies out
    ensures var w := Visit(e, skipZero, Walked(sofar, rest0));
            oi == |w.text| && rest == w.rest && Chain(out[..], w.text)
  {
    ghost var w := Visit(e, skipZero, Walked(sofar, rest0));
    if Hits(e, rest0, skipZero) {
      var piece := (if oi0 != 0 then "|" else "") + e.name;
      assert w == Take(e, Walked(sofar, rest0));
      assert w.text == sofar + piece;
      rest := Without(rest0, e.value);
      oi := Emit(out, oi0, piece, sofar);
    } else {
      oi, rest := oi0, rest0;
    }
  }

  lemma {:induction false} WalkStep(table: FlagTable, i: nat, skipZero: bool, w: Walked)
    requires i < |table|
    ensures Walk(table[i..], skipZero, w) == Walk(table[i + 1..], skipZero, Visit(table[i], skipZero, w))
  {
    assert table[i..][1..] == table[i + 1..];
  }

  /** However the walk stops, the buffer shows what it can of the full text. */
  lemma {:induction false} WalkStops(buf: seq<char>, table: FlagTable, skipZero: bool, w: Walked)
    requires Chain(buf, w.text) && (table == [] || |w.text| >= |buf|)
    ensures Chain(buf, Walk(table, skipZero, w).text)
    ensures |w.text| <= |Walk(table, skipZero, w).text|
  {
    WalkExtends(table, skipZero, w);
    var full := Walk(table, skipZero, w).text;
    if table != [] && w.text != [] {
      assert full == w.text + full[|w.text|..];
      Overshoot(buf, w.text, full[|w.text|..]);
    }
  }

  /** The walking loop shared by the decoders. */
  method WalkTable(table: FlagTable, skipZero: bool, out: array<char>, oi0: nat, rest0: bv64, ghost sofar: string)
    returns (oi: nat, rest: bv64)
    requires oi0 == |sofar| && Chain(out[..], sofar)
    modifies out
    ensures var full := Walk(table, skipZero, Walked(sofar, rest0));
            && (oi < out.Length ==> oi == |full.text| && rest == full.rest)
            && (oi >= out.Length ==> |full.text| >= oi)
            && Chain(out[..], full.text)
  {
    oi, rest := oi0, rest0;
    ghost var w := Walked(sofar, rest0);
    ghost var full := Walk(table, skipZero, w);
    var i := 0;
    assert table[0..] == table;
    while i < |table| && oi < out.Length
      invariant 0 <= i <= |table|
      invariant oi == |w.text| && rest == w.rest && Chain(out[..], w.text)
      invariant Walk(table[i..], skipZero, w) == full
    {
      WalkStep(table, i, skipZero, w);
      oi, rest := VisitEntry(table[i], skipZero, out, oi, rest, w.text);
      w := Visit(table[i], skipZero, w);
      i := i + 1;
    }
    WalkStops(out[..], table[i..], skipZero, w);
  }

  /** The hex remainder at the end of a walk. */
  method FinishHex(out: array<char>, oi: nat, rest: bv64, force: bool, ghost w: Walked)
    requires Chain(out[..], w.text)
    requires oi < out.Length ==> oi == |w.text| && rest == w.rest
    requires oi >= out.Length ==> |w.text| >= oi
    requires Finish(w, force) != []
    modifies out
    ensures Printed(out[..], Finish(w, force))
  {
    if oi < out.Length {
      if rest != 0 || (force && oi == 0) {
        var piece := (if oi != 0 then "|" else "") + HexText(rest);
        assert piece == Separator(w.text) + HexText(w.rest);
        var _ := Emit(out, oi, piece, w.text);
      }
    } else if out.Length > 0 {
      ghost var text := Finish(w, force);
      assert w.text <= text;
      assert text == w.text + text[|w.text|..];
      Overshoot(out[..], w.text, text[|w.text|..]);
    }
  }

  /** format_flag_table_value. */
  method FormatFlagTable(table: FlagTable, zero: string, value: bv64, out: array<char>)
    requires Named(table)
    modifies out
    ensures Printed(out[..], TableText(table, zero, value))
  {
    if value == 0 {
      var _ := Snprintf(out, 0, zero);
      assert out[0..] == out[..];
      return;
    }
    ghost var w := Walk(table, false, Walked("", value));
    var oi, rest := WalkTable(table, false, out, 0, value, "");
    if w.text == [] {
      SilentWalk(table, false, Walked("", value));
    }
    FinishHex(out, oi, rest, false, w);
  }

  /** format_map_flags, format_mount_flags, format_statx_mask. */
  method FormatMask(table: FlagTable, value: bv64, out: array<char>)
    modifies out
    ensures Printed(out[..], MaskText(table, value))
  {
    ghost var w := Walk(table, true, Walked("", value));
    var oi, rest := WalkTable(table, true, out, 0, value, "");
    FinishHex(out, oi, rest, true, w);
  }

  /** format_open_flags. */
  method FormatOpenFlags(table: FlagTable, flags: bv64, out: array<char>)
    modifies out
    ensures Printed(out[..], OpenText(table, flags))
  {
    var mode := "O_RDONLY";
    if And(flags, O_ACCMODE) == 1 {
      mode := "O_WRONLY";
    } else if And(flags, O_ACCMODE) == 2 {
      mode := "O_RDWR";
    }
    var rest := Without(flags, O_ACCMODE);
    ghost var w := Walk(table, true, Walked(mode, rest));
    WalkExtends(table, true, Walked(mode, rest));
    var oi := Snprintf(out, 0, mode);
    assert out[0..] == out[..];
    oi, rest := WalkTable(table, true, out, oi, rest, mode);
    FinishHex(out, oi, rest, false, w);
  }

  /** The text of an exit signal; abbrev is what sigabbrev_np knows about it. */
  function SignalText(exitSignal: bv64, abbrev: Option<string>): string {
    if exitSignal == 0 then ""
    else if abbrev.Some? then "SIG" + abbrev.value
    else Decimal(exitSignal as nat)
  }

  /** format_clone_flags_value. */
  method FormatCloneFlags(table: FlagTable, flags: bv64, exitSignal: bv64, abbrev: Option<string>, out: array<char>)
    modifies out
    ensures Printed(out[..], CloneText(table, flags, SignalText(exitSignal, abbrev)))
  {
    var signal := SignalText(exitSignal, abbrev);
    ghost var w := Walk(table, false, Walked("", flags));
    var oi, rest := WalkTable(table, false, out, 0, flags, "");
    ghost var v := WithSignal(w, signal);
    if signal != [] && oi < out.Length {
      var piece := (if oi != 0 then "|" else "") + signal;
      assert piece == Separator(w.text) + signal;
      oi := Emit(out, oi, piece, w.text);
    } else if signal != [] && out.Length > 0 {
      assert v.text == w.text + (Separator(w.text) + signal);
      Overshoot(out[..], w.text, Separator(w.text) + signal);
    }
    if oi == 0 {
      var _ := Snprintf(out, 0, "0");
      assert out[0..] == out[..];
      return;
    }
    FinishHex(out, oi, rest, false, v);
  }
}
