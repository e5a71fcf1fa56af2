/** The names of the open and clone tables can be told apart, so their texts can be read back. */
module FlagNames {
  import opened FlagWalk
  import opened FlagMeaning
  import opened FlagTables
  import opened Bytes
  import opened Options

  const ACCESS_MODES: FlagTable := [FlagEntry(0, "O_RDONLY"), FlagEntry(1, "O_WRONLY"), FlagEntry(2, "O_RDWR")]
  const OPEN_NAMES: FlagTable := OPEN_FLAGS + ACCESS_MODES

  /** The names on a clone argument with this exit signal; abbrev is what sigabbrev_np says of it. */
  function CloneNames(exitSignal: bv64, abbrev: Option<string>): FlagTable {
    if exitSignal == 0 then CLONE_FLAGS
    else CLONE_FLAGS + [FlagEntry(exitSignal, SignalText(exitSignal, abbrev))]
  }

  /** The value of a name from its length, one of its characters and its last one. */
  type Reader = (nat, char, char) -> bv64

  /** The name begins with this character, has no bar in it, and gives its value away. */
  predicate Telling(e: FlagEntry, first: char, at: nat, value: Reader) {
    && |e.name| > at && e.name[0] == first && '|' !in e.name
    && value(|e.name|, e.name[at], e.name[|e.name| - 1]) == e.value
  }

  ghost predicate AllTelling(names: FlagTable, first: char, at: nat, value: Reader) {
    forall e :: e in names ==> Telling(e, first, at, value)
  }

  lemma {:induction false} TellingApart(names: FlagTable, first: char, at: nat, value: Reader)
    requires AllTelling(names, first, at, value) && first != '0'
    ensures WellNamed(names)
  {
    forall e | e in names
      ensures !IsHexText(e.name)
    {
      assert Telling(e, first, at, value);
      assert |e.name| > 2 ==> e.name[..2][0] == e.name[0];
    }
  }

  lemma {:induction false} TwoTell(names: FlagTable, first: char, at: nat, value: Reader)
    requires |names| == 2
    requires Telling(names[0], first, at, value) && Telling(names[1], first, at, value)
    ensures AllTelling(names, first, at, value)
  {
  }

  lemma {:induction false} ThreeTell(names: FlagTable, first: char, at: nat, value: Reader)
    requires |names| == 3
    requires Telling(names[0], first, at, value) && Telling(names[1], first, at, value)
    requires Telling(names[2], first, at, value)
    ensures AllTelling(names, first, at, value)
  {
  }

  lemma {:induction false} FourTell(names: FlagTable, first: char, at: nat, value: Reader)
    requires |names| == 4
    requires Telling(names[0], first, at, value) && Telling(names[1], first, at, value)
    requires Telling(names[2], first, at, value) && Telling(names[3], first, at, value)
    ensures AllTelling(names, first, at, value)
  {
  }

  function OpenValue(len: nat, c: char, last: char): bv64 {
    if len == 6 && last == 'L' then 0x80
    else if len == 6 && last == 'H' then 0x200000
    else if len == 6 && last == 'R' then 0x2
    else if len == 6 && last == 'C' then 0x101000
    else if len == 7 && last == 'T' then 0x40
    else if len == 7 && c == 'D' then 0x1000
    else if len == 7 && c == 'T' then 0x200
    else if len == 8 && last == 'D' then 0x400
    else if len == 8 && last == 'T' then 0x4000
    else if len == 8 && c == 'N' then 0x100
    else if len == 8 && c == 'R' then 0x0
    else if len == 8 && c == 'W' then 0x1
    else if len == 9 && last == 'C' then 0x80000
    else if len == 9 && c == 'N' then 0x40000
    else if len == 9 && c == 'T' then 0x410000
    else if len == 10 && last == 'W' then 0x20000
    else if len == 10 && last == 'K' then 0x800
    else if len == 11 && last == 'Y' then 0x10000
    else if len == 11 && last == 'E' then 0x0
    else 0
  }

  function CloneValue(len: nat, c: char, last: char): bv64 {
    if len == 8 && last == 'S' then 0x200
    else if len == 8 && last == 'O' then 0x80000000
    else if len == 8 && last == 'M' then 0x100
    else if len == 11 && c == 'F' then 0x400
    else if len == 11 && c == 'N' then 0x20000
    else if len == 11 && last == 'D' then 0x1000
    else if len == 11 && last == 'K' then 0x4000
    else if len == 12 && last == 'C' then 0x8000000
    else if len == 12 && c == 'N' && last == 'T' then 0x40000000
    else if len == 12 && c == 'N' && last == 'D' then 0x20000000
    else if len == 12 && c == 'N' && last == 'S' then 0x4000000
    else if len == 12 && c == 'P' && last == 'T' then 0x8000
    else if len == 12 && last == 'E' then 0x2000
    else if len == 12 && c == 'S' then 0x80000
    else if len == 12 && c == 'T' then 0x10000
    else if len == 13 && last == 'R' then 0x10000000
    else if len == 13 && last == 'D' then 0x800
    else if len == 13 && last == 'M' then 0x40000
    else if len == 14 then 0x800000
    else if len == 15 then 0x2000000
    else if len == 18 then 0x1000000
    else if len == 19 && c == 'C' then 0x100000000
    else if len == 19 && c == 'P' then 0x100000
    else if len == 20 then 0x200000
    else 0
  }

  lemma {:induction false} CompositeNames()
    ensures AllTelling(OPEN_COMPOSITE, 'O', 2, OpenValue)
  {
    FourTell(OPEN_COMPOSITE, 'O', 2, OpenValue);
  }

  lemma {:induction false} StatusNames()
    ensures AllTelling(OPEN_STATUS, 'O', 2, OpenValue)
  {
    FourTell(OPEN_STATUS, 'O', 2, OpenValue);
  }

  lemma {:induction false} KindNames()
    ensures AllTelling(OPEN_KIND, 'O', 2, OpenValue)
  {
    FourTell(OPEN_KIND, 'O', 2, OpenValue);
  }

  lemma {:induction false} OtherOpenNames()
    ensures AllTelling(OPEN_OTHERS, 'O', 2, OpenValue)
  {
    FourTell(OPEN_OTHERS, 'O', 2, OpenValue);
  }

  lemma {:induction false} AccessNames()
    ensures AllTelling(ACCESS_MODES, 'O', 2, OpenValue)
  {
    ThreeTell(ACCESS_MODES, 'O', 2, OpenValue);
  }

  lemma {:induction false} OpenNamesTell()
    ensures AllTelling(OPEN_NAMES, 'O', 2, OpenValue)
  {
    CompositeNames();
    StatusNames();
    KindNames();
    OtherOpenNames();
    AccessNames();
  }

  lemma {:induction false} MemoryNames()
    ensures AllTelling(CLONE_MEMORY, 'C', 6, CloneValue)
  {
    ThreeTell(CLONE_MEMORY, 'C', 6, CloneValue);
  }

  lemma {:induction false} SignalNames()
    ensures AllTelling(CLONE_SIGNALS, 'C', 6, CloneValue)
  {
    ThreeTell(CLONE_SIGNALS, 'C', 6, CloneValue);
  }

  lemma {:induction false} FamilyNames()
    ensures AllTelling(CLONE_FAMILY, 'C', 6, CloneValue)
  {
    ThreeTell(CLONE_FAMILY, 'C', 6, CloneValue);
  }

  lemma {:induction false} SystemNames()
    ensures AllTelling(CLONE_SYSTEM, 'C', 6, CloneValue)
  {
    ThreeTell(CLONE_SYSTEM, 'C', 6, CloneValue);
  }

  lemma {:induction false} IdNames()
    ensures AllTelling(CLONE_IDS, 'C', 6, CloneValue)
  {
    TwoTell(CLONE_IDS, 'C', 6, CloneValue);
  }

  lemma {:induction false} ChildNames()
    ensures AllTelling(CLONE_CHILD, 'C', 6, CloneValue)
  {
    TwoTell(CLONE_CHILD, 'C', 6, CloneValue);
  }

  lemma {:induction false} GroupNames()
    ensures AllTelling(CLONE_GROUPS, 'C', 6, CloneValue)
  {
    TwoTell(CLONE_GROUPS, 'C', 6, CloneValue);
  }

  lemma {:induction false} SpaceNames()
    ensures AllTelling(CLONE_SPACES, 'C', 6, CloneValue)
  {
    ThreeTell(CLONE_SPACES, 'C', 6, CloneValue);
  }

  lemma {:induction false} LastNames()
    ensures AllTelling(CLONE_LAST, 'C', 6, CloneValue)
  {
    ThreeTell(CLONE_LAST, 'C', 6, CloneValue);
  }

  lemma {:induction false} CloneNamesTell()
    ensures AllTelling(CLONE_FLAGS, 'C', 6, CloneValue)
  {
    MemoryNames();
    SignalNames();
    FamilyNames();
    SystemNames();
    IdNames();
    ChildNames();
    GroupNames();
    SpaceNames();
    LastNames();
  }

  // ----- The round trips of the program's tables -----

  /** "0" is no name, and is read as nothing. */
  lemma {:induction false} ZeroIsNoName(names: FlagTable, first: char, at: nat, value: Reader)
    requires AllTelling(names, first, at, value) && first != '0'
    ensures TokenValue(names, "0") == 0
  {
    if names != [] {
      assert names[0] in names;
      assert forall e :: e in names[1..] ==> e in names;
      ZeroIsNoName(names[1..], first, at, value);
    }
  }

  /** One more name, that begins otherwise and is no number of ours. */
  lemma {:induction false} OneMoreName(names: FlagTable, e: FlagEntry, first: char, at: nat, value: Reader)
    requires AllTelling(names, first, at, value) && first != '0'
    requires e.name != [] && e.name[0] != first && '|' !in e.name && !IsHexText(e.name)
    ensures WellNamed(names + [e])
  {
    TellingApart(names, first, at, value);
    forall f, g | f in names + [e] && g in names + [e] && f.name == g.name
      ensures f.value == g.value
    {
      assert f in names ==> Telling(f, first, at, value);
      assert g in names ==> Telling(g, first, at, value);
    }
  }

  /** The text of an exit signal: nothing for none, its abbreviation after SIG, or its number. */
  lemma {:induction false} SignalTexts()
    ensures SignalText(17, Some("CHLD")) == "SIGCHLD" && SignalText(0, Some("CHLD")) == ""
    ensures SignalText(200, None) == "200"
  {
    assert Decimal(20) == "20" by { assert Decimal(2) == "2"; }
  }

  /** The text of a signal, abbreviated or not, can be told from the names of the flags. */
  lemma {:induction false} SignalTextIsPlain(v: bv64, abbrev: Option<string>)
    requires v != 0 && (abbrev.Some? ==> '|' !in abbrev.value)
    ensures var t := SignalText(v, abbrev); t != [] && t[0] != 'C' && '|' !in t && !IsHexText(t)
  {
    var t := SignalText(v, abbrev);
    if abbrev.Some? {
      assert t[0] == 'S';
      assert |t| > 2 ==> t[..2][0] == t[0];
    } else {
      DecimalRoundTrip(v as nat);
      assert |t| > 2 ==> t[..2][1] == t[1];
    }
  }

  lemma {:induction false} OpenNamesApart()
    ensures WellNamed(OPEN_NAMES)
  {
    OpenNamesTell();
    TellingApart(OPEN_NAMES, 'O', 2, OpenValue);
  }

  lemma {:induction false} CloneFlagsApart()
    ensures WellNamed(CLONE_FLAGS) && TokenValue(CLONE_FLAGS, "0") == 0
  {
    CloneNamesTell();
    TellingApart(CLONE_FLAGS, 'C', 6, CloneValue);
    ZeroIsNoName(CLONE_FLAGS, 'C', 6, CloneValue);
  }

  lemma {:induction false} CloneNamesApart(sig: FlagEntry)
    requires sig.name != [] && sig.name[0] != 'C' && '|' !in sig.name && !IsHexText(sig.name)
    ensures WellNamed(CLONE_FLAGS + [sig])
  {
    CloneNamesTell();
    OneMoreName(CLONE_FLAGS, sig, 'C', 6, CloneValue);
  }

  lemma {:induction false} AccessIsNamed(flags: bv64)
    ensures AccessEntry(flags) in OPEN_NAMES
  {
    var e := AccessEntry(flags);
    assert e == ACCESS_MODES[0] || e == ACCESS_MODES[1] || e == ACCESS_MODES[2];
    assert e in ACCESS_MODES;
  }

  /** The open flags of the program can be read back exactly when not both access-mode bits are set. */
  lemma {:induction false} ProgramOpenFlags(flags: bv64)
    ensures Meaning(OPEN_NAMES, OpenText(OPEN_FLAGS, flags)) == flags <==> And(flags, O_ACCMODE) != O_ACCMODE
  {
    OpenNamesApart();
    AccessIsNamed(flags);
    OpenRoundTripIff(OPEN_FLAGS, OPEN_NAMES, flags);
  }

  /** The clone argument of the program, whatever its exit signal, can be read back exactly when it
      has an exit signal, or no flags, or a named flag. */
  lemma {:induction false} ProgramCloneFlags(value: bv64, abbrev: Option<string>)
    requires abbrev.Some? ==> '|' !in abbrev.value
    ensures var flags, sig := Without(value, CSIGNAL), And(value, CSIGNAL);
            Meaning(CloneNames(sig, abbrev), CloneText(CLONE_FLAGS, flags, SignalText(sig, abbrev))) == value
            <==> sig != 0 || flags == 0 || SomeEntryHits(CLONE_FLAGS, flags)
  {
    var flags, sig := Without(value, CSIGNAL), And(value, CSIGNAL);
    LowByte(value);
    if sig == 0 {
      CloneFlagsApart();
      CloneWithoutSignalIff(CLONE_FLAGS, CLONE_FLAGS, flags);
    } else {
      var e := FlagEntry(sig, SignalText(sig, abbrev));
      SignalTextIsPlain(sig, abbrev);
      CloneNamesApart(e);
      assert e in [e];
      CloneWithSignal(CLONE_FLAGS, CLONE_FLAGS + [e], flags, e);
    }
  }

  // ----- Where they fail -----

  lemma {:induction false} WalkOfNothing(table: FlagTable, text: string)
    ensures Walk(table, true, Walked(text, 0)) == Walked(text, 0)
    decreases |table|
  {
    if table != [] {
      assert And(0, table[0].value) == 0;
      WalkOfNothing(table[1..], text);
    }
  }

  lemma {:induction false} ModeAlone(table: FlagTable, names: FlagTable, flags: bv64)
    requires WellNamed(names) && AccessEntry(flags) in names && Without(flags, O_ACCMODE) == 0
    ensures OpenText(table, flags) == AccessMode(flags)
    ensures Meaning(names, AccessMode(flags)) == AccessEntry(flags).value
  {
    WalkOfNothing(table, AccessMode(flags));
    Single(names, AccessMode(flags));
    ValueOfName(names, AccessEntry(flags));
  }

  lemma {:induction false} ThreeIsReadOnly()
    ensures Without(3, O_ACCMODE) == 0 && AccessMode(3) == "O_RDONLY" && AccessEntry(3).value == 0
  {
  }

  /** Open flags 3 are shown as O_RDONLY and read back as 0. */
  lemma {:induction false} BothAccessBits()
    ensures OpenText(OPEN_FLAGS, 3) == "O_RDONLY" && Meaning(OPEN_NAMES, "O_RDONLY") == 0
  {
    ThreeIsReadOnly();
    OpenNamesApart();
    AccessIsNamed(3);
    ModeAlone(OPEN_FLAGS, OPEN_NAMES, 3);
  }

  /** Bit 22, which no entry names. */
  const UNNAMED: bv64 := 0x400000

  ghost predicate NoneHits(table: FlagTable, v: bv64) { forall e :: e in table ==> !Hits(e, v, false) }

  lemma {:induction false} UnnamedBit()
    ensures NoneHits(CLONE_FLAGS, UNNAMED)
  {
    assert NoneHits(CLONE_MEMORY, UNNAMED);
    assert NoneHits(CLONE_SIGNALS, UNNAMED);
    assert NoneHits(CLONE_FAMILY, UNNAMED);
    assert NoneHits(CLONE_SYSTEM, UNNAMED);
    assert NoneHits(CLONE_IDS, UNNAMED);
    assert NoneHits(CLONE_CHILD, UNNAMED);
    assert NoneHits(CLONE_GROUPS, UNNAMED);
    assert NoneHits(CLONE_SPACES, UNNAMED);
    assert NoneHits(CLONE_LAST, UNNAMED);
  }

  /** A clone argument of that bit alone is shown as 0, and read back as 0. */
  lemma {:induction false} UnnamedCloneFlag()
    ensures CloneText(CLONE_FLAGS, UNNAMED, "") == "0" && Meaning(CLONE_FLAGS, "0") == 0
  {
    UnnamedBit();
    MatchedIff(CLONE_FLAGS, UNNAMED);
    CloneFlagsApart();
    WalkTokens(CLONE_FLAGS, false, [], UNNAMED);
    Single(CLONE_FLAGS, "0");
  }
}
