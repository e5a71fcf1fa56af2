/** The packed directory entries of getdents64 (src/decoders.c) as values: packing and parsing. */
module Dirents {
  import opened Bytes
  import opened ChildStrings

  const HEADER_SIZE := 19
  const MAX_BYTES := 4096
  const MAX_ENTRIES := 8

  datatype Dirent = Dirent(ino: nat, off: int, reclen: nat, kind: byte, name: seq<byte>)

  // ----- Parsing -----

  /** A 64-bit pattern as a signed number. */
  function Signed(n: nat): int {
    if n < 0x8000_0000_0000_0000 then n else n - 0x1_0000_0000_0000_0000
  }

  function RecLen(buf: seq<byte>): nat
    requires |buf| >= HEADER_SIZE
  {
    FromLE(buf[16..18])
  }

  /** The bytes begin with a whole record. */
  predicate Whole(buf: seq<byte>) {
    |buf| >= HEADER_SIZE && HEADER_SIZE <= RecLen(buf) <= |buf|
  }

  /** The record at the front; its name ends at the first NUL or with the record. */
  function FrontEntry(buf: seq<byte>): Dirent
    requires Whole(buf)
  {
    var room := buf[HEADER_SIZE..RecLen(buf)];
    Dirent(FromLE(buf[..8]), Signed(FromLE(buf[8..16])), RecLen(buf), buf[18], room[..Strlen(room)])
  }

  /** The records the loop renders, having rendered `count` before. */
  function Parse(buf: seq<byte>, count: nat): seq<Dirent>
    decreases |buf|
  {
    if !Whole(buf) || count >= MAX_ENTRIES then []
    else [FrontEntry(buf)] + Parse(buf[RecLen(buf)..], count + 1)
  }

  function Size(es: seq<Dirent>): nat {
    if es == [] then 0 else es[0].reclen + Size(es[1..])
  }

  /** The rendered records lie within the bytes. */
  lemma {:induction false} ParsedSize(buf: seq<byte>, count: nat)
    ensures Size(Parse(buf, count)) <= |buf|
    decreases |buf|
  {
    if Whole(buf) && count < MAX_ENTRIES {
      var rest := buf[RecLen(buf)..];
      ParsedSize(rest, count + 1);
      assert Parse(buf, count)[1..] == Parse(rest, count + 1);
    }
  }

  // ----- Packing -----

  /** A record as the kernel writes it: the fields, the name, and padding that starts with a NUL. */
  datatype Record = Record(e: Dirent, pad: seq<byte>)

  function Unsigned(n: int): int { if n < 0 then n + 0x1_0000_0000_0000_0000 else n }

  ghost predicate WellFormed(r: Record) {
    && r.e.ino < 0x1_0000_0000_0000_0000
    && -0x8000_0000_0000_0000 <= r.e.off < 0x8000_0000_0000_0000
    && r.e.reclen == HEADER_SIZE + |r.e.name| + |r.pad| < 0x1_0000
    && 0 !in r.e.name
    && (r.pad == [] || r.pad[0] == 0)
  }

  function PackOne(r: Record): seq<byte>
    requires WellFormed(r)
  {
    ToLE(r.e.ino, 8) + ToLE(Unsigned(r.e.off), 8) + ToLE(r.e.reclen, 2) + [r.e.kind] + r.e.name + r.pad
  }

  ghost predicate AllWellFormed(rs: seq<Record>) {
    rs == [] || (WellFormed(rs[0]) && AllWellFormed(rs[1..]))
  }

  function Pack(rs: seq<Record>): seq<byte>
    requires AllWellFormed(rs)
  {
    if rs == [] then [] else PackOne(rs[0]) + Pack(rs[1..])
  }

  function Entries(rs: seq<Record>): (es: seq<Dirent>)
    ensures |es| == |rs|
  {
    seq(|rs|, i requires 0 <= i < |rs| => rs[i].e)
  }

  /** Where the fields of a packed record are. */
  lemma {:induction false} PackedFields(r: Record, rest: seq<byte>)
    requires WellFormed(r)
    ensures var b := PackOne(r) + rest;
            && |PackOne(r)| == r.e.reclen
            && b[..8] == ToLE(r.e.ino, 8) && b[8..16] == ToLE(Unsigned(r.e.off), 8)
            && b[16..18] == ToLE(r.e.reclen, 2) && b[18] == r.e.kind
            && b[HEADER_SIZE..r.e.reclen] == r.e.name + r.pad && b[r.e.reclen..] == rest
  {
  }

  lemma {:induction false} PackedLength(r: Record)
    requires WellFormed(r)
    ensures |PackOne(r)| == r.e.reclen
  {
  }

  lemma {:induction false} NameOfRoom(name: seq<byte>, pad: seq<byte>)
    requires 0 !in name && (pad == [] || pad[0] == 0)
    ensures (name + pad)[..Strlen(name + pad)] == name
  {
    StrlenUnique(name + pad, |name|);
  }

  /** The parser reads a packed record back, whatever follows it. */
  lemma {:induction false} FrontOfPacked(r: Record, rest: seq<byte>)
    requires WellFormed(r)
    ensures Whole(PackOne(r) + rest) && FrontEntry(PackOne(r) + rest) == r.e
    ensures RecLen(PackOne(r) + rest) == r.e.reclen == |PackOne(r)|
  {
    WideEnough();
    PackedFields(r, rest);
    LERoundTrip(r.e.ino, 8);
    LERoundTrip(Unsigned(r.e.off), 8);
    LERoundTrip(r.e.reclen, 2);
    NameOfRoom(r.e.name, r.pad);
  }

  /** A record cut short is not taken for a whole one. */
  lemma {:induction false} CutRecord(r: Record, got: nat)
    requires WellFormed(r) && got < r.e.reclen
    ensures |PackOne(r)| == r.e.reclen && !Whole(PackOne(r)[..got])
  {
    WideEnough();
    PackedFields(r, []);
    assert PackOne(r) + [] == PackOne(r);
    LERoundTrip(r.e.reclen, 2);
    if got >= HEADER_SIZE {
      assert PackOne(r)[..got][16..18] == PackOne(r)[16..18];
    }
  }

  /** How many of the records, up to a bound, lie whole within the first `got` bytes. */
  function Fitting(es: seq<Dirent>, got: nat, bound: nat): (k: nat)
    ensures k <= |es| && k <= bound
  {
    if es == [] || bound == 0 || es[0].reclen > got then 0
    else 1 + Fitting(es[1..], got - es[0].reclen, bound - 1)
  }

  lemma {:induction false} ParseCons(r: Record, rest: seq<byte>, count: nat)
    requires WellFormed(r) && count < MAX_ENTRIES
    ensures Parse(PackOne(r) + rest, count) == [r.e] + Parse(rest, count + 1)
  {
    FrontOfPacked(r, rest);
    assert (PackOne(r) + rest)[r.e.reclen..] == rest;
  }

  lemma {:induction false} ParseCut(r: Record, got: nat, count: nat)
    requires WellFormed(r) && got < r.e.reclen
    ensures |PackOne(r)| == r.e.reclen && Parse(PackOne(r)[..got], count) == []
  {
    CutRecord(r, got);
  }

  lemma {:induction false} PrefixOfConcat(a: seq<byte>, b: seq<byte>, n: nat)
    requires n <= |a + b|
    ensures (a + b)[..n] == if n < |a| then a[..n] else a + b[..n - |a|]
  {
  }

  lemma {:induction false} FittingCons(e: Dirent, es: seq<Dirent>, got: nat, bound: nat)
    requires bound > 0 && e.reclen <= got
    ensures var k := Fitting(es, got - e.reclen, bound - 1);
            Fitting([e] + es, got, bound) == k + 1 && ([e] + es)[..k + 1] == [e] + es[..k]
  {
    assert ([e] + es)[1..] == es;
  }

  /** The bytes of a packed list up to some point in its first record, or past it. */
  lemma {:induction false} ParsePrefix(r: Record, rest: seq<byte>, got: nat, count: nat)
    requires WellFormed(r) && count < MAX_ENTRIES && got <= |PackOne(r) + rest|
    ensures |PackOne(r)| == r.e.reclen
    ensures Parse((PackOne(r) + rest)[..got], count) ==
            if got < r.e.reclen then [] else [r.e] + Parse(rest[..got - r.e.reclen], count + 1)
  {
    PackedLength(r);
    PrefixOfConcat(PackOne(r), rest, got);
    if got < r.e.reclen {
      ParseCut(r, got, count);
    } else {
      ParseCons(r, rest[..got - r.e.reclen], count);
    }
  }

  lemma {:induction false} EntriesCons(rs: seq<Record>)
    requires rs != []
    ensures Entries(rs) == [rs[0].e] + Entries(rs[1..])
  {
  }

  lemma {:induction false} FittingNone(e: Dirent, es: seq<Dirent>, got: nat, bound: nat)
    requires e.reclen > got
    ensures ([e] + es)[..Fitting([e] + es, got, bound)] == []
  {
  }

  lemma {:induction false} ParseStep(r: Record, rest: seq<byte>, es: seq<Dirent>, got: nat, count: nat)
    requires WellFormed(r) && count < MAX_ENTRIES && got <= |PackOne(r) + rest|
    requires |PackOne(r)| == r.e.reclen <= got ==>
               Parse(rest[..got - r.e.reclen], count + 1) ==
               es[..Fitting(es, got - r.e.reclen, MAX_ENTRIES - count - 1)]
    ensures Parse((PackOne(r) + rest)[..got], count) ==
            ([r.e] + es)[..Fitting([r.e] + es, got, MAX_ENTRIES - count)]
  {
    ParsePrefix(r, rest, got, count);
    if got < r.e.reclen {
      FittingNone(r.e, es, got, MAX_ENTRIES - count);
    } else {
      FittingCons(r.e, es, got, MAX_ENTRIES - count);
    }
  }

  lemma {:induction false} ParseNothing(buf: seq<byte>, es: seq<Dirent>, got: nat, count: nat)
    requires count <= MAX_ENTRIES && ((buf == [] && es == []) || count == MAX_ENTRIES)
    ensures Parse(buf, count) == es[..Fitting(es, got, MAX_ENTRIES - count)]
  {
  }

  /** Parsing undoes packing: from the first `got` bytes of any packed list, the parser gives
      back exactly the first records that lie whole within them, eight at most. */
  lemma {:induction false} ParseOfPack(rs: seq<Record>, got: nat, count: nat)
    requires AllWellFormed(rs)
    requires count <= MAX_ENTRIES && got <= |Pack(rs)|
    ensures Parse(Pack(rs)[..got], count) == Entries(rs)[..Fitting(Entries(rs), got, MAX_ENTRIES - count)]
    decreases |rs|
  {
    if rs == [] || count == MAX_ENTRIES {
      ParseNothing(Pack(rs)[..got], Entries(rs), got, count);
    } else {
      var r, tail := rs[0], rs[1..];
      PackedLength(r);
      if r.e.reclen <= got {
        ParseOfPack(tail, got - r.e.reclen, count + 1);
      }
      EntriesCons(rs);
      ParseStep(r, Pack(tail), Entries(tail), got, count);
    }
  }

  lemma {:induction false} PackSize(rs: seq<Record>)
    requires AllWellFormed(rs)
    ensures |Pack(rs)| == Size(Entries(rs))
  {
    if rs != [] {
      PackedLength(rs[0]);
      PackSize(rs[1..]);
      assert Entries(rs)[1..] == Entries(rs[1..]);
    }
  }
}
