/** The parsing loop of format_getdents_buf (src/decoders.c). */
module Getdents {
  import opened Basics
  import opened Bytes
  import opened BoundedText
  import opened ChildMemory
  import opened ChildStrings
  import opened Dirents
  import opened DirentList

  lemma {:induction false} EntriesTextSnoc(shower: Shower, es: seq<Dirent>, e: Dirent, first: bool)
    ensures EntriesText(shower, es + [e], first) ==
            EntriesText(shower, es, first) + shower(e, first && es == [])
  {
    if es == [] {
      assert es + [e] == [e] && [e][1..] == [];
    } else {
      assert (es + [e])[1..] == es[1..] + [e];
      EntriesTextSnoc(shower, es[1..], e, false);
      Regroup(shower(es[0], first), EntriesText(shower, es[1..], false), shower(e, false));
    }
  }

  lemma {:induction false} SizeSnoc(es: seq<Dirent>, e: Dirent)
    ensures Size(es + [e]) == Size(es) + e.reclen
  {
    SizeAppend(es, [e]);
    assert [e][1..] == [];
  }

  lemma {:induction false} SliceOfSlice(s: seq<byte>, pos: nat, n: nat, a: nat, b: nat)
    requires a <= b <= n && pos + n <= |s|
    ensures s[pos..pos + n][a..b] == s[pos + a..pos + b]
  {
    var x, y := s[pos..pos + n][a..b], s[pos + a..pos + b];
    assert |x| == |y|;
    assert forall i :: 0 <= i < |x| ==> x[i] == s[pos..pos + n][a + i] == y[i];
  }

  /** The fields of the record at pos, taken from the buffer one by one. */
  method TakeRecord(buf: array<byte>, pos: nat, reclen: nat, ghost rest: seq<byte>) returns (e: Dirent)
    requires pos + |rest| <= buf.Length && rest == buf[..][pos..pos + |rest|]
    requires Whole(rest) && reclen == RecLen(rest)
    ensures e == FrontEntry(rest)
  {
    SliceOfSlice(buf[..], pos, |rest|, 0, 8);
    SliceOfSlice(buf[..], pos, |rest|, 8, 16);
    SliceOfSlice(buf[..], pos, |rest|, HEADER_SIZE, reclen);
    assert rest[..8] == rest[0..8];
    var ino := FromLE(buf[..][pos..pos + 8]);
    var off := Signed(FromLE(buf[..][pos + 8..pos + 16]));
    var room := buf[..][pos + HEADER_SIZE..pos + reclen];
    var len := 0;
    while len < |room| && room[len] != 0
      invariant len <= |room| && forall i :: 0 <= i < len ==> room[i] != 0
    {
      len := len + 1;
    }
    StrlenUnique(room, len);
    assert rest[18] == buf[pos + 18];
    e := Dirent(ino, off, reclen, buf[pos + 18], room[..len]);
  }

  /** The loop is at pos, having rendered es. */
  ghost predicate Walking(bs: seq<byte>, pos: nat, es: seq<Dirent>) {
    && pos <= |bs| && pos == Size(es) && |es| <= MAX_ENTRIES
    && Parse(bs, 0) == es + Parse(bs[pos..], |es|)
  }

  lemma {:induction false} WalkingStarts(bs: seq<byte>)
    ensures Walking(bs, 0, [])
  {
    assert bs[0..] == bs;
    assert [] + Parse(bs, 0) == Parse(bs, 0);
  }

  lemma {:induction false} ParseFront(rest: seq<byte>, count: nat)
    requires Whole(rest) && count < MAX_ENTRIES
    ensures Parse(rest, count) == [FrontEntry(rest)] + Parse(rest[RecLen(rest)..], count + 1)
  {
  }

  lemma {:induction false} WalkingGoes(bs: seq<byte>, pos: nat, es: seq<Dirent>, e: Dirent, next: seq<byte>)
    requires Walking(bs, pos, es) && |es| < MAX_ENTRIES && pos + e.reclen <= |bs|
    requires next == bs[pos + e.reclen..] && Parse(bs[pos..], |es|) == [e] + Parse(next, |es| + 1)
    ensures Walking(bs, pos + e.reclen, es + [e])
  {
    Regroup(es, [e], Parse(next, |es| + 1));
    SizeSnoc(es, e);
  }

  lemma {:induction false} WalkingStops(bs: seq<byte>, pos: nat, es: seq<Dirent>)
    requires Walking(bs, pos, es) && (!Whole(bs[pos..]) || |es| >= MAX_ENTRIES)
    ensures Parse(bs, 0) == es
  {
  }

  /** The loop cannot go on from pos. */
  predicate Stuck(bs: seq<byte>, pos: nat, count: nat)
    requires pos <= |bs|
  {
    !Whole(bs[pos..]) || count >= MAX_ENTRIES
  }

  lemma {:induction false} WalkEnds(bs: seq<byte>, pos: nat, es: seq<Dirent>, more: bool)
    requires Walking(bs, pos, es) && Stuck(bs, pos, |es|) && (more ==> pos < |bs|)
    ensures Parse(bs, 0) == es && (more || pos < |bs| <==> Size(es) < |bs|)
  {
    WalkingStops(bs, pos, es);
  }

  /** One more record. */
  lemma {:induction false} WalkGoes(bs: seq<byte>, pos: nat, es: seq<Dirent>, next: seq<Dirent>, reclen: nat)
    requires Walking(bs, pos, es) && |es| < MAX_ENTRIES && Whole(bs[pos..])
    requires next == es + [FrontEntry(bs[pos..])] && reclen == RecLen(bs[pos..])
    ensures Walking(bs, pos + reclen, next) && |next| == |es| + 1
  {
    var rest := bs[pos..];
    ParseFront(rest, |es|);
    assert rest[reclen..] == bs[pos + reclen..];
    WalkingGoes(bs, pos, es, FrontEntry(rest), bs[pos + reclen..]);
  }

  lemma {:induction false} TextGrows(shower: Shower, sofar: string, es: seq<Dirent>, e: Dirent, first: bool)
    requires first <==> es == []
    ensures sofar + EntriesText(shower, es + [e], true) ==
            (sofar + EntriesText(shower, es, true)) + shower(e, first)
  {
    EntriesTextSnoc(shower, es, e, true);
    Regroup(sofar, EntriesText(shower, es, true), shower(e, first));
  }

  /** The length of the record at pos, or 0 when the loop must stop. */
  method NextLength(buf: array<byte>, got: nat, pos: nat, count: nat, ghost bs: seq<byte>) returns (reclen: nat)
    requires pos + HEADER_SIZE <= got <= buf.Length && bs == buf[..got]
    ensures reclen == 0 ==> Stuck(bs, pos, count)
    ensures reclen != 0 ==> Whole(bs[pos..]) && count < MAX_ENTRIES && reclen == RecLen(bs[pos..])
  {
    ghost var rest := bs[pos..];
    assert rest == buf[..][pos..pos + |rest|];
    SliceOfSlice(buf[..], pos, |rest|, 16, 18);
    reclen := FromLE(buf[..][pos + 16..pos + 18]);
    assert reclen == RecLen(rest);
    if reclen < HEADER_SIZE || pos + reclen > got || count >= MAX_ENTRIES {
      reclen := 0;
    }
  }

  /** Renders the record at pos. */
  method PrintRecord(buf: array<byte>, got: nat, pos: nat, reclen: nat, first: bool, shower: Shower,
                     out: array<char>, oi0: nat, ghost bs: seq<byte>, ghost e: Dirent, ghost text: string)
    returns (oi: nat)
    requires pos <= got <= buf.Length && bs == buf[..got] && Whole(bs[pos..]) && reclen == RecLen(bs[pos..])
    requires e == FrontEntry(bs[pos..]) && Reached(out[..], oi0, text)
    modifies out
    ensures Reached(out[..], oi, text + shower(e, first))
  {
    ghost var rest := bs[pos..];
    assert rest == buf[..][pos..pos + |rest|];
    var front := TakeRecord(buf, pos, reclen, rest);
    oi := Append(out, oi0, shower(front, first), text);
  }

  /** Renders the record at pos, or sees that the loop must stop. */
  method TryRecord(buf: array<byte>, got: nat, pos: nat, count: nat, shower: Shower,
                    out: array<char>, oi0: nat, ghost bs: seq<byte>, ghost text: string)
    returns (reclen: nat, oi: nat, ghost e: Dirent)
    requires pos + HEADER_SIZE <= got <= buf.Length && bs == buf[..got]
    requires Reached(out[..], oi0, text)
    modifies out
    ensures reclen == 0 ==> Stuck(bs, pos, count) && Reached(out[..], oi, text)
    ensures reclen != 0 ==>
              && count < MAX_ENTRIES && Whole(bs[pos..]) && e == FrontEntry(bs[pos..]) && reclen == e.reclen
              && Reached(out[..], oi, text + shower(e, count == 0))
  {
    reclen := NextLength(buf, got, pos, count, bs);
    if reclen == 0 {
      oi, e := oi0, *;
    } else {
      e := FrontEntry(bs[pos..]);
      oi := PrintRecord(buf, got, pos, reclen, count == 0, shower, out, oi0, bs, e, text);
    }
  }

  /** One turn of the parsing loop. */
  method StepRecord(buf: array<byte>, got: nat, pos: nat, count: nat, shower: Shower,
                    out: array<char>, oi0: nat, ghost sofar: string, ghost bs: seq<byte>, ghost es: seq<Dirent>)
    returns (reclen: nat, oi: nat, ghost next: seq<Dirent>)
    requires pos + HEADER_SIZE <= got <= buf.Length && bs == buf[..got]
    requires Walking(bs, pos, es) && count == |es|
    requires Reached(out[..], oi0, sofar + EntriesText(shower, es, true))
    modifies out
    ensures reclen == 0 ==> Stuck(bs, pos, count) && next == es
    ensures reclen != 0 ==> Walking(bs, pos + reclen, next) && |next| == count + 1
    ensures Reached(out[..], oi, sofar + EntriesText(shower, next, true))
  {
    ghost var e;
    reclen, oi, e := TryRecord(buf, got, pos, count, shower, out, oi0, bs, sofar + EntriesText(shower, es, true));
    if reclen == 0 {
      next := es;
    } else {
      next := es + [e];
      WalkGoes(bs, pos, es, next, reclen);
      TextGrows(shower, sofar, es, e, count == 0);
    }
  }

  /** The parsing loop over the first `got` bytes; every access lies below got. */
  method WalkRecords(buf: array<byte>, got: nat, shower: Shower, out: array<char>, oi0: nat, ghost sofar: string)
    returns (oi: nat, count: nat, more: bool)
    requires HEADER_SIZE <= got <= buf.Length
    requires Reached(out[..], oi0, sofar)
    modifies out
    ensures var es := Parse(buf[..got], 0);
            && Reached(out[..], oi, sofar + EntriesText(shower, es, true))
            && count == |es|
            && (more <==> Size(es) < got)
  {
    ghost var bs, es: seq<Dirent> := buf[..got], [];
    var pos := 0;
    oi, count, more := oi0, 0, false;
    WalkingStarts(bs);
    assert sofar + "" == sofar;
    while pos + HEADER_SIZE <= got
      invariant bs == buf[..got] && Walking(bs, pos, es) && count == |es| && !more
      invariant Reached(out[..], oi, sofar + EntriesText(shower, es, true))
      decreases got - pos
    {
      var reclen;
      reclen, oi, es := StepRecord(buf, got, pos, count, shower, out, oi, sofar, bs, es);
      if reclen == 0 {
        more := true;
        break;
      }
      pos := pos + reclen;
      count := count + 1;
    }
    WalkEnds(bs, pos, es, more);
    if pos < got {
      more := true;
    }
  }

  /** format_getdents_buf for any way of showing a record: for every buffer size the output is one
      bounded print of the text. */
  method FormatListing(mem: Memory, addr: nat, ret: int, shower: Shower, out: array<char>)
    modifies out
    ensures Printed(out[..], GetdentsText(shower, mem, addr, ret))
  {
    if ret <= 0 {
      var _ := Begin(out, "0x" + Hex(addr));
      return;
    }
    var want := if ret < MAX_BYTES then ret else MAX_BYTES;
    var buf := new byte[MAX_BYTES];
    var got := ReadChildRaw(mem, addr, buf, want);
    if got < HEADER_SIZE {
      var _ := Begin(out, "0x" + Hex(addr));
      return;
    }
    FormatRecords(buf, got, shower, out);
  }

  /** The bracketed list of the first `got` bytes. */
  method FormatRecords(buf: array<byte>, got: nat, shower: Shower, out: array<char>)
    requires HEADER_SIZE <= got <= buf.Length
    modifies out
    ensures Printed(out[..], ListText(shower, buf[..got]))
  {
    var oi := Begin(out, "[");
    var count, more;
    oi, count, more := WalkRecords(buf, got, shower, out, oi, "[");
    ghost var es := Parse(buf[..got], 0);
    oi := CloseRecords(out, oi, count, more, "[" + EntriesText(shower, es, true));
    Regroup("[", EntriesText(shower, es, true), Ellipsis(more, es == []) + "]");
  }

  method CloseRecords(out: array<char>, oi0: nat, count: nat, more: bool, ghost sofar: string) returns (oi: nat)
    requires Reached(out[..], oi0, sofar)
    modifies out
    ensures Reached(out[..], oi, sofar + (Ellipsis(more, count == 0) + "]"))
  {
    oi := oi0;
    ghost var dots := Ellipsis(more, count == 0);
    if more {
      oi := Append(out, oi, if count != 0 then ", ..." else "...", sofar);
    } else {
      assert sofar + "" == sofar;
    }
    oi := Append(out, oi, "]", sofar + dots);
    Regroup(sofar, dots, "]");
  }

  /** format_getdents_buf: the output is one bounded print of the program's own text. */
  method FormatGetdents(mem: Memory, addr: nat, ret: int, out: array<char>)
    modifies out
    ensures Printed(out[..], GetdentsText(DirentText, mem, addr, ret))
  {
    FormatListing(mem, addr, ret, DirentText, out);
  }
}
