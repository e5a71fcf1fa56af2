/** The iovec arrays of readv, writev, sendmsg and recvmsg (src/decoders.c). */
module Iovec {
  import opened Bytes
  import opened BoundedText
  import opened ChildMemory
  import opened ChildStrings
  import opened CStrings
  import opened IovecShares
  import opened Options
  import opened Basics

  const IOVEC_ARRAY_MAX := 8
  const IOVEC_SIZE := 16

  function ReadDescriptor(mem: Memory, addr: nat, i: nat): Option<Descriptor> {
    var at := At(addr, i * IOVEC_SIZE);
    if WordRun(mem, at, IOVEC_SIZE) < IOVEC_SIZE then None
    else
      var bs := BytesAt(mem, at, IOVEC_SIZE);
      Some(Descriptor(FromLE(bs[..8]), FromLE(bs[8..])))
  }

  /** The descriptors walked: from i up to n, ending at the first unreadable one. */
  function Descriptors(mem: Memory, addr: nat, i: nat, n: nat): seq<Descriptor>
    decreases n - i
  {
    if i >= n then []
    else
      var d := ReadDescriptor(mem, addr, i);
      if d.None? then [] else [d.value] + Descriptors(mem, addr, i + 1, n)
  }

  /** How a slice is shown; the flag says whether it is the first. */
  type Shower = (Slice, bool) -> string

  /** The text of a slice: its bytes as read_child_buffer shows them, and its declared length. */
  function SliceText(mem: Memory, s: Slice, first: bool, maxLen: nat): string {
    (if first then "" else ", ") + "{iov_base=" + BufferText(mem, s.d.base, s.show, maxLen, STR_ARG_BUF_LEN)
    + ", iov_len=" + Decimal(s.d.len) + "}"
  }

  function SliceShower(mem: Memory, maxLen: nat): Shower {
    (s: Slice, first: bool) => SliceText(mem, s, first, maxLen)
  }

  function SlicesText(shower: Shower, ss: seq<Slice>, first: bool): string {
    if ss == [] then ""
    else shower(ss[0], first) + SlicesText(shower, ss[1..], false)
  }

  /** format_iovec_array with unbounded room. */
  function IovecText(shower: Shower, mem: Memory, addr: nat, count: nat, total: int): string {
    if addr == 0 then "NULL"
    else
      var ds := Descriptors(mem, addr, 0, Min(count, IOVEC_ARRAY_MAX));
      "[" + (SlicesText(shower, Slices(ds, total), true) +
             ((if count > IOVEC_ARRAY_MAX then ", ..." else "") + "]"))
  }

  // ----- The walk -----

  /** The program's text of one slice, made by read_child_buffer in a local buffer of 1024
      characters and printed from there with %s. */
  method SliceToText(mem: Memory, s: Slice, first: bool, maxLen: nat) returns (text: string)
    ensures text == SliceText(mem, s, first, maxLen)
  {
    var iovbuf := new char[STR_ARG_BUF_LEN];
    var _ := ReadChildBuffer(mem, s.d.base, s.show, maxLen, iovbuf);
    ghost var shown := BufferText(mem, s.d.base, s.show, maxLen, STR_ARG_BUF_LEN);
    BufferTextHasNoNul(mem, s.d.base, s.show, maxLen, STR_ARG_BUF_LEN);
    var item := CString(iovbuf, shown);
    text := (if first then "" else ", ") + "{iov_base=" + item + ", iov_len=" + Decimal(s.d.len) + "}";
  }

  /** The descriptor at position i. */
  method FetchDescriptor(mem: Memory, addr: nat, i: nat) returns (d: Option<Descriptor>)
    ensures d == ReadDescriptor(mem, addr, i)
  {
    var iov := new byte[IOVEC_SIZE];
    var got := ReadChildRaw(mem, At(addr, i * IOVEC_SIZE), iov, IOVEC_SIZE);
    if got < IOVEC_SIZE {
      return None;
    }
    assert iov[..][..8] == iov[..8] && iov[..][8..] == iov[8..];
    assert iov[..] == iov[..IOVEC_SIZE];
    d := Some(Descriptor(FromLE(iov[..8]), FromLE(iov[8..])));
  }

  /** What is still to be printed from descriptor i on. */
  ghost function Remaining(shower: Shower, mem: Memory, addr: nat, i: nat, n: nat, left: int): string
    decreases n - i
  {
    if i >= n then ""
    else
      var d := ReadDescriptor(mem, addr, i);
      if d.None? then ""
      else shower(Slice(d.value, Share(d.value, left)), i == 0)
           + Remaining(shower, mem, addr, i + 1, n, Left(d.value, left))
  }

  lemma {:induction false} SlicesTextCons(shower: Shower, d: Descriptor, ds: seq<Descriptor>, left: int, first: bool)
    ensures SlicesText(shower, Slices([d] + ds, left), first) ==
            shower(Slice(d, Share(d, left)), first)
            + SlicesText(shower, Slices(ds, Left(d, left)), false)
  {
    assert ([d] + ds)[1..] == ds;
    var ss := Slices([d] + ds, left);
    assert ss[1..] == Slices(ds, Left(d, left));
  }

  lemma {:induction false} RemainingIsSlices(shower: Shower, mem: Memory, addr: nat, i: nat, n: nat, left: int)
    ensures Remaining(shower, mem, addr, i, n, left) ==
            SlicesText(shower, Slices(Descriptors(mem, addr, i, n), left), i == 0)
    decreases n - i
  {
    if i < n {
      var d := ReadDescriptor(mem, addr, i);
      if d.Some? {
        RemainingIsSlices(shower, mem, addr, i + 1, n, Left(d.value, left));
        var ds := Descriptors(mem, addr, i + 1, n);
        assert Descriptors(mem, addr, i, n) == [d.value] + ds;
        SlicesTextCons(shower, d.value, ds, left, i == 0);
      }
    }
  }

  /** One turn of the loop: the text of descriptor i, if it can be read, and the budget left. */
  method NextPiece(mem: Memory, addr: nat, i: nat, n: nat, total: int, left0: int, maxLen: nat, ghost shower: Shower)
    returns (piece: Option<string>, left: int)
    requires i < n && (total >= 0 <==> left0 >= 0) && shower == SliceShower(mem, maxLen)
    ensures total >= 0 <==> left >= 0
    ensures Remaining(shower, mem, addr, i, n, left0) ==
            if piece.None? then "" else piece.value + Remaining(shower, mem, addr, i + 1, n, left)
  {
    left := left0;
    var d := FetchDescriptor(mem, addr, i);
    if d.None? {
      return None, left;
    }
    var show := d.value.len;
    if total >= 0 {
      var avail := if left > 0 then left else 0;
      if show > avail {
        show := avail;
      }
      left := left - show;
    }
    assert show == Share(d.value, left0) && left == Left(d.value, left0);
    var text := SliceToText(mem, Slice(d.value, show), i == 0, maxLen);
    piece := Some(text);
  }

  /** Prints one descriptor, or finds that it cannot be read. */
  method PrintDescriptor(mem: Memory, addr: nat, i: nat, n: nat, total: int, left0: int, maxLen: nat,
                         out: array<char>, oi0: nat, ghost shower: Shower, ghost sofar: string)
    returns (ok: bool, oi: nat, left: int, ghost text: string, ghost rest: string)
    requires i < n && (total >= 0 <==> left0 >= 0) && shower == SliceShower(mem, maxLen)
    requires Reached(out[..], oi0, sofar)
    modifies out
    ensures total >= 0 <==> left >= 0
    ensures Reached(out[..], oi, text)
    ensures rest == if ok then Remaining(shower, mem, addr, i + 1, n, left) else []
    ensures sofar + Remaining(shower, mem, addr, i, n, left0) == text + rest
  {
    var piece;
    piece, left := NextPiece(mem, addr, i, n, total, left0, maxLen, shower);
    if piece.None? {
      ok, oi, text, rest := false, oi0, sofar, [];
    } else {
      ok := true;
      oi := Append(out, oi0, piece.value, sofar);
      text := sofar + piece.value;
      rest := Remaining(shower, mem, addr, i + 1, n, left);
      Regroup(sofar, piece.value, rest);
    }
  }

  lemma {:induction false} NothingRemains(shower: Shower, mem: Memory, addr: nat, i: nat, n: nat, left: int)
    requires i >= n
    ensures Remaining(shower, mem, addr, i, n, left) == []
  {
  }

  /** The loop has stopped with everything printed, or with a full buffer. */
  lemma {:induction false} WalkStops(buf: seq<char>, oi: nat, text: string, rest: string)
    requires Reached(buf, oi, text) && (oi < |buf| ==> rest == [])
    ensures Reached(buf, oi, text + rest)
  {
    if oi < |buf| {
      assert text + [] == text;
    } else {
      ReachedMore(buf, oi, text, rest);
    }
  }

  /** The loop over the descriptors. */
  method WalkDescriptors(mem: Memory, addr: nat, n: nat, total: int, maxLen: nat, out: array<char>, oi0: nat,
                         ghost shower: Shower, ghost sofar: string)
    returns (oi: nat)
    requires shower == SliceShower(mem, maxLen) && Reached(out[..], oi0, sofar)
    modifies out
    ensures Reached(out[..], oi, sofar + Remaining(shower, mem, addr, 0, n, total))
  {
    oi := oi0;
    ghost var text, rest := sofar, Remaining(shower, mem, addr, 0, n, total);
    ghost var full := text + rest;
    var left, i := total, 0;
    var ok := true;
    while ok && i < n && oi < out.Length
      invariant 0 <= i <= n && (total >= 0 <==> left >= 0)
      invariant Reached(out[..], oi, text) && full == text + rest
      invariant rest == if ok then Remaining(shower, mem, addr, i, n, left) else []
    {
      ok, oi, left, text, rest := PrintDescriptor(mem, addr, i, n, total, left, maxLen, out, oi, shower, text);
      i := i + 1;
    }
    if ok && i >= n {
      NothingRemains(shower, mem, addr, i, n, left);
    }
    WalkStops(out[..], oi, text, rest);
  }

  /** format_iovec_array: for every buffer size the output is one bounded print of the text. */
  method FormatIovecArray(mem: Memory, addr: nat, iovcnt: nat, total: int, maxLen: nat, out: array<char>)
    modifies out
    ensures Printed(out[..], IovecText(SliceShower(mem, maxLen), mem, addr, iovcnt, total))
  {
    if addr == 0 {
      var _ := Begin(out, "NULL");
      return;
    }
    var truncated := iovcnt > IOVEC_ARRAY_MAX;
    var n := if truncated then IOVEC_ARRAY_MAX else iovcnt;
    ghost var shower := SliceShower(mem, maxLen);
    ghost var items := Remaining(shower, mem, addr, 0, n, total);
    RemainingIsSlices(shower, mem, addr, 0, n, total);
    var oi := Begin(out, "[");
    oi := WalkDescriptors(mem, addr, n, total, maxLen, out, oi, shower, "[");
    oi := CloseList(out, oi, truncated, "[" + items);
    Regroup("[", items, (if truncated then ", ..." else "") + "]");
  }
}
