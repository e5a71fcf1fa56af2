/** The text of a directory listing, and when its "..." is right. */
module DirentList {
  import opened Basics
  import opened Bytes
  import opened ChildMemory
  import opened Dirents

  // ----- Rendering -----

  /** How a record is shown; the flag says whether it is the first. */
  type Shower = (Dirent, bool) -> string

  function TypeName(kind: byte): string {
    if kind == 8 then "DT_REG"
    else if kind == 4 then "DT_DIR"
    else if kind == 10 then "DT_LNK"
    else if kind == 2 then "DT_CHR"
    else if kind == 6 then "DT_BLK"
    else if kind == 1 then "DT_FIFO"
    else if kind == 12 then "DT_SOCK"
    else "DT_UNKNOWN"
  }

  function Chars(bs: seq<byte>): string {
    seq(|bs|, i requires 0 <= i < |bs| => bs[i] as char)
  }

  /** The program's own rendering of a record. */
  function DirentText(e: Dirent, first: bool): string {
    (if first then "" else ", ") + "{d_ino=" + Decimal(e.ino) + ", d_off=" + SignedDecimal(e.off)
    + ", d_reclen=" + Decimal(e.reclen) + ", d_name=\"" + Chars(e.name) + "\", d_type=" + TypeName(e.kind) + "}"
  }

  function EntriesText(shower: Shower, es: seq<Dirent>, first: bool): string {
    if es == [] then "" else shower(es[0], first) + EntriesText(shower, es[1..], false)
  }

  function Ellipsis(more: bool, first: bool): string {
    if !more then "" else if first then "..." else ", ..."
  }

  /** A bracketed list of records, with "..." at its end if there are more. */
  function Listing(shower: Shower, es: seq<Dirent>, more: bool): string {
    "[" + (EntriesText(shower, es, true) + (Ellipsis(more, es == []) + "]"))
  }

  /** The list for the bytes read. */
  function ListText(shower: Shower, buf: seq<byte>): string {
    var es := Parse(buf, 0);
    Listing(shower, es, Size(es) < |buf|)
  }

  /** How many bytes are asked for. */
  function Want(ret: nat): nat { Min(ret, MAX_BYTES) }

  /** format_getdents_buf with unbounded room. */
  function GetdentsText(shower: Shower, mem: Memory, addr: nat, ret: int): string {
    if ret <= 0 then "0x" + Hex(addr)
    else
      var got := WordRun(mem, addr, Want(ret));
      if got < HEADER_SIZE then "0x" + Hex(addr) else ListText(shower, BytesAt(mem, addr, got))
  }

  // ----- What fits -----

  ghost predicate Headed(es: seq<Dirent>) { forall i :: 0 <= i < |es| ==> es[i].reclen >= HEADER_SIZE }

  /** The fitting records stay within the bytes. */
  lemma {:induction false} FittingFits(es: seq<Dirent>, got: nat, bound: nat)
    ensures Size(es[..Fitting(es, got, bound)]) <= got
  {
    var k := Fitting(es, got, bound);
    if k > 0 {
      FittingFits(es[1..], got - es[0].reclen, bound - 1);
      assert es[..k][1..] == es[1..][..k - 1];
    }
  }

  /** And no longer list of at most `bound` records does. */
  lemma {:induction false} FittingMaximal(es: seq<Dirent>, got: nat, bound: nat, j: nat)
    requires j <= |es| && j <= bound && Size(es[..j]) <= got
    ensures j <= Fitting(es, got, bound)
  {
    if j > 0 {
      assert es[..j][1..] == es[1..][..j - 1];
      FittingMaximal(es[1..], got - es[0].reclen, bound - 1, j - 1);
    }
  }

  lemma {:induction false} SizeAppend(a: seq<Dirent>, b: seq<Dirent>)
    ensures Size(a + b) == Size(a) + Size(b)
  {
    if a == [] {
      assert a + b == b;
    } else {
      assert (a + b)[1..] == a[1..] + b;
      SizeAppend(a[1..], b);
    }
  }

  /** Longer prefixes are strictly larger. */
  lemma {:induction false} SizeGrows(es: seq<Dirent>, i: nat, j: nat)
    requires Headed(es) && i <= j <= |es|
    ensures Size(es[..i]) + HEADER_SIZE * (j - i) <= Size(es[..j])
    decreases j - i
  {
    if i < j {
      SizeGrows(es, i, j - 1);
      assert es[..j] == es[..j - 1] + [es[j - 1]];
      SizeAppend(es[..j - 1], [es[j - 1]]);
      assert Size([es[j - 1]]) == es[j - 1].reclen by { assert [es[j - 1]][1..] == []; }
    }
  }

  lemma {:induction false} SizeAtMost(es: seq<Dirent>, bound: nat)
    requires forall i :: 0 <= i < |es| ==> es[i].reclen <= bound
    ensures Size(es) <= bound * |es|
  {
    if es != [] {
      SizeAtMost(es[1..], bound);
    }
  }

  lemma {:induction false} PackedHeaded(rs: seq<Record>)
    requires AllWellFormed(rs)
    ensures Headed(Entries(rs))
  {
    if rs != [] {
      PackedHeaded(rs[1..]);
      EntriesCons(rs);
    }
  }

  // ----- The listing of packed records -----

  /** Readable memory that holds a packed directory, as far as it is asked for. */
  ghost predicate Holds(mem: Memory, addr: nat, rs: seq<Record>)
    requires AllWellFormed(rs)
  {
    && (forall i :: 0 <= i < RoundUp(Want(|Pack(rs)|)) ==> Mapped(mem, addr, i))
    && (forall i :: 0 <= i < Want(|Pack(rs)|) ==> ByteAt(mem, addr, i) == Pack(rs)[i])
  }

  /** How many of the records are shown. */
  function Shown(rs: seq<Record>): (k: nat)
    requires AllWellFormed(rs)
    ensures k <= |rs|
  {
    Fitting(Entries(rs), Want(|Pack(rs)|), MAX_ENTRIES)
  }

  /** The text for a packed directory lists the first records that fit, and "..." when they do not
      fill the bytes read. */
  lemma {:induction false} GetdentsOfPacked(shower: Shower, mem: Memory, addr: nat, rs: seq<Record>)
    requires rs != [] && AllWellFormed(rs) && Holds(mem, addr, rs)
    ensures var ret, es := |Pack(rs)|, Entries(rs)[..Shown(rs)];
            GetdentsText(shower, mem, addr, ret) == Listing(shower, es, Size(es) < Want(ret))
  {
    var ret := |Pack(rs)|;
    PackedLength(rs[0]);
    MappedRunUnique(mem, addr, RoundUp(Want(ret)), RoundUp(Want(ret)));
    assert WordRun(mem, addr, Want(ret)) == Want(ret);
    assert BytesAt(mem, addr, Want(ret)) == Pack(rs)[..Want(ret)];
    ParseOfPack(rs, Want(ret), 0);
  }

  lemma {:induction false} ListingsDiffer(shower: Shower, es: seq<Dirent>)
    ensures Listing(shower, es, true) != Listing(shower, es, false)
  {
    assert |Listing(shower, es, true)| > |Listing(shower, es, false)|;
  }

  /** Some of the first eight records end exactly at the read cap. */
  ghost predicate EndsAtCap(es: seq<Dirent>) {
    exists j: nat :: j <= |es| && j <= MAX_ENTRIES && Size(es[..j]) == MAX_BYTES
  }

  /** Whether the shown records leave bytes of the read, or records of the directory, out. */
  lemma {:induction false} CapHidesMoreIff(es: seq<Dirent>, ret: nat)
    requires Headed(es) && ret == Size(es)
    ensures var k := Fitting(es, Want(ret), MAX_ENTRIES);
            (Size(es[..k]) < Want(ret) <==> k < |es|) <==> !(ret > MAX_BYTES && EndsAtCap(es))
  {
    var k := Fitting(es, Want(ret), MAX_ENTRIES);
    FittingFits(es, Want(ret), MAX_ENTRIES);
    SizeGrows(es, k, |es|);
    assert es[..|es|] == es;
    if ret > MAX_BYTES && EndsAtCap(es) {
      var j: nat :| j <= |es| && j <= MAX_ENTRIES && Size(es[..j]) == MAX_BYTES;
      FittingMaximal(es, Want(ret), MAX_ENTRIES, j);
      SizeGrows(es, j, k);
    } else if ret > MAX_BYTES {
      assert Size(es[..k]) != MAX_BYTES;
    }
  }

  /** The program's listing of a packed directory ends in "..." exactly when records are missing
      from it, unless more than 4096 bytes came back and one of the first eight records ends
      exactly there. */
  lemma {:induction false} EllipsisExactIff(shower: Shower, mem: Memory, addr: nat, rs: seq<Record>)
    requires rs != [] && AllWellFormed(rs) && Holds(mem, addr, rs)
    ensures var ret, k := |Pack(rs)|, Shown(rs);
            GetdentsText(shower, mem, addr, ret) == Listing(shower, Entries(rs)[..k], k < |rs|)
            <==> !(ret > MAX_BYTES && EndsAtCap(Entries(rs)))
  {
    GetdentsOfPacked(shower, mem, addr, rs);
    PackedHeaded(rs);
    PackSize(rs);
    CapHidesMoreIff(Entries(rs), |Pack(rs)|);
    ListingsDiffer(shower, Entries(rs)[..Shown(rs)]);
  }

  lemma {:induction false} SmallRecordsMissTheCap(es: seq<Dirent>)
    requires forall i :: 0 <= i < |es| ==> es[i].reclen <= 511
    ensures !EndsAtCap(es)
  {
    forall j: nat | j <= |es| && j <= MAX_ENTRIES
      ensures Size(es[..j]) < MAX_BYTES
    {
      SizeAtMost(es[..j], 511);
    }
  }

  /** With records of at most 511 bytes the ellipsis is always right. */
  lemma {:induction false} EllipsisExactForSmallRecords(shower: Shower, mem: Memory, addr: nat, rs: seq<Record>)
    requires rs != [] && AllWellFormed(rs) && Holds(mem, addr, rs)
    requires forall i :: 0 <= i < |rs| ==> rs[i].e.reclen <= 511
    ensures GetdentsText(shower, mem, addr, |Pack(rs)|) ==
            Listing(shower, Entries(rs)[..Shown(rs)], Shown(rs) < |rs|)
  {
    assert forall i :: 0 <= i < |rs| ==> Entries(rs)[i] == rs[i].e;
    SmallRecordsMissTheCap(Entries(rs));
    EllipsisExactIff(shower, mem, addr, rs);
  }

  // ----- Where it fails -----

  function Copies(r: Record, n: nat): (rs: seq<Record>)
    ensures |rs| == n
  {
    if n == 0 then [] else [r] + Copies(r, n - 1)
  }

  lemma {:induction false} CopiesPack(r: Record, n: nat)
    requires WellFormed(r)
    ensures AllWellFormed(Copies(r, n)) && Size(Entries(Copies(r, n))) == n * r.e.reclen
  {
    if n > 0 {
      CopiesPack(r, n - 1);
      EntriesCons(Copies(r, n));
    }
  }

  lemma {:induction false} CopiesPrefix(r: Record, n: nat, m: nat)
    requires n <= m
    ensures Entries(Copies(r, m))[..n] == Entries(Copies(r, n))
  {
    if n > 0 {
      CopiesPrefix(r, n - 1, m - 1);
      EntriesCons(Copies(r, m));
      EntriesCons(Copies(r, n));
      assert Entries(Copies(r, m))[..n] == [r.e] + Entries(Copies(r, m - 1))[..n - 1];
    }
  }

  const IMAGE_START := 0x1000

  function ImageByte(bs: seq<byte>, a: nat): byte
    requires IMAGE_START <= a < IMAGE_START + |bs|
  {
    bs[a - IMAGE_START]
  }

  /** Memory that holds these bytes and no others. */
  function Image(bs: seq<byte>): Memory {
    map a: nat | IMAGE_START <= a < IMAGE_START + |bs| :: ImageByte(bs, a)
  }

  lemma {:induction false} ImageHolds(rs: seq<Record>)
    requires AllWellFormed(rs) && MAX_BYTES <= |Pack(rs)| < ADDRESS_SPACE - IMAGE_START
    ensures Holds(Image(Pack(rs)), IMAGE_START, rs)
  {
    assert RoundUp(MAX_BYTES) == MAX_BYTES;
  }

  /** A record of 512 bytes. */
  const BIG_RECORD := Record(Dirent(1, 1, 512, 8, [97]), seq(492, _ => 0))

  /** 511 is tight: of nine records of 512 bytes eight are shown, without "...". */
  lemma {:induction false} EllipsisMissing(shower: Shower, r: Record)
    requires WellFormed(r) && r.e.reclen == 512
    ensures WellFormed(BIG_RECORD) && BIG_RECORD.e.reclen == 512
    ensures var rs := Copies(r, 9);
            && AllWellFormed(rs)
            && GetdentsText(shower, Image(Pack(rs)), IMAGE_START, |Pack(rs)|) ==
               Listing(shower, Entries(Copies(r, 8)), false)
  {
    NineRecords(shower, r, 8);
  }

  lemma {:induction false} EightAreShown(r: Record, n: nat)
    requires WellFormed(r) && r.e.reclen == 512 && n == 8
    ensures var rs := Copies(r, n + 1);
            && AllWellFormed(rs) && |Pack(rs)| == 4608 && Shown(rs) == n
            && Entries(rs)[..n] == Entries(Copies(r, n)) && Size(Entries(Copies(r, n))) == MAX_BYTES
  {
    var rs := Copies(r, n + 1);
    CopiesPack(r, n + 1);
    CopiesPack(r, n);
    CopiesPrefix(r, n, n + 1);
    PackSize(rs);
    FittingMaximal(Entries(rs), MAX_BYTES, MAX_ENTRIES, n);
  }

  lemma {:induction false} NineRecords(shower: Shower, r: Record, n: nat)
    requires WellFormed(r) && r.e.reclen == 512 && n == 8
    ensures var rs := Copies(r, n + 1);
            && AllWellFormed(rs)
            && GetdentsText(shower, Image(Pack(rs)), IMAGE_START, |Pack(rs)|) ==
               Listing(shower, Entries(Copies(r, n)), false)
  {
    var rs := Copies(r, n + 1);
    EightAreShown(r, n);
    ImageHolds(rs);
    GetdentsOfPacked(shower, Image(Pack(rs)), IMAGE_START, rs);
  }

  /** An address alone is shown when the call read nothing, or when less than a header of it can be. */
  lemma {:induction false} NothingListed(shower: Shower, mem: Memory, addr: nat, ret: int)
    requires ret <= 0 || WordRun(mem, addr, Min(ret, 4096)) < 19
    ensures GetdentsText(shower, mem, addr, ret) == "0x" + Hex(addr)
  {
  }

  /** How many records are shown: the most, up to eight, that lie within the bytes read, and no more
      than 4096 of those are. */
  lemma {:induction false} ShownIff(rs: seq<Record>, k: nat)
    requires AllWellFormed(rs) && k <= |rs|
    ensures Shown(rs) == k <==>
            var es, got := Entries(rs), Min(|Pack(rs)|, 4096);
            && k <= 8 && Size(es[..k]) <= got
            && (k < 8 && k < |rs| ==> Size(es[..k + 1]) > got)
  {
    var es, got, f := Entries(rs), Min(|Pack(rs)|, 4096), Shown(rs);
    PackedHeaded(rs);
    FittingFits(es, got, MAX_ENTRIES);
    if f < 8 && f < |rs| && Size(es[..f + 1]) <= got {
      FittingMaximal(es, got, MAX_ENTRIES, f + 1);
    }
    if k <= 8 && Size(es[..k]) <= got {
      FittingMaximal(es, got, MAX_ENTRIES, k);
      if k < f {
        SizeGrows(es, k + 1, f);
      }
    }
  }
}
