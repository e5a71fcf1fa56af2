/** The text of an iovec array, from the array and the buffers in memory. */
module IovecMemory {
  import opened Basics
  import opened BoundedText
  import opened Bytes
  import opened ChildMemory
  import opened ChildStrings
  import opened ChildTexts
  import opened Escape
  import opened Iovec
  import opened IovecShares
  import opened Options
  import opened TextFields

  // ----- The array -----

  /** A struct iovec: the base address, then the length, eight bytes each. */
  function PackDescriptor(d: Descriptor): seq<byte> { ToLE(d.base, 8) + ToLE(d.len, 8) }

  /** Byte j of descriptor i is where it belongs. */
  ghost predicate HoldsByte(mem: Memory, addr: nat, d: Descriptor, i: nat, j: nat)
    requires j < 16
  {
    Mapped(mem, addr, 16 * i + j) && ByteAt(mem, addr, 16 * i + j) == PackDescriptor(d)[j]
  }

  /** Memory holds the descriptors back to back. */
  ghost predicate HoldsArray(mem: Memory, addr: nat, ds: seq<Descriptor>) {
    && addr < ADDRESS_SPACE && 16 * |ds| <= ADDRESS_SPACE
    && (forall i :: 0 <= i < |ds| ==> ds[i].base < ADDRESS_SPACE && ds[i].len < ADDRESS_SPACE)
    && (forall i, j :: 0 <= i < |ds| && 0 <= j < 16 ==> HoldsByte(mem, addr, ds[i], i, j))
  }

  lemma {:induction false} AtAt(addr: nat, a: nat, b: nat)
    requires addr < ADDRESS_SPACE && a + b < ADDRESS_SPACE
    ensures At(At(addr, a), b) == At(addr, a + b)
  {
  }

  lemma {:induction false} PackedHalves(d: Descriptor)
    requires d.base < ADDRESS_SPACE && d.len < ADDRESS_SPACE
    ensures FromLE(PackDescriptor(d)[..8]) == d.base && FromLE(PackDescriptor(d)[8..]) == d.len
  {
    WideEnough();
    LERoundTrip(d.base, 8);
    LERoundTrip(d.len, 8);
  }

  lemma {:induction false} DescriptorBytes(mem: Memory, addr: nat, ds: seq<Descriptor>, i: nat)
    requires HoldsArray(mem, addr, ds) && i < |ds|
    ensures var at := At(addr, i * IOVEC_SIZE);
            (forall j :: 0 <= j < 16 ==> Mapped(mem, at, j)) && BytesAt(mem, at, 16) == PackDescriptor(ds[i])
  {
    var at := At(addr, i * IOVEC_SIZE);
    forall j | 0 <= j < 16
      ensures Mapped(mem, at, j) && ByteAt(mem, at, j) == PackDescriptor(ds[i])[j]
    {
      assert HoldsByte(mem, addr, ds[i], i, j);
      AtAt(addr, 16 * i, j);
    }
  }

  /** A descriptor of the array is read as what it is: base first, length second. */
  lemma {:induction false} DescriptorReadBack(mem: Memory, addr: nat, ds: seq<Descriptor>, i: nat)
    requires HoldsArray(mem, addr, ds) && i < |ds|
    ensures ReadDescriptor(mem, addr, i) == Some(ds[i])
  {
    var at := At(addr, i * IOVEC_SIZE);
    DescriptorBytes(mem, addr, ds, i);
    assert RoundUp(16) == 16;
    MappedRunUnique(mem, at, 16, 16);
    PackedHalves(ds[i]);
  }

  lemma {:induction false} DescriptorsFrom(mem: Memory, addr: nat, ds: seq<Descriptor>, i: nat, n: nat)
    requires HoldsArray(mem, addr, ds) && i <= n <= |ds|
    ensures Descriptors(mem, addr, i, n) == ds[i..n]
    decreases n - i
  {
    if i < n {
      DescriptorReadBack(mem, addr, ds, i);
      DescriptorsFrom(mem, addr, ds, i + 1, n);
      assert ds[i..n] == [ds[i]] + ds[i + 1..n];
    }
  }

  /** The descriptors shown are the first eight of the array. */
  lemma {:induction false} ArrayReadBack(mem: Memory, addr: nat, ds: seq<Descriptor>)
    requires HoldsArray(mem, addr, ds)
    ensures Descriptors(mem, addr, 0, Min(|ds|, IOVEC_ARRAY_MAX)) == ds[..Min(|ds|, 8)]
  {
    DescriptorsFrom(mem, addr, ds, 0, Min(|ds|, 8));
  }

  /** The descriptors walked are those of the first n that can be read, up to the first that cannot. */
  lemma {:induction false} DescriptorsWalked(mem: Memory, addr: nat, i: nat, n: nat)
    requires i <= n
    ensures var ds := Descriptors(mem, addr, i, n);
            && |ds| <= n - i
            && (forall k :: 0 <= k < |ds| ==> ReadDescriptor(mem, addr, i + k) == Some(ds[k]))
            && (|ds| < n - i ==> ReadDescriptor(mem, addr, i + |ds|).None?)
    decreases n - i
  {
    if i < n && ReadDescriptor(mem, addr, i).Some? {
      var ds, rest := Descriptors(mem, addr, i, n), Descriptors(mem, addr, i + 1, n);
      DescriptorsWalked(mem, addr, i + 1, n);
      forall k | 0 <= k < |ds|
        ensures ReadDescriptor(mem, addr, i + k) == Some(ds[k])
      {
        if k > 0 {
          assert ReadDescriptor(mem, addr, i + 1 + (k - 1)) == Some(rest[k - 1]);
        }
      }
    }
  }

  // ----- The text of a slice -----

  /** The buffer text and the declared length in the text of a slice. */
  function ReadSlice(t: string): Option<(string, nat)> {
    var x := Enclosed(t, "{iov_base=", ',', ", iov_len=");
    if x.None? || !IsDecimal(x.value.1) then None else Some((x.value.0, ParseDecimal(x.value.1)))
  }

  lemma {:induction false} SliceParts(first: string, a: string, item: string, b: string, digits: string, c: string)
    ensures first + a + item + b + digits + c == first + (a + (item + (b + (digits + c))))
  {
    Regroup(first + a + item + b, digits, c);
    Regroup(first + a + item, b, digits + c);
    Regroup(first + a, item, b + (digits + c));
    Regroup(first, a, item + (b + (digits + c)));
  }

  /** From the text of a slice, the text of its buffer and its declared length can be read back. */
  lemma {:induction false} SliceReadBack(mem: Memory, s: Slice, maxLen: nat)
    ensures ReadSlice(SliceText(mem, s, true, maxLen)) ==
            Some((BufferText(mem, s.d.base, s.show, maxLen, STR_ARG_BUF_LEN), s.d.len))
    ensures SliceText(mem, s, false, maxLen) == ", " + SliceText(mem, s, true, maxLen)
  {
    var item, digits := BufferText(mem, s.d.base, s.show, maxLen, STR_ARG_BUF_LEN), Decimal(s.d.len);
    SliceParts("", "{iov_base=", item, ", iov_len=", digits, "}");
    SliceParts(", ", "{iov_base=", item, ", iov_len=", digits, "}");
    var body := "{iov_base=" + (item + (", iov_len=" + (digits + "}")));
    assert "" + body == body;
    DecimalRoundTrip(s.d.len);
    assert ',' !in ", iov_len="[1..];
    EnclosedOf("{iov_base=", item, ',', ", iov_len=", digits);
  }

  // ----- The text of the array -----

  function SliceTexts(mem: Memory, ss: seq<Slice>, maxLen: nat): (ts: seq<string>)
    ensures |ts| == |ss| && forall i :: 0 <= i < |ss| ==> ts[i] == SliceText(mem, ss[i], true, maxLen)
  {
    seq(|ss|, i requires 0 <= i < |ss| => SliceText(mem, ss[i], true, maxLen))
  }

  lemma {:induction false} SlicesJoined(mem: Memory, ss: seq<Slice>, maxLen: nat, first: bool)
    ensures SlicesText(SliceShower(mem, maxLen), ss, first) ==
            (if first || ss == [] then "" else ", ") + Joined(SliceTexts(mem, ss, maxLen))
    decreases |ss|
  {
    if ss != [] {
      var ts, rest := SliceTexts(mem, ss, maxLen), ss[1..];
      SlicesJoined(mem, rest, maxLen, false);
      assert ts[1..] == SliceTexts(mem, rest, maxLen);
      SliceReadBack(mem, ss[0], maxLen);
      var tail := (if rest == [] then "" else ", ") + Joined(SliceTexts(mem, rest, maxLen));
      assert Joined(ts) == ts[0] + tail by {
        if rest == [] {
          assert ts[0] + "" == ts[0];
        }
      }
      if first {
        assert "" + Joined(ts) == Joined(ts);
      } else {
        Regroup(", ", ts[0], tail);
      }
    }
  }

  /** The text of an array in memory: the slices of its first eight descriptors, with commas between
      them, and dots after them when there are more. */
  lemma {:induction false} ArrayShown(mem: Memory, addr: nat, ds: seq<Descriptor>, total: int, maxLen: nat)
    requires addr != 0 && HoldsArray(mem, addr, ds)
    ensures var ts := SliceTexts(mem, Slices(ds[..Min(|ds|, 8)], total), maxLen);
            IovecText(SliceShower(mem, maxLen), mem, addr, |ds|, total) ==
            "[" + (Joined(ts) + ((if |ds| > 8 then ", ..." else "") + "]"))
  {
    ArrayReadBack(mem, addr, ds);
    var ss := Slices(ds[..Min(|ds|, 8)], total);
    SlicesJoined(mem, ss, maxLen, true);
    assert "" + Joined(SliceTexts(mem, ss, maxLen)) == Joined(SliceTexts(mem, ss, maxLen));
  }

  lemma {:induction false} NullArray(shower: Shower, mem: Memory, count: nat, total: int)
    ensures IovecText(shower, mem, 0, count, total) == "NULL"
  {
  }

  /** When not even the first descriptor can be read, the brackets are empty, and a comma stands
      before the dots of an array of more than eight. */
  lemma {:induction false} UnreadableArray(mem: Memory, addr: nat, count: nat, total: int, maxLen: nat)
    requires addr != 0 && ReadDescriptor(mem, addr, 0).None?
    ensures IovecText(SliceShower(mem, maxLen), mem, addr, count, total) == if count > 8 then "[, ...]" else "[]"
  {
    assert Descriptors(mem, addr, 0, Min(count, IOVEC_ARRAY_MAX)) == [];
  }

  /** With no return value to go by, every descriptor shows all that it declares. */
  lemma {:induction false} TrustedLengths(ds: seq<Descriptor>)
    ensures |Slices(ds, -1)| == |ds| && forall i :: 0 <= i < |ds| ==> Slices(ds, -1)[i] == Slice(ds[i], ds[i].len)
  {
    if ds != [] {
      TrustedLengths(ds[1..]);
    }
  }

  // ----- The data of a scattered read, from the text -----

  /** The bytes that the text of a slice shows; none when it shows an address. */
  function BytesShown(t: string): seq<byte> {
    var s := ReadSlice(t);
    if s.None? then []
    else
      var u := Unescape(s.value.0);
      if u.None? then [] else u.value.0
  }

  function AllShown(ts: seq<string>): seq<byte> {
    if ts == [] then [] else BytesShown(ts[0]) + AllShown(ts[1..])
  }

  /** A slice that is shown whole: it is empty, or it is readable and no longer than max_str_len. */
  ghost predicate ShownWhole(mem: Memory, s: Slice, maxLen: nat) {
    s.show == 0 ||
    (s.d.base != 0 && s.show <= maxLen && forall i :: 0 <= i < RoundUp(s.show) ==> Mapped(mem, s.d.base, i))
  }

  lemma {:induction false} AddressIsNoString(addr: nat, size: nat)
    requires size >= 3
    ensures Unescape(Clip("0x" + Hex(addr), size)).None? && Unescape(Clip("NULL", size)).None?
  {
    assert Clip("0x" + Hex(addr), size)[0] == '0' && Clip("NULL", size)[0] == 'N';
  }

  lemma {:induction false} SliceBytes(mem: Memory, s: Slice, maxLen: nat)
    requires 1 <= maxLen <= 254 && ShownWhole(mem, s, maxLen)
    ensures BytesShown(SliceText(mem, s, true, maxLen)) == BytesAt(mem, s.d.base, s.show)
  {
    SliceReadBack(mem, s, maxLen);
    if s.show == 0 {
      BufferRead(mem, s.d.base, 0, maxLen);
      AddressIsNoString(s.d.base, STR_ARG_BUF_LEN);
    } else {
      ReadableBuffer(mem, s.d.base, s.show, maxLen);
    }
  }

  lemma {:induction false} SlicesBytes(mem: Memory, ss: seq<Slice>, maxLen: nat)
    requires 1 <= maxLen <= 254 && forall i :: 0 <= i < |ss| ==> ShownWhole(mem, ss[i], maxLen)
    ensures AllShown(SliceTexts(mem, ss, maxLen)) == ShownBytes(mem, ss)
    decreases |ss|
  {
    if ss != [] {
      var ts := SliceTexts(mem, ss, maxLen);
      assert ts[1..] == SliceTexts(mem, ss[1..], maxLen);
      SliceBytes(mem, ss[0], maxLen);
      SlicesBytes(mem, ss[1..], maxLen);
    }
  }

  /** The array lies outside the buffers. */
  ghost predicate ArrayApart(addr: nat, ds: seq<Descriptor>) {
    forall a, j, b :: 0 <= a < 16 * |ds| && 0 <= j < |ds| && 0 <= b < ds[j].len ==> At(addr, a) != At(ds[j].base, b)
  }

  lemma {:induction false} ArrayKept(mem: Memory, addr: nat, ds: seq<Descriptor>, data: seq<byte>)
    requires HoldsArray(mem, addr, ds) && ArrayApart(addr, ds)
    ensures HoldsArray(Scatter(mem, ds, data), addr, ds)
  {
    var after := Scatter(mem, ds, data);
    forall i, j | 0 <= i < |ds| && 0 <= j < 16
      ensures HoldsByte(after, addr, ds[i], i, j)
    {
      assert HoldsByte(mem, addr, ds[i], i, j);
      Unscattered(mem, ds, data, At(addr, 16 * i + j));
    }
  }

  /** A scattered read shown: from the text of readv's array, the bytes that were read can be read
      back in order, as far as the first eight buffers could hold them. */
  lemma {:induction false} ScatteredDataShown(mem: Memory, addr: nat, ds: seq<Descriptor>, data: seq<byte>, maxLen: nat)
    requires addr != 0 && HoldsArray(mem, addr, ds) && ArrayApart(addr, ds) && Apart(ds) && 1 <= maxLen <= 254
    requires var after, ss := Scatter(mem, ds, data), Slices(ds[..Min(|ds|, 8)], |data|);
             forall i :: 0 <= i < |ss| ==> ShownWhole(after, ss[i], maxLen)
    ensures var after, k := Scatter(mem, ds, data), Min(|ds|, 8);
            var ts := SliceTexts(after, Slices(ds[..k], |data|), maxLen);
            && IovecText(SliceShower(after, maxLen), after, addr, |ds|, |data|) ==
               "[" + (Joined(ts) + ((if |ds| > 8 then ", ..." else "") + "]"))
            && AllShown(ts) == data[..Min(|data|, Sum(Lengths(ds[..k])))]
  {
    var after, k := Scatter(mem, ds, data), Min(|ds|, 8);
    ArrayKept(mem, addr, ds, data);
    ArrayShown(after, addr, ds, |data|, maxLen);
    SlicesBytes(after, Slices(ds[..k], |data|), maxLen);
    SlicesUndoScatter(mem, ds, data, k);
  }
}
