/** How the bytes of a scattered read are shared out among buffers (src/decoders.c). */
module IovecShares {
  import opened Basics
  import opened Bytes
  import opened ChildMemory

  /** A struct iovec: two 64-bit words. */
  datatype Descriptor = Descriptor(base: nat, len: nat)

  /** A descriptor and how many of its bytes are shown. */
  datatype Slice = Slice(d: Descriptor, show: nat)

  /** How a byte budget is spread over declared lengths, in order. */
  function Shares(lens: seq<nat>, budget: nat): (shows: seq<nat>)
    ensures |shows| == |lens|
  {
    if lens == [] then []
    else
      var show := Min(lens[0], budget);
      [show] + Shares(lens[1..], budget - show)
  }

  function Sum(ns: seq<nat>): nat {
    if ns == [] then 0 else Sum(ns[..|ns| - 1]) + ns[|ns| - 1]
  }

  lemma {:induction false} SumCons(ns: seq<nat>)
    requires ns != []
    ensures Sum(ns) == ns[0] + Sum(ns[1..])
  {
    if |ns| > 1 {
      SumCons(ns[..|ns| - 1]);
      assert ns[..|ns| - 1][1..] == ns[1..][..|ns| - 2];
    } else {
      assert ns[..0] == [] && ns[1..] == [];
    }
  }

  lemma {:induction false} ShareAtMostDeclared(lens: seq<nat>, budget: nat, i: nat)
    requires i < |lens|
    ensures Shares(lens, budget)[i] <= lens[i]
    decreases |lens|
  {
    if i > 0 {
      ShareAtMostDeclared(lens[1..], budget - Min(lens[0], budget), i - 1);
    }
  }

  /** Conservation: the shares before position j sum to the smaller of the budget and the
      declared lengths before j. */
  lemma {:induction false} SharesConserve(lens: seq<nat>, budget: nat, j: nat)
    requires j <= |lens|
    ensures Sum(Shares(lens, budget)[..j]) == Min(budget, Sum(lens[..j]))
    decreases |lens|
  {
    if j > 0 {
      var show := Min(lens[0], budget);
      var rest := Shares(lens[1..], budget - show);
      SharesConserve(lens[1..], budget - show, j - 1);
      SumCons(lens[..j]);
      SumCons(Shares(lens, budget)[..j]);
      assert lens[..j][1..] == lens[1..][..j - 1];
      assert Shares(lens, budget)[..j][1..] == rest[..j - 1];
    }
  }

  function Lengths(ds: seq<Descriptor>): (lens: seq<nat>)
    ensures |lens| == |ds| && forall i :: 0 <= i < |ds| ==> lens[i] == ds[i].len
  {
    seq(|ds|, i requires 0 <= i < |ds| => ds[i].len)
  }

  /** The share of the budget a descriptor gets, and what it leaves. */
  function Share(d: Descriptor, left: int): nat {
    if left < 0 then d.len else Min(d.len, left)
  }

  function Left(d: Descriptor, left: int): int {
    if left < 0 then left else left - Share(d, left)
  }

  /** The slices shown. A negative total means the declared lengths are trusted. */
  function Slices(ds: seq<Descriptor>, total: int): seq<Slice> {
    if ds == [] then []
    else
      [Slice(ds[0], Share(ds[0], total))] + Slices(ds[1..], Left(ds[0], total))
  }

  /** The slices shown with a budget are the shares of the declared lengths. */
  lemma {:induction false} SlicesAreShares(ds: seq<Descriptor>, total: nat)
    ensures |Slices(ds, total)| == |ds|
    ensures forall i :: 0 <= i < |ds| ==> Slices(ds, total)[i] == Slice(ds[i], Shares(Lengths(ds), total)[i])
  {
    if ds != [] {
      var show := Min(ds[0].len, total);
      assert Lengths(ds)[1..] == Lengths(ds[1..]);
      SlicesAreShares(ds[1..], total - show);
    }
  }

  // ----- What a scattered read leaves in memory -----

  /** Memory after bytes have been written from base on. */
  function Write(mem: Memory, base: nat, bs: seq<byte>): Memory {
    if bs == [] then mem
    else Write(mem, base, bs[..|bs| - 1])[At(base, |bs| - 1) := bs[|bs| - 1]]
  }

  /** Memory after the kernel has filled the buffers in order with received bytes. */
  function Scatter(mem: Memory, ds: seq<Descriptor>, data: seq<byte>): Memory
    decreases |ds|
  {
    if ds == [] then mem
    else
      var k := Min(ds[0].len, |data|);
      Scatter(Write(mem, ds[0].base, data[..k]), ds[1..], data[k..])
  }

  /** The bytes of the slices, one after the other. */
  function ShownBytes(mem: Memory, ss: seq<Slice>): seq<byte> {
    if ss == [] then [] else BytesAt(mem, ss[0].d.base, ss[0].show) + ShownBytes(mem, ss[1..])
  }

  /** No two buffers share an address, and no buffer wraps around into itself. */
  ghost predicate Apart(ds: seq<Descriptor>) {
    && (forall i :: 0 <= i < |ds| ==> ds[i].base < ADDRESS_SPACE && ds[i].len <= ADDRESS_SPACE)
    && (forall i, j, a, b ::
          0 <= i < j < |ds| && 0 <= a < ds[i].len && 0 <= b < ds[j].len ==>
            At(ds[i].base, a) != At(ds[j].base, b))
  }

  lemma {:induction false} Written(mem: Memory, base: nat, bs: seq<byte>, i: nat)
    requires i < |bs| <= ADDRESS_SPACE && base < ADDRESS_SPACE
    ensures Mapped(Write(mem, base, bs), base, i) && ByteAt(Write(mem, base, bs), base, i) == bs[i]
    decreases |bs|
  {
    if i < |bs| - 1 {
      Written(mem, base, bs[..|bs| - 1], i);
    }
  }

  lemma {:induction false} Unwritten(mem: Memory, base: nat, bs: seq<byte>, x: nat)
    requires forall i :: 0 <= i < |bs| ==> At(base, i) != x
    ensures x in Write(mem, base, bs) <==> x in mem
    ensures x in mem ==> Write(mem, base, bs)[x] == mem[x]
    decreases |bs|
  {
    if bs != [] {
      Unwritten(mem, base, bs[..|bs| - 1], x);
    }
  }

  lemma {:induction false} Unscattered(mem: Memory, ds: seq<Descriptor>, data: seq<byte>, x: nat)
    requires forall j, b :: 0 <= j < |ds| && 0 <= b < ds[j].len ==> At(ds[j].base, b) != x
    ensures x in Scatter(mem, ds, data) <==> x in mem
    ensures x in mem ==> Scatter(mem, ds, data)[x] == mem[x]
    decreases |ds|
  {
    if ds != [] {
      var k := Min(ds[0].len, |data|);
      Unwritten(mem, ds[0].base, data[..k], x);
      Unscattered(Write(mem, ds[0].base, data[..k]), ds[1..], data[k..], x);
    }
  }

  /** The first buffer holds its share after everything has been written. */
  lemma {:induction false} FirstShare(mem: Memory, ds: seq<Descriptor>, data: seq<byte>)
    requires Apart(ds) && ds != []
    ensures var k := Min(ds[0].len, |data|);
            BytesAt(Scatter(mem, ds, data), ds[0].base, k) == data[..k]
  {
    var k := Min(ds[0].len, |data|);
    var w := Write(mem, ds[0].base, data[..k]);
    forall i | 0 <= i < k
      ensures ByteAt(Scatter(mem, ds, data), ds[0].base, i) == data[i]
    {
      Written(mem, ds[0].base, data[..k], i);
      Unscattered(w, ds[1..], data[k..], At(ds[0].base, i));
    }
  }

  lemma {:induction false} SplitPrefix(data: seq<byte>, k: nat, n: nat)
    requires k <= n <= |data|
    ensures data[..n] == data[..k] + data[k..][..n - k]
  {
  }

  lemma {:induction false} ApartRest(ds: seq<Descriptor>)
    requires Apart(ds) && ds != []
    ensures Apart(ds[1..])
  {
    var rest := ds[1..];
    forall i, j, a, b | 0 <= i < j < |rest| && 0 <= a < rest[i].len && 0 <= b < rest[j].len
      ensures At(rest[i].base, a) != At(rest[j].base, b)
    {
      assert rest[i] == ds[i + 1] && rest[j] == ds[j + 1];
    }
  }

  /** Showing the shares of the received byte count undoes the scatter: the bytes shown of the first
      j buffers are the received bytes in order, as far as those buffers could hold them. */
  lemma {:induction false} SlicesUndoScatter(mem: Memory, ds: seq<Descriptor>, data: seq<byte>, j: nat)
    requires Apart(ds) && j <= |ds|
    ensures ShownBytes(Scatter(mem, ds, data), Slices(ds[..j], |data|)) == data[..Min(|data|, Sum(Lengths(ds[..j])))]
    decreases |ds|
  {
    if j == 0 {
      assert ds[..j] == [] && Sum(Lengths(ds[..j])) == 0;
    } else {
      var shown, rest := ds[..j], ds[1..][..j - 1];
      var k, n := Min(ds[0].len, |data|), Min(|data|, Sum(Lengths(shown)));
      var w := Write(mem, ds[0].base, data[..k]);
      assert shown[1..] == rest;
      ApartRest(ds);
      SlicesUndoScatter(w, ds[1..], data[k..], j - 1);
      FirstShare(mem, ds, data);
      SumCons(Lengths(shown));
      assert Lengths(shown)[1..] == Lengths(rest);
      SplitPrefix(data, k, n);
      assert Slices(shown, |data|)[1..] == Slices(rest, |data[k..]|);
    }
  }
}
