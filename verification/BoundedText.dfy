/**
 Bounded printing. snprintf is modelled by its contract (section 7.19.6.5 of ISO/IEC 9899:1999):
 it returns the full length, writes at most size - 1 characters and a NUL, and writes nothing
 when size is 0. Decoders chain such calls at a position that may run past the buffer.
 */
module BoundedText {
  import opened Basics

  /** buf is as one snprintf of the whole text leaves it. */
  ghost predicate Printed(buf: seq<char>, text: string) {
    |buf| == 0 ||
    (var k := Min(|text|, |buf| - 1);
     buf[..k] == text[..k] && buf[k] == '\0')
  }

  /** snprintf(out + off, size - off, text). */
  method Snprintf(out: array<char>, off: nat, text: string) returns (n: nat)
    requires off <= out.Length
    modifies out
    ensures n == |text|
    ensures out[..off] == old(out[..off])
    ensures Printed(out[off..], text)
  {
    n := |text|;
    if off == out.Length {
      return;
    }
    var room := out.Length - off - 1;
    var k := if n < room then n else room;
    for j := 0 to k
      invariant out[..off] == old(out[..off])
      invariant out[off..off + j] == text[..j]
    {
      out[off + j] := text[j];
    }
    out[off + k] := '\0';
    assert out[off..][..k] == out[off..off + k];
  }

  /** A chain in progress: nothing written yet, or the text so far printed. */
  ghost predicate Chain(buf: seq<char>, text: string) {
    text == [] || Printed(buf, text)
  }

  /** A further call at the end of the text so far. */
  lemma {:induction false} ChainStep(before: seq<char>, buf: seq<char>, sofar: string, text: string)
    requires |before| == |buf| && |sofar| < |buf|
    requires Chain(before, sofar)
    requires buf[..|sofar|] == before[..|sofar|]
    requires Printed(buf[|sofar|..], text)
    ensures Printed(buf, sofar + text)
  {
    var n := |sofar|;
    var k := Min(|text|, |buf| - n - 1);
    assert Min(|sofar + text|, |buf| - 1) == n + k;
    assert buf[n..][..k] == buf[n..n + k];
    assert buf[..n + k] == buf[..n] + buf[n..n + k];
    assert (sofar + text)[..n + k] == sofar + text[..k];
    assert buf[n..][k] == buf[n + k];
    assert sofar != [] ==> before[..n] == sofar[..n];
  }

  /** Past the end of the buffer nothing more shows. */
  lemma {:induction false} Overshoot(buf: seq<char>, sofar: string, text: string)
    requires |buf| <= |sofar| && Printed(buf, sofar)
    ensures Printed(buf, sofar + text)
  {
    if buf != [] {
      assert (sofar + text)[..|buf| - 1] == sofar[..|buf| - 1];
    }
  }

  /** oi += snprintf(out + oi, out_size - oi, text), done only while oi < out_size. */
  method Emit(out: array<char>, oi: nat, text: string, ghost sofar: string) returns (next: nat)
    requires oi == |sofar| < out.Length && Chain(out[..], sofar)
    modifies out
    ensures next == |sofar + text|
    ensures Printed(out[..], sofar + text)
  {
    ghost var before := out[..];
    var n := Snprintf(out, oi, text);
    assert out[..][oi..] == out[oi..];
    ChainStep(before, out[..], sofar, text);
    next := oi + n;
  }

  /** A chain of guarded calls: text is what has been asked for so far, of which the buffer shows
      what it can; oi is its length, or anything past the buffer once it is full. */
  ghost predicate Reached(buf: seq<char>, oi: nat, text: string) {
    && text != [] && Printed(buf, text)
    && (if oi < |buf| then oi == |text| else |buf| <= |text|)
  }

  /** if (oi < out_size) oi += snprintf(out + oi, out_size - oi, text). */
  method Append(out: array<char>, oi: nat, text: string, ghost sofar: string) returns (next: nat)
    requires Reached(out[..], oi, sofar)
    modifies out
    ensures Reached(out[..], next, sofar + text)
  {
    if oi < out.Length {
      next := Emit(out, oi, text, sofar);
    } else {
      next := oi;
      Overshoot(out[..], sofar, text);
    }
  }

  /** A full buffer has reached any longer text. */
  lemma {:induction false} ReachedMore(buf: seq<char>, oi: nat, sofar: string, text: string)
    requires Reached(buf, oi, sofar) && oi >= |buf|
    ensures Reached(buf, oi, sofar + text)
  {
    Overshoot(buf, sofar, text);
  }

  /** The first call of a chain, at the start of the buffer. */
  method Begin(out: array<char>, text: string) returns (oi: nat)
    requires text != []
    modifies out
    ensures Reached(out[..], oi, text)
  {
    oi := Snprintf(out, 0, text);
    assert out[0..] == out[..];
  }

  /** The end of a bracketed list that may have been cut. */
  method CloseList(out: array<char>, oi0: nat, truncated: bool, ghost sofar: string) returns (oi: nat)
    requires Reached(out[..], oi0, sofar)
    modifies out
    ensures Reached(out[..], oi, sofar + ((if truncated then ", ..." else "") + "]"))
  {
    oi := oi0;
    if truncated {
      oi := Append(out, oi, ", ...", sofar);
      oi := Append(out, oi, "]", sofar + ", ...");
      Regroup(sofar, ", ...", "]");
    } else {
      oi := Append(out, oi, "]", sofar);
      assert "" + "]" == "]";
    }
  }

  /** What a single snprintf shows, as a C string. */
  function Clip(text: string, size: nat): string
    requires size >= 1
  {
    text[..Min(|text|, size - 1)]
  }
}
