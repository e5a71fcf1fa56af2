/** The quoting and escaping of string and buffer arguments (src/child_mem.c). */
module Escape {
  import opened Options
  import opened Bytes
  import opened Basics

  const QUOTE: byte := 34
  const BACKSLASH: byte := 92
  const NEWLINE: byte := 10

  /** How one byte is shown. */
  function Esc(c: byte): (s: string)
    ensures 1 <= |s| <= 4
  {
    if c == QUOTE || c == BACKSLASH then ['\\', c as char]
    else if c == NEWLINE then ['\\', 'n']
    else if 0x20 <= c < 0x7f then [c as char]
    else ['\\', 'x', HexDigit(c / 16), HexDigit(c % 16)]
  }

  function EscAll(bs: seq<byte>): string {
    if bs == [] then [] else EscAll(bs[..|bs| - 1]) + Esc(bs[|bs| - 1])
  }

  /** How many bytes the loop shows when it starts at position oi of a buffer of that size. */
  function Fit(bs: seq<byte>, oi: nat, size: nat): (k: nat)
    ensures k <= |bs|
  {
    if bs == [] || oi + 5 >= size then 0 else 1 + Fit(bs[1..], oi + |Esc(bs[0])|, size)
  }

  function Opened(bs: seq<byte>): string { ['"'] + EscAll(bs) }

  function QuotedBody(bs: seq<byte>, size: nat): string {
    Opened(bs[..Fit(bs, 1, size)]) + ['"']
  }

  /** What a buffer of the given size holds, up to its NUL. */
  function Quoted(bs: seq<byte>, more: bool, size: nat): string
    requires size >= 1
  {
    if size == 1 then []
    else if size == 2 then ['"']
    else
      var body := QuotedBody(bs, size);
      if more && |body| + 3 < size then body + "..." else body
  }

  // ----- The loop -----

  /** buf holds text and its terminator. */
  ghost predicate HoldsText(buf: seq<char>, text: string) {
    |text| < |buf| && buf[..|text|] == text && buf[|text|] == '\0'
  }

  /** One more byte that still finds room. */
  lemma {:induction false} FitGrows(bs: seq<byte>, i: nat, oi: nat, size: nat)
    requires i <= Fit(bs, oi, size)
    ensures i < Fit(bs, oi, size) <==> i < |bs| && oi + |EscAll(bs[..i])| + 5 < size
    decreases i
  {
    if i == 0 {
      assert bs[..0] == [];
    } else {
      var rest := bs[1..];
      FitGrows(rest, i - 1, oi + |Esc(bs[0])|, size);
      EscAllCons(bs[..i]);
      assert bs[..i][1..] == rest[..i - 1];
    }
  }

  lemma {:induction false} EscAllCons(bs: seq<byte>)
    requires bs != []
    ensures EscAll(bs) == Esc(bs[0]) + EscAll(bs[1..])
    decreases |bs|
  {
    if |bs| == 1 {
      assert bs[..0] == [] && bs[1..] == [];
    } else {
      var before, last := bs[..|bs| - 1], bs[|bs| - 1];
      EscAllCons(before);
      assert before[1..] == bs[1..][..|bs| - 2] && bs[1..][|bs| - 2] == last;
      Regroup(Esc(bs[0]), EscAll(before[1..]), Esc(last));
    }
  }

  lemma {:induction false} EscAllSnoc(bs: seq<byte>, i: nat)
    requires i < |bs|
    ensures EscAll(bs[..i + 1]) == EscAll(bs[..i]) + Esc(bs[i])
  {
    assert bs[..i + 1][..i] == bs[..i];
  }

  /** Stores text at position oi. */
  method Store(out: array<char>, oi: nat, text: string)
    requires oi + |text| <= out.Length
    modifies out
    ensures out[..oi + |text|] == old(out[..oi]) + text
  {
    for j := 0 to |text|
      invariant out[..oi] == old(out[..oi])
      invariant out[oi..oi + j] == text[..j]
    {
      out[oi + j] := text[j];
    }
    assert out[..oi + |text|] == out[..oi] + out[oi..oi + |text|];
  }

  /** The opening quote and the escape loop; oi is where the next character goes. */
  method WriteEscaped(raw: array<byte>, len: nat, out: array<char>) returns (oi: nat)
    requires len <= raw.Length
    modifies out
    ensures oi <= out.Length && (out.Length > 2 ==> oi + 2 <= out.Length)
    ensures out.Length == 0 || oi == 1 || out.Length > 2
    ensures out.Length > 0 ==> out[..oi] == Opened(raw[..len][..Fit(raw[..len], 1, out.Length)])
  {
    var size := out.Length;
    ghost var bs := raw[..len];
    if size == 0 {
      return 0;
    }
    out[0] := '"';
    oi := 1;
    var i := 0;
    assert bs[..0] == [];
    while i < len && oi + 5 < size
      invariant i <= Fit(bs, 1, size)
      invariant oi <= size && (i == 0 ==> oi == 1) && (i > 0 ==> oi + 2 <= size)
      invariant out[..oi] == Opened(bs[..i])
    {
      FitGrows(bs, i, 1, size);
      EscAllSnoc(bs, i);
      var shown := Esc(raw[i]);
      Regroup(['"'], EscAll(bs[..i]), shown);
      Store(out, oi, shown);
      oi := oi + |shown|;
      i := i + 1;
    }
    FitGrows(bs, i, 1, size);
  }

  /** The common end of read_child_string and read_child_buffer: quote, escaped bytes, quote,
      "..." when more is due, NUL. The result says whether every write had a place in the buffer:
      with size 0 the last one, at size - 1, has none, and the model leaves it out. */
  method WriteQuoted(raw: array<byte>, len: nat, more: bool, out: array<char>) returns (inside: bool)
    requires len <= raw.Length
    modifies out
    ensures inside <==> out.Length > 0
    ensures inside ==> HoldsText(out[..], Quoted(raw[..len], more, out.Length))
  {
    var size := out.Length;
    inside := true;
    var oi := WriteEscaped(raw, len, out);
    ghost var text := out[..oi];
    if oi < size {
      Store(out, oi, ['"']);
      oi := oi + 1;
      text := text + ['"'];
    }
    if more && oi + 3 < size {
      Store(out, oi, "...");
      oi := oi + 3;
      text := text + "...";
    }
    if oi < size {
      out[oi] := '\0';
      assert out[..oi] == text;
    } else if size > 0 {
      out[size - 1] := '\0';
      assert out[..size - 1] == text[..size - 1];
    } else {
      inside := false;
    }
  }

  // ----- Reading it back -----

  /** The next escape of a text: the byte it stands for and its length. */
  function NextByte(t: string): Option<(byte, nat)>
    requires t != []
  {
    if t[0] == '\\' then
      if |t| >= 2 && (t[1] == '"' || t[1] == '\\') then Some((t[1] as int, 2))
      else if |t| >= 2 && t[1] == 'n' then Some((NEWLINE, 2))
      else if |t| >= 4 && t[1] == 'x' && IsHexDigit(t[2]) && IsHexDigit(t[3])
      then Some((16 * HexValue(t[2]) + HexValue(t[3]), 4))
      else None
    else if ' ' <= t[0] <= '~' then Some((t[0] as int, 1))
    else None
  }

  /** Reads escapes up to the closing quote, then an optional "...". */
  function UnescapeBody(t: string): Option<(seq<byte>, bool)> {
    if t == [] then None
    else if t[0] == '"' then
      if t[1..] == [] then Some(([], false))
      else if t[1..] == "..." then Some(([], true))
      else None
    else
      var b := NextByte(t);
      if b.None? || b.value.1 == 0 || b.value.1 > |t| then None
      else
        var rest := UnescapeBody(t[b.value.1..]);
        if rest.None? then None else Some(([b.value.0] + rest.value.0, rest.value.1))
  }

  function Unescape(t: string): Option<(seq<byte>, bool)> {
    if t != [] && t[0] == '"' then UnescapeBody(t[1..]) else None
  }

  /** No escape is read as anything but the byte it was made from, whatever follows it. */
  lemma {:induction false} NextByteOfEsc(c: byte, rest: string)
    ensures (Esc(c) + rest)[0] != '"'
    ensures NextByte(Esc(c) + rest) == Some((c, |Esc(c)|))
  {
    HexDigitRoundTrip(c / 16);
    HexDigitRoundTrip(c % 16);
  }

  lemma {:induction false} UnescapeBodyOfEsc(bs: seq<byte>, more: bool)
    ensures UnescapeBody(EscAll(bs) + ['"'] + if more then "..." else "") == Some((bs, more))
    decreases |bs|
  {
    var end := ['"'] + if more then "..." else "";
    if bs == [] {
      assert EscAll(bs) + ['"'] + (if more then "..." else "") == end;
      assert end[1..] == if more then "..." else "";
    } else {
      var text, rest := EscAll(bs) + end, EscAll(bs[1..]) + end;
      EscAllCons(bs);
      Regroup(Esc(bs[0]), EscAll(bs[1..]), end);
      Regroup(EscAll(bs), ['"'], if more then "..." else "");
      Regroup(EscAll(bs[1..]), ['"'], if more then "..." else "");
      NextByteOfEsc(bs[0], rest);
      assert text[|Esc(bs[0])|..] == rest;
      UnescapeBodyOfEsc(bs[1..], more);
      assert bs == [bs[0]] + bs[1..];
    }
  }

  /** Whether the buffer has room for a "..." that is due. */
  predicate ShowsMore(bs: seq<byte>, more: bool, size: nat) {
    more && |QuotedBody(bs, size)| + 3 < size
  }

  /** For every buffer of at least 3 characters: reading the output back gives exactly the bytes
      that fitted, none of them cut, and whether "..." was shown. */
  lemma {:induction false} QuotedRoundTrip(bs: seq<byte>, more: bool, size: nat)
    requires size >= 3
    ensures Unescape(Quoted(bs, more, size)) == Some((bs[..Fit(bs, 1, size)], ShowsMore(bs, more, size)))
    ensures |Quoted(bs, more, size)| < size
  {
    var shown := bs[..Fit(bs, 1, size)];
    var dots := ShowsMore(bs, more, size);
    UnescapeBodyOfEsc(shown, dots);
    var text := Quoted(bs, more, size);
    assert text == ['"'] + (EscAll(shown) + ['"'] + if dots then "..." else "");
    assert text[1..] == EscAll(shown) + ['"'] + if dots then "..." else "";
    BodyFits(bs, size);
  }

  lemma {:induction false} BodyFits(bs: seq<byte>, size: nat)
    requires size >= 3
    ensures |QuotedBody(bs, size)| < size
  {
    var k := Fit(bs, 1, size);
    if k == 0 {
      assert bs[..k] == [];
    } else {
      FitGrows(bs, k - 1, 1, size);
      EscAllSnoc(bs, k - 1);
    }
  }

  // ----- How long a string always fits -----

  /** Every selected byte is shown, and a due "..." too. */
  predicate NothingDropped(bs: seq<byte>, more: bool, size: nat) {
    Fit(bs, 1, size) == |bs| && ShowsMore(bs, more, size) == more
  }

  /** Then the output is the whole escaped text. */
  lemma {:induction false} NothingDroppedText(bs: seq<byte>, more: bool, size: nat)
    requires size >= 3 && NothingDropped(bs, more, size)
    ensures Quoted(bs, more, size) == ['"'] + EscAll(bs) + ['"'] + if more then "..." else ""
  {
    assert bs[..|bs|] == bs;
  }

  lemma {:induction false} EscAllAtMost(bs: seq<byte>)
    ensures |EscAll(bs)| <= 4 * |bs|
  {
    if bs != [] {
      EscAllAtMost(bs[..|bs| - 1]);
    }
  }

  lemma {:induction false} ShortFits(bs: seq<byte>, size: nat)
    requires 4 * |bs| + 5 < size
    ensures NothingDropped(bs, true, size) && NothingDropped(bs, false, size)
  {
    var k := Fit(bs, 1, size);
    FitGrows(bs, k, 1, size);
    EscAllAtMost(bs[..k]);
    assert bs[..|bs|] == bs;
  }

  /** Bytes that need four characters each. */
  function Worst(n: nat): (bs: seq<byte>)
    ensures |bs| == n && forall i :: 0 <= i < n ==> bs[i] == 1
  {
    seq<byte>(n, _ => 1)
  }

  lemma {:induction false} WorstEscaped(n: nat)
    ensures |EscAll(Worst(n))| == 4 * n
  {
    if n > 0 {
      assert Worst(n)[..n - 1] == Worst(n - 1);
      WorstEscaped(n - 1);
    }
  }

  lemma {:induction false} LongDoesNotFit(n: nat, size: nat)
    requires 4 * n + 5 >= size >= 3
    ensures !NothingDropped(Worst(n), true, size)
  {
    var bs := Worst(n);
    if Fit(bs, 1, size) == n {
      assert bs[..n] == bs;
      WorstEscaped(n);
    }
  }

  /** The exact bound: n bytes are always shown in full, with a due "...", if and only if
      4n + 5 < size. For the 1024-character argument buffers that is n <= 254. */
  lemma {:induction false} TightBound(n: nat, size: nat)
    requires size >= 3
    ensures (forall bs: seq<byte>, more: bool :: |bs| == n ==> NothingDropped(bs, more, size)) <==> 4 * n + 5 < size
  {
    if 4 * n + 5 < size {
      forall bs: seq<byte>, more: bool | |bs| == n
        ensures NothingDropped(bs, more, size)
      {
        ShortFits(bs, size);
      }
    } else {
      LongDoesNotFit(n, size);
    }
  }
}
