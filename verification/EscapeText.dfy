/** What escaped text looks like, byte by byte, and how much of it a buffer takes. */
module EscapeText {
  import opened Bytes
  import opened Escape

  /** The escapes of a quote, a backslash and a newline; a printable byte is itself; any other is
      shown by its two hex digits. */
  lemma {:induction false} EscapeOfByte(c: byte)
    ensures c == 34 ==> Esc(c) == "\\\""
    ensures c == 92 ==> Esc(c) == "\\\\"
    ensures c == 10 ==> Esc(c) == "\\n"
    ensures 32 <= c <= 126 && c != 34 && c != 92 ==> Esc(c) == [c as char]
    ensures (c < 32 && c != 10) || c > 126 ==>
              && |Esc(c)| == 4 && Esc(c)[..2] == "\\x" && IsHexDigit(Esc(c)[2]) && IsHexDigit(Esc(c)[3])
              && 16 * HexValue(Esc(c)[2]) + HexValue(Esc(c)[3]) == c
  {
    HexDigitRoundTrip(c / 16);
    HexDigitRoundTrip(c % 16);
  }

  /** Printable, and neither a quote nor a backslash. */
  predicate Plain(bs: seq<byte>) {
    forall i :: 0 <= i < |bs| ==> 32 <= bs[i] <= 126 && bs[i] != 34 && bs[i] != 92
  }

  function AsText(bs: seq<byte>): (s: string)
    ensures |s| == |bs| && forall i :: 0 <= i < |bs| ==> s[i] == bs[i] as char
  {
    seq(|bs|, i requires 0 <= i < |bs| => bs[i] as char)
  }

  /** Plain bytes are shown as themselves. */
  lemma {:induction false} PlainShownAsItself(bs: seq<byte>)
    requires Plain(bs)
    ensures EscAll(bs) == AsText(bs)
  {
    if bs != [] {
      var before, c := bs[..|bs| - 1], bs[|bs| - 1];
      PlainShownAsItself(before);
      EscapeOfByte(c);
      assert AsText(bs) == AsText(before) + [c as char];
    }
  }

  lemma {:induction false} PlainFits(bs: seq<byte>, size: nat)
    requires Plain(bs) && |bs| + 5 < size
    ensures NothingDropped(bs, true, size) && NothingDropped(bs, false, size)
  {
    var k := Fit(bs, 1, size);
    FitGrows(bs, k, 1, size);
    PlainShownAsItself(bs[..k]);
    assert bs[..|bs|] == bs;
  }

  /** A plain string is shown between quotes as it is, with "..." when that is due, wherever it
      leaves six characters of the buffer. */
  lemma {:induction false} PlainQuoted(bs: seq<byte>, more: bool, size: nat)
    requires Plain(bs) && |bs| + 5 < size
    ensures Quoted(bs, more, size) == "\"" + AsText(bs) + "\"" + if more then "..." else ""
  {
    PlainFits(bs, size);
    NothingDroppedText(bs, more, size);
    PlainShownAsItself(bs);
  }

  /** How many bytes are shown: k of them exactly when six characters are left before each of the
      first k, and fewer are left after them, if there are more bytes. */
  lemma {:induction false} FitIff(bs: seq<byte>, size: nat, k: nat)
    requires k <= |bs|
    ensures Fit(bs, 1, size) == k <==>
            && (forall i :: 0 <= i < k ==> |EscAll(bs[..i])| + 6 < size)
            && (k < |bs| ==> |EscAll(bs[..k])| + 6 >= size)
  {
    var f := Fit(bs, 1, size);
    forall i | 0 <= i < f
      ensures |EscAll(bs[..i])| + 6 < size
    {
      FitGrows(bs, i, 1, size);
    }
    FitGrows(bs, f, 1, size);
    if k < f {
      assert |EscAll(bs[..k])| + 6 < size;
    }
  }
}
