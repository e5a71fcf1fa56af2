/** The texts of string and buffer arguments hold no NUL, so they can be used as C strings. */
module CStrings {
  import opened Bytes
  import opened ChildMemory
  import opened ChildStrings
  import opened Escape

  lemma {:induction false} EscHasNoNul(c: byte)
    ensures '\0' !in Esc(c)
  {
    HexDigitRoundTrip(c / 16);
    HexDigitRoundTrip(c % 16);
  }

  lemma {:induction false} EscAllHasNoNul(bs: seq<byte>)
    ensures '\0' !in EscAll(bs)
  {
    if bs != [] {
      EscAllHasNoNul(bs[..|bs| - 1]);
      EscHasNoNul(bs[|bs| - 1]);
    }
  }

  lemma {:induction false} HexHasNoNul(n: nat)
    ensures '\0' !in Hex(n)
  {
    HexRoundTrip(n);
  }

  lemma {:induction false} QuotedHasNoNul(bs: seq<byte>, more: bool, size: nat)
    requires size >= 3
    ensures '\0' !in Quoted(bs, more, size)
  {
    EscAllHasNoNul(bs[..Fit(bs, 1, size)]);
  }

  lemma {:induction false} BufferTextHasNoNul(mem: Memory, addr: nat, len: nat, maxLen: nat, size: nat)
    requires size >= 3
    ensures '\0' !in BufferText(mem, addr, len, maxLen, size)
  {
    HexHasNoNul(addr);
    var got := WordRun(mem, addr, BufferWant(len, maxLen));
    QuotedHasNoNul(BytesAt(mem, addr, got), len > got, size);
  }

  lemma {:induction false} StringTextHasNoNul(mem: Memory, addr: nat, maxLen: nat, size: nat)
    requires size >= 3
    ensures '\0' !in StringText(mem, addr, maxLen, size)
  {
    HexHasNoNul(addr);
    var s := SelectString(Window(mem, addr, maxLen), maxLen);
    QuotedHasNoNul(s.bytes, s.more, size);
  }

  /** A buffer used as a %s argument: its characters up to the first NUL. */
  method CString(buf: array<char>, ghost text: string) returns (s: string)
    requires HoldsText(buf[..], text) && '\0' !in text
    ensures s == text
  {
    var n := 0;
    assert forall i :: 0 <= i < |text| ==> buf[i] == text[i];
    while buf[n] != '\0'
      invariant 0 <= n <= |text|
      decreases |text| - n
    {
      n := n + 1;
    }
    s := buf[..n];
  }
}
