/** String and buffer arguments read from the tracee (src/child_mem.c). */
module ChildStrings {
  import opened Bytes
  import opened Basics
  import opened BoundedText
  import opened ChildMemory
  import opened Escape

  // capacity of the raw window and of the argument buffers
  const STR_ARG_BUF_LEN := 1024

  // ----- read_child_string -----

  /** The read window: max_str_len rounded up to whole words, at most the raw buffer. */
  function ReadCap(maxLen: nat): nat {
    if RoundUp(maxLen) > STR_ARG_BUF_LEN then STR_ARG_BUF_LEN else RoundUp(maxLen)
  }

  /** The readable part of the window, in whole words. */
  function Window(mem: Memory, addr: nat, maxLen: nat): seq<byte> {
    BytesAt(mem, addr, RoundDown(MappedRun(mem, addr, ReadCap(maxLen))))
  }

  /** Position of the first NUL, or the length. */
  function Strlen(bs: seq<byte>): (n: nat)
    ensures n <= |bs|
    ensures n < |bs| ==> bs[n] == 0
    ensures forall i :: 0 <= i < n ==> bs[i] != 0
  {
    if bs == [] || bs[0] == 0 then 0
    else
      var n := Strlen(bs[1..]);
      assert forall i :: 1 <= i < n + 1 ==> bs[i] == bs[1..][i - 1];
      n + 1
  }

  /** The bytes selected for display and whether "..." is due. */
  datatype Selection = Selection(bytes: seq<byte>, more: bool)

  function SelectString(window: seq<byte>, maxLen: nat): Selection {
    var n := Strlen(window);
    if n > maxLen then Selection(window[..maxLen], true) else Selection(window[..n], n == |window|)
  }

  function StringText(mem: Memory, addr: nat, maxLen: nat, size: nat): string
    requires size >= 1
  {
    if addr == 0 then Clip("NULL", size)
    else
      var window := Window(mem, addr, maxLen);
      if window == [] then Clip("0x" + Hex(addr), size)
      else
        var s := SelectString(window, maxLen);
        Quoted(s.bytes, s.more, size)
  }

  lemma {:induction false} StrlenUnique(bs: seq<byte>, n: nat)
    requires n <= |bs| && (n < |bs| ==> bs[n] == 0)
    requires forall i :: 0 <= i < n ==> bs[i] != 0
    ensures Strlen(bs) == n
  {
    if n > 0 {
      StrlenUnique(bs[1..], n - 1);
    }
  }

  /** The word loop stops at the first word with a NUL, at an unreadable word or at the cap; the
      string and the flag it finds are those of the whole window. */
  lemma {:induction false} EarlyStop(mem: Memory, addr: nat, maxLen: nat, words: nat, nul: bool)
    requires WORD * words <= ReadCap(maxLen)
    requires forall i :: 0 <= i < WORD * words ==> Mapped(mem, addr, i)
    requires !nul ==> (WORD * words + WORD > ReadCap(maxLen) || !CanPeek(mem, addr, WORD * words))
    requires nul ==> Strlen(BytesAt(mem, addr, WORD * words)) < WORD * words
    ensures var got, window := BytesAt(mem, addr, WORD * words), Window(mem, addr, maxLen);
            && got <= window
            && (got == [] <==> window == [])
            && SelectString(got, maxLen) == SelectString(window, maxLen)
  {
    var cap := ReadCap(maxLen);
    var r := MappedRun(mem, addr, cap);
    MappedRunIs(mem, addr, cap);
    var got, window := BytesAt(mem, addr, WORD * words), Window(mem, addr, maxLen);
    assert WORD * words <= r;
    RoundDownAtLeast(r, words);
    assert got == window[..WORD * words];
    if nul {
      StrlenUnique(window, Strlen(got));
    } else {
      if WORD * words + WORD <= cap {
        var k :| WORD * words <= k < WORD * words + WORD && !Mapped(mem, addr, k);
        assert r <= k;
      }
      RoundDownIs(r, words);
      assert got == window;
    }
  }

  lemma {:induction false} RoundDownAtLeast(r: nat, words: nat)
    requires WORD * words <= r
    ensures WORD * words <= RoundDown(r)
  {
  }

  lemma {:induction false} PrintedHolds(buf: seq<char>, text: string)
    requires Printed(buf, text)
    ensures |buf| > 0 ==> HoldsText(buf, Clip(text, |buf|))
  {
  }

  /** The scan for the terminator. */
  method FindNul(raw: array<byte>, got: nat) returns (len: nat)
    requires got <= raw.Length
    ensures len == Strlen(raw[..got])
  {
    len := 0;
    while len < got && raw[len] != 0
      invariant len <= got
      invariant forall i :: 0 <= i < len ==> raw[i] != 0
    {
      len := len + 1;
    }
    StrlenUnique(raw[..got], len);
  }

  method HasNul(word: seq<byte>) returns (nul: bool)
    ensures nul <==> 0 in word
  {
    for i := 0 to |word|
      invariant 0 !in word[..i]
    {
      if word[i] == 0 {
        return true;
      }
    }
    assert word[..|word|] == word;
    return false;
  }

  lemma {:induction false} NulInWord(mem: Memory, addr: nat, at: nat, word: seq<byte>)
    requires CanPeek(mem, addr, at) && word == Peek(mem, addr, at) && 0 in word
    ensures Strlen(BytesAt(mem, addr, at + WORD)) < at + WORD
  {
    var k :| 0 <= k < |word| && word[k] == 0;
    assert BytesAt(mem, addr, at + WORD)[at + k] == 0;
  }

  /** The word loop: whole words up to the cap, ending early at an unreadable word or after one
      that holds a NUL. */
  method ReadWords(mem: Memory, addr: nat, maxLen: nat, raw: array<byte>) returns (got: nat)
    requires raw.Length == STR_ARG_BUF_LEN
    modifies raw
    ensures got <= raw.Length
    ensures var window := Window(mem, addr, maxLen);
            && raw[..got] <= window
            && (got == 0 <==> window == [])
            && SelectString(raw[..got], maxLen) == SelectString(window, maxLen)
  {
    var cap := ReadCap(maxLen);
    got := 0;
    ghost var words: nat := 0;
    var nul := false;
    while got + WORD <= cap
      invariant got == WORD * words <= cap && !nul
      invariant forall i :: 0 <= i < got ==> Mapped(mem, addr, i) && raw[i] == ByteAt(mem, addr, i)
    {
      if !CanPeek(mem, addr, got) {
        break;
      }
      var word := Peek(mem, addr, got);
      CopyInto(raw, got, word);
      got := got + WORD;
      words := words + 1;
      nul := HasNul(word);
      if nul {
        NulInWord(mem, addr, got - WORD, word);
        break;
      }
    }
    assert raw[..got] == BytesAt(mem, addr, got);
    EarlyStop(mem, addr, maxLen, words, nul);
  }

  /** read_child_string. */
  method ReadChildString(mem: Memory, addr: nat, maxLen: nat, out: array<char>) returns (inside: bool)
    modifies out
    ensures inside <==> out.Length > 0 || addr == 0 || Window(mem, addr, maxLen) == []
    ensures out.Length > 0 ==> HoldsText(out[..], StringText(mem, addr, maxLen, out.Length))
  {
    inside := true;
    if addr == 0 {
      var _ := Snprintf(out, 0, "NULL");
      assert out[0..] == out[..];
      PrintedHolds(out[..], "NULL");
      return;
    }
    var raw := new byte[STR_ARG_BUF_LEN];
    var got := ReadWords(mem, addr, maxLen, raw);
    if got == 0 {
      var _ := Snprintf(out, 0, "0x" + Hex(addr));
      assert out[0..] == out[..];
      PrintedHolds(out[..], "0x" + Hex(addr));
      return;
    }
    var len := FindNul(raw, got);
    var truncated := len == got;
    if len > maxLen {
      len := maxLen;
      truncated := true;
    }
    assert raw[..got][..len] == raw[..len];
    assert SelectString(raw[..got], maxLen) == Selection(raw[..len], truncated);
    inside := WriteQuoted(raw, len, truncated, out);
  }

  /** When every peek that is made succeeds, the selection is the first min(strlen, max_str_len)
      bytes, and "..." is due if the string is longer than max_str_len, or exactly as long and a
      whole number of words. */
  lemma {:induction false} StringSelection(mem: Memory, addr: nat, maxLen: nat, n: nat)
    requires maxLen <= STR_ARG_BUF_LEN
    requires forall i :: 0 <= i < n ==> Mapped(mem, addr, i) && ByteAt(mem, addr, i) != 0
    requires Mapped(mem, addr, n) && ByteAt(mem, addr, n) == 0
    requires forall i :: 0 <= i < RoundUp(n + 1) && i < ReadCap(maxLen) ==> Mapped(mem, addr, i)
    ensures SelectString(Window(mem, addr, maxLen), maxLen) ==
            Selection(BytesAt(mem, addr, Min(n, maxLen)),
                      n > maxLen || (n == maxLen && maxLen % WORD == 0))
  {
    var cap := ReadCap(maxLen);
    var r := MappedRun(mem, addr, cap);
    MappedRunIs(mem, addr, cap);
    var window := Window(mem, addr, maxLen);
    CapIsRoundUp(maxLen);
    if n < cap {
      RoundUpInside(n, cap);
      assert RoundUp(n + 1) <= r;
      RoundDownKeeps(r, RoundUp(n + 1));
      StrlenUnique(window, n);
      assert window[..Min(n, maxLen)] == BytesAt(mem, addr, Min(n, maxLen));
    } else {
      assert r == cap;
      RoundDownKeeps(r, cap);
      StrlenUnique(window, cap);
      assert window[..maxLen] == BytesAt(mem, addr, maxLen);
    }
  }

  lemma {:induction false} CapIsRoundUp(maxLen: nat)
    requires maxLen <= STR_ARG_BUF_LEN
    ensures ReadCap(maxLen) == RoundUp(maxLen)
    ensures ReadCap(maxLen) == maxLen <==> maxLen % WORD == 0
  {
  }

  lemma {:induction false} RoundUpInside(n: nat, cap: nat)
    requires n < cap && cap % WORD == 0
    ensures RoundUp(n + 1) <= cap
  {
  }

  lemma {:induction false} RoundDownKeeps(r: nat, whole: nat)
    requires whole <= r && whole % WORD == 0
    ensures whole <= RoundDown(r)
    ensures r == whole ==> RoundDown(r) == whole
  {
  }

  // ----- read_child_buffer -----

  function BufferWant(len: nat, maxLen: nat): nat {
    var cap := if maxLen < STR_ARG_BUF_LEN then maxLen else STR_ARG_BUF_LEN;
    if len < cap then len else cap
  }

  /** A buffer of known length. An empty one, like an unreadable one, shows as an address. */
  function BufferText(mem: Memory, addr: nat, len: nat, maxLen: nat, size: nat): string
    requires size >= 1
  {
    var got := WordRun(mem, addr, BufferWant(len, maxLen));
    if addr == 0 then Clip("NULL", size)
    else if got == 0 then Clip("0x" + Hex(addr), size)
    else Quoted(BytesAt(mem, addr, got), len > got, size)
  }

  /** read_child_buffer. */
  method ReadChildBuffer(mem: Memory, addr: nat, len: nat, maxLen: nat, out: array<char>) returns (inside: bool)
    modifies out
    ensures inside <==> out.Length > 0 || addr == 0 || WordRun(mem, addr, BufferWant(len, maxLen)) == 0
    ensures out.Length > 0 ==> HoldsText(out[..], BufferText(mem, addr, len, maxLen, out.Length))
  {
    inside := true;
    if addr == 0 {
      var _ := Snprintf(out, 0, "NULL");
      assert out[0..] == out[..];
      PrintedHolds(out[..], "NULL");
      return;
    }
    var cap := if maxLen < STR_ARG_BUF_LEN then maxLen else STR_ARG_BUF_LEN;
    var want := if len < cap then len else cap;
    var raw := new byte[STR_ARG_BUF_LEN];
    var got := ReadChildRaw(mem, addr, raw, want);
    if got == 0 {
      var _ := Snprintf(out, 0, "0x" + Hex(addr));
      assert out[0..] == out[..];
      PrintedHolds(out[..], "0x" + Hex(addr));
      return;
    }
    inside := WriteQuoted(raw, got, len > got, out);
  }

  // ----- The largest -s that never loses anything -----

  ghost predicate StringsFit(maxLen: nat) {
    forall mem: Memory, addr: nat :: addr != 0 && Window(mem, addr, maxLen) != [] ==>
      var s := SelectString(Window(mem, addr, maxLen), maxLen);
      NothingDropped(s.bytes, s.more, STR_ARG_BUF_LEN)
  }

  ghost predicate BuffersFit(maxLen: nat) {
    forall mem: Memory, addr: nat, len: nat :: addr != 0 && WordRun(mem, addr, BufferWant(len, maxLen)) > 0 ==>
      var got := WordRun(mem, addr, BufferWant(len, maxLen));
      NothingDropped(BytesAt(mem, addr, got), len > got, STR_ARG_BUF_LEN)
  }

  /** Memory full of bytes that take four characters each. */
  const ONES_START := 4096
  const ONES: Memory := map a: nat | ONES_START <= a < ONES_START + 2 * STR_ARG_BUF_LEN :: 1

  lemma {:induction false} AllOnes(n: nat)
    requires n <= 2 * STR_ARG_BUF_LEN
    ensures forall i :: 0 <= i < n ==> Mapped(ONES, ONES_START, i)
    ensures BytesAt(ONES, ONES_START, n) == Worst(n)
  {
    forall i | 0 <= i < n
      ensures Mapped(ONES, ONES_START, i) && ByteAt(ONES, ONES_START, i) == 1
    {
      assert At(ONES_START, i) == ONES_START + i;
    }
  }

  lemma {:induction false} LongStringDoesNotFit(maxLen: nat)
    requires 254 < maxLen <= STR_ARG_BUF_LEN
    ensures !StringsFit(maxLen)
  {
    var cap := ReadCap(maxLen);
    CapIsRoundUp(maxLen);
    AllOnes(cap);
    MappedRunUnique(ONES, ONES_START, cap, cap);
    RoundDownKeeps(cap, cap);
    var window := Window(ONES, ONES_START, maxLen);
    assert window == Worst(cap);
    StrlenUnique(window, cap);
    var s := SelectString(window, maxLen);
    assert s.bytes == Worst(maxLen) && s.more;
    LongDoesNotFit(maxLen, STR_ARG_BUF_LEN);
  }

  lemma {:induction false} LongBufferDoesNotFit(maxLen: nat)
    requires 254 < maxLen <= STR_ARG_BUF_LEN
    ensures !BuffersFit(maxLen)
  {
    var len := maxLen + 1;
    AllOnes(RoundUp(maxLen));
    AllOnes(maxLen);
    MappedRunUnique(ONES, ONES_START, RoundUp(maxLen), RoundUp(maxLen));
    var got := WordRun(ONES, ONES_START, BufferWant(len, maxLen));
    assert got == maxLen;
    LongDoesNotFit(maxLen, STR_ARG_BUF_LEN);
    assert !NothingDropped(BytesAt(ONES, ONES_START, got), len > got, STR_ARG_BUF_LEN);
  }

  /** Of the sizes -s accepts, exactly those up to 254 never drop a selected byte or a due "..."
      from a 1024-character argument buffer, whatever the memory holds. */
  lemma {:induction false} LargestSafeSize(maxLen: nat)
    requires 1 <= maxLen <= STR_ARG_BUF_LEN
    ensures StringsFit(maxLen) <==> maxLen <= 254
    ensures BuffersFit(maxLen) <==> maxLen <= 254
  {
    if maxLen <= 254 {
      forall mem: Memory, addr: nat | addr != 0 && Window(mem, addr, maxLen) != []
        ensures var s := SelectString(Window(mem, addr, maxLen), maxLen);
                NothingDropped(s.bytes, s.more, STR_ARG_BUF_LEN)
      {
        ShortFits(SelectString(Window(mem, addr, maxLen), maxLen).bytes, STR_ARG_BUF_LEN);
      }
      forall mem: Memory, addr: nat, len: nat | addr != 0 && WordRun(mem, addr, BufferWant(len, maxLen)) > 0
        ensures var got := WordRun(mem, addr, BufferWant(len, maxLen));
                NothingDropped(BytesAt(mem, addr, got), len > got, STR_ARG_BUF_LEN)
      {
        ShortFits(BytesAt(mem, addr, WordRun(mem, addr, BufferWant(len, maxLen))), STR_ARG_BUF_LEN);
      }
    } else {
      LongStringDoesNotFit(maxLen);
      LongBufferDoesNotFit(maxLen);
    }
  }
}
