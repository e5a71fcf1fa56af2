/** What the texts of string and buffer arguments say, read back with the unescaper. */
module ChildTexts {
  import opened Basics
  import opened Bytes
  import opened ChildMemory
  import opened ChildStrings
  import opened Escape
  import opened Options

  /** Memory that holds a string of n bytes and its NUL, as far as it is read. */
  ghost predicate HoldsString(mem: Memory, addr: nat, maxLen: nat, n: nat) {
    && addr != 0
    && (forall i :: 0 <= i < n ==> Mapped(mem, addr, i) && ByteAt(mem, addr, i) != 0)
    && Mapped(mem, addr, n) && ByteAt(mem, addr, n) == 0
    && (forall i :: 0 <= i < RoundUp(n + 1) && i < ReadCap(maxLen) ==> Mapped(mem, addr, i))
  }

  lemma {:induction false} SomethingRead(mem: Memory, addr: nat, maxLen: nat, n: nat)
    requires 1 <= maxLen <= STR_ARG_BUF_LEN && HoldsString(mem, addr, maxLen, n)
    ensures Window(mem, addr, maxLen) != []
  {
    var cap := ReadCap(maxLen);
    CapIsRoundUp(maxLen);
    MappedRunIs(mem, addr, cap);
    assert cap >= WORD && RoundUp(n + 1) >= WORD;
    assert MappedRun(mem, addr, cap) >= WORD;
    RoundDownKeeps(MappedRun(mem, addr, cap), WORD);
  }

  /** Whatever -s and the size: the text of a string gives back a prefix of its first
      min(strlen, max_str_len) bytes, the longest that fits. */
  lemma {:induction false} StringShown(mem: Memory, addr: nat, maxLen: nat, n: nat, size: nat)
    requires 1 <= maxLen <= STR_ARG_BUF_LEN && size >= 3 && HoldsString(mem, addr, maxLen, n)
    ensures var bs := BytesAt(mem, addr, Min(n, maxLen));
            var cut := n > maxLen || (n == maxLen && maxLen % WORD == 0);
            Unescape(StringText(mem, addr, maxLen, size)) == Some((bs[..Fit(bs, 1, size)], ShowsMore(bs, cut, size)))
  {
    SomethingRead(mem, addr, maxLen, n);
    StringSelection(mem, addr, maxLen, n);
    var bs := BytesAt(mem, addr, Min(n, maxLen));
    QuotedRoundTrip(bs, n > maxLen || (n == maxLen && maxLen % WORD == 0), size);
  }

  /** In the program's buffers, with -s up to 254: all of those bytes, and "..." exactly when the
      string is longer than max_str_len, or as long and a whole number of words. */
  lemma {:induction false} StringReadBack(mem: Memory, addr: nat, maxLen: nat, n: nat)
    requires 1 <= maxLen <= 254 && HoldsString(mem, addr, maxLen, n)
    ensures Unescape(StringText(mem, addr, maxLen, STR_ARG_BUF_LEN)) ==
            Some((BytesAt(mem, addr, Min(n, maxLen)), n > maxLen || (n == maxLen && maxLen % WORD == 0)))
  {
    var bs := BytesAt(mem, addr, Min(n, maxLen));
    StringShown(mem, addr, maxLen, n, STR_ARG_BUF_LEN);
    ShortFits(bs, STR_ARG_BUF_LEN);
    assert bs[..|bs|] == bs;
  }

  /** How much of a buffer is read: never more than its length or max_str_len, and all of that when
      the words it lies in can be read. */
  lemma {:induction false} BufferRead(mem: Memory, addr: nat, len: nat, maxLen: nat)
    requires maxLen <= STR_ARG_BUF_LEN
    ensures var got := WordRun(mem, addr, BufferWant(len, maxLen));
            && got <= len && got <= maxLen
            && ((forall i :: 0 <= i < RoundUp(Min(len, maxLen)) ==> Mapped(mem, addr, i)) ==> got == Min(len, maxLen))
  {
    var want := BufferWant(len, maxLen);
    if forall i :: 0 <= i < RoundUp(want) ==> Mapped(mem, addr, i) {
      MappedRunUnique(mem, addr, RoundUp(want), RoundUp(want));
    }
  }

  /** In the program's buffers, with -s up to 254: the text of a buffer of which something was read
      gives back the bytes read, and "..." exactly when the buffer is longer. */
  lemma {:induction false} BufferReadBack(mem: Memory, addr: nat, len: nat, maxLen: nat)
    requires maxLen <= 254 && addr != 0 && WordRun(mem, addr, BufferWant(len, maxLen)) > 0
    ensures var got := WordRun(mem, addr, BufferWant(len, maxLen));
            Unescape(BufferText(mem, addr, len, maxLen, STR_ARG_BUF_LEN)) == Some((BytesAt(mem, addr, got), len > got))
  {
    var got := WordRun(mem, addr, BufferWant(len, maxLen));
    var bs := BytesAt(mem, addr, got);
    QuotedRoundTrip(bs, len > got, STR_ARG_BUF_LEN);
    ShortFits(bs, STR_ARG_BUF_LEN);
    assert bs[..|bs|] == bs;
  }

  /** And that of a readable one all its bytes, up to max_str_len. */
  lemma {:induction false} ReadableBuffer(mem: Memory, addr: nat, len: nat, maxLen: nat)
    requires 1 <= maxLen <= 254 && addr != 0 && len > 0
    requires forall i :: 0 <= i < RoundUp(Min(len, maxLen)) ==> Mapped(mem, addr, i)
    ensures Unescape(BufferText(mem, addr, len, maxLen, STR_ARG_BUF_LEN)) ==
            Some((BytesAt(mem, addr, Min(len, maxLen)), len > maxLen))
  {
    BufferRead(mem, addr, len, maxLen);
    BufferReadBack(mem, addr, len, maxLen);
  }

  /** A null pointer is shown as NULL, and one that cannot be read as its address. */
  lemma {:induction false} NotShown(mem: Memory, addr: nat, len: nat, maxLen: nat, size: nat)
    requires |Hex(addr)| + 2 < size && size > 4
    ensures addr == 0 ==> StringText(mem, addr, maxLen, size) == "NULL" == BufferText(mem, addr, len, maxLen, size)
    ensures addr != 0 && !CanPeek(mem, addr, 0) ==>
              StringText(mem, addr, maxLen, size) == "0x" + Hex(addr) == BufferText(mem, addr, len, maxLen, size)
  {
    assert "NULL"[..4] == "NULL";
    if addr != 0 && !CanPeek(mem, addr, 0) {
      var k :| 0 <= k < WORD && !Mapped(mem, addr, k);
      ShortRun(mem, addr, ReadCap(maxLen), k);
      ShortRun(mem, addr, RoundUp(BufferWant(len, maxLen)), k);
      var t := "0x" + Hex(addr);
      assert t[..|t|] == t;
    }
  }

  lemma {:induction false} ShortRun(mem: Memory, addr: nat, limit: nat, k: nat)
    requires k < WORD && !Mapped(mem, addr, k)
    ensures MappedRun(mem, addr, limit) < WORD && RoundDown(MappedRun(mem, addr, limit)) == 0
    ensures limit % WORD == 0 && limit > 0 ==> MappedRun(mem, addr, limit) < limit
  {
    MappedRunIs(mem, addr, limit);
  }
}
