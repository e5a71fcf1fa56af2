/** Reading the tracee's memory word by word (src/child_mem.c). */
module ChildMemory {
  import opened Bytes
  import opened Basics

  const WORD := 8
  const ADDRESS_SPACE: nat := 0x1_0000_0000_0000_0000

  /** The mapped bytes of the tracee. */
  type Memory = map<nat, byte>

  /** addr + i in unsigned 64-bit arithmetic, for operands below 2^64. */
  function At(addr: nat, i: nat): nat {
    if addr + i < ADDRESS_SPACE then addr + i else addr + i - ADDRESS_SPACE
  }

  predicate Mapped(mem: Memory, addr: nat, i: nat) { At(addr, i) in mem }

  /** PTRACE_PEEKDATA succeeds when all eight bytes are mapped. */
  predicate CanPeek(mem: Memory, addr: nat, off: nat) {
    forall k :: off <= k < off + WORD ==> Mapped(mem, addr, k)
  }

  /** The byte at an address; 0 stands in for an unmapped one and is never read. */
  function ByteAt(mem: Memory, addr: nat, i: nat): byte {
    if Mapped(mem, addr, i) then mem[At(addr, i)] else 0
  }

  function Peek(mem: Memory, addr: nat, off: nat): (word: seq<byte>)
    requires CanPeek(mem, addr, off)
  {
    seq<byte>(WORD, k requires 0 <= k => ByteAt(mem, addr, off + k))
  }

  /** The first n bytes at addr. */
  function BytesAt(mem: Memory, addr: nat, n: nat): seq<byte> {
    seq<byte>(n, i requires 0 <= i => ByteAt(mem, addr, i))
  }

  /** A byte-at-a-time reader: how many of the first `limit` bytes it gets. */
  function MappedRun(mem: Memory, addr: nat, limit: nat): (r: nat)
    ensures r <= limit
  {
    if limit == 0 then 0
    else
      var r := MappedRun(mem, addr, limit - 1);
      if r == limit - 1 && Mapped(mem, addr, r) then limit else r
  }

  lemma {:induction false} MappedRunIs(mem: Memory, addr: nat, limit: nat)
    ensures forall i :: 0 <= i < MappedRun(mem, addr, limit) ==> Mapped(mem, addr, i)
    ensures MappedRun(mem, addr, limit) < limit ==> !Mapped(mem, addr, MappedRun(mem, addr, limit))
  {
    if limit > 0 {
      MappedRunIs(mem, addr, limit - 1);
    }
  }

  lemma {:induction false} MappedRunUnique(mem: Memory, addr: nat, limit: nat, r: nat)
    requires r <= limit
    requires forall i :: 0 <= i < r ==> Mapped(mem, addr, i)
    requires r < limit ==> !Mapped(mem, addr, r)
    ensures MappedRun(mem, addr, limit) == r
  {
    if limit > 0 {
      MappedRunUnique(mem, addr, limit - 1, if r == limit then r - 1 else r);
    }
  }

  function RoundUp(n: nat): (m: nat)
    ensures n <= m < n + WORD && m % WORD == 0
  {
    (n + WORD - 1) / WORD * WORD
  }

  function RoundDown(n: nat): (m: nat)
    ensures m <= n < m + WORD && m % WORD == 0
  {
    n / WORD * WORD
  }

  /** How far reading whole words gets, when the last word may reach past `want`. */
  function WordRun(mem: Memory, addr: nat, want: nat): (got: nat)
    ensures got <= want
  {
    var r := MappedRun(mem, addr, RoundUp(want));
    if r == RoundUp(want) then want else RoundDown(r)
  }

  /** Only mapped bytes are read. */
  lemma {:induction false} WordRunMapped(mem: Memory, addr: nat, want: nat)
    ensures forall i :: 0 <= i < WordRun(mem, addr, want) ==> Mapped(mem, addr, i)
  {
    MappedRunIs(mem, addr, RoundUp(want));
  }

  lemma {:induction false} RoundUpWithin(want: nat, words: nat)
    requires want <= WORD * words
    ensures RoundUp(want) <= WORD * words
  {
  }

  lemma {:induction false} RoundUpBeyond(want: nat, words: nat)
    requires want > WORD * words
    ensures RoundUp(want) >= WORD * words + WORD
  {
  }

  lemma {:induction false} RoundDownIs(r: nat, words: nat)
    requires WORD * words <= r < WORD * words + WORD
    ensures RoundDown(r) == WORD * words
  {
  }

  /** The state in which the word loop stops: some whole words read, and either enough of them
      or the next one unreadable. */
  lemma {:induction false} WordRunStops(mem: Memory, addr: nat, want: nat, words: nat)
    requires forall i :: 0 <= i < WORD * words ==> Mapped(mem, addr, i)
    requires want <= WORD * words || !CanPeek(mem, addr, WORD * words)
    ensures WordRun(mem, addr, want) == Min(WORD * words, want)
  {
    var r := MappedRun(mem, addr, RoundUp(want));
    MappedRunIs(mem, addr, RoundUp(want));
    if want <= WORD * words {
      RoundUpWithin(want, words);
      MappedRunUnique(mem, addr, RoundUp(want), RoundUp(want));
    } else {
      var k :| WORD * words <= k < WORD * words + WORD && !Mapped(mem, addr, k);
      RoundUpBeyond(want, words);
      assert WORD * words <= r <= k;
      RoundDownIs(r, words);
    }
  }

  /** memcpy(buf + at, src, |src|). */
  method CopyInto(buf: array<byte>, at: nat, src: seq<byte>)
    requires at + |src| <= buf.Length
    modifies buf
    ensures forall k :: 0 <= k < buf.Length ==>
              buf[k] == if at <= k < at + |src| then src[k - at] else old(buf[k])
  {
    for k := 0 to |src|
      invariant forall j :: 0 <= j < buf.Length ==>
                  buf[j] == if at <= j < at + k then src[j - at] else old(buf[j])
    {
      buf[at + k] := src[k];
    }
  }

  /** read_child_raw. */
  method ReadChildRaw(mem: Memory, addr: nat, buf: array<byte>, want: nat) returns (got: nat)
    requires want <= buf.Length
    modifies buf
    ensures got == WordRun(mem, addr, want)
    ensures buf[..got] == BytesAt(mem, addr, got)
    ensures buf[got..] == old(buf[got..])
  {
    got := 0;
    ghost var words: nat := 0;
    while got < want
      invariant got == Min(WORD * words, want)
      invariant forall i :: 0 <= i < WORD * words ==> Mapped(mem, addr, i)
      invariant forall i :: 0 <= i < got ==> buf[i] == ByteAt(mem, addr, i)
      invariant forall i :: got <= i < buf.Length ==> buf[i] == old(buf[i])
    {
      if !CanPeek(mem, addr, got) {
        break;
      }
      var word := Peek(mem, addr, got);
      var chunk := if want - got < WORD then want - got else WORD;
      CopyInto(buf, got, word[..chunk]);
      words := words + 1;
      got := got + chunk;
    }
    WordRunStops(mem, addr, want, words);
  }

  // ----- Words against bytes -----

  /** The word reader returns what the byte reader would, exactly when no word straddles the
      end of the mapped bytes; otherwise it loses the up to seven bytes before that end. */
  lemma {:induction false} WordsAgainstBytes(mem: Memory, addr: nat, want: nat)
    ensures var r := MappedRun(mem, addr, RoundUp(want));
            && MappedRun(mem, addr, want) - (WORD - 1) <= WordRun(mem, addr, want) <= MappedRun(mem, addr, want)
            && (WordRun(mem, addr, want) == MappedRun(mem, addr, want)
                <==> (r == RoundUp(want) || (r < want && r % WORD == 0)))
  {
    var r := MappedRun(mem, addr, RoundUp(want));
    MappedRunIs(mem, addr, RoundUp(want));
    MappedRunUnique(mem, addr, want, if r < want then r else want);
  }
}
