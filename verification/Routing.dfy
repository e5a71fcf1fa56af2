/**
 The two dispatch chains of src/mini_strace.c over the tables of RoutingTables: the entry stop's,
 for calls printed at once, and the exit stop's, for calls whose line waits for the result.
 */
module Routing {
  import opened RoutingTables

  /** The order of the if-chain of the entry stop. */
  const ENTRY_CHAIN: seq<Decoder> := ENTRY_FRONT + ENTRY_BACK

  const ENTRY_FRONT: seq<Decoder> := [
    Str, Argv, OpenFlags, ProtFlags, MapFlags, MountFlags, EpollOp, EpollEvent, SocketDomain, SocketType,
    SockoptLevel, SockoptOptname, FdSet, MsgFlags, PrctlOption, PrctlName, Dirfd, RlimitIn, WaitidIdtype,
    WaitidOptions, SchedPolicy, Renameat2Flags, MremapFlags, MemfdFlags, EventfdFlags, RlimitResource, FileMode
  ]

  const ENTRY_BACK: seq<Decoder> := [
    OpenMode, Pipe2Flags, GetrandomFlags, FlockOp, MadviseAdvice, FutexOp, AtFlags, UnlinkatFlags,
    FaccessatFlags, SignalNumber, LseekWhence, FcntlCmd, SigprocmaskHow, AccessMode, ClockId, TimespecIn,
    CloneFlags, Clone3Args, IoctlRequest, MsghdrIn, BufferIn, SockaddrIn, IovecIn
  ]

  /** The order of the if-chain of the exit stop. */
  const EXIT_CHAIN: seq<Decoder> := [
    Str, SignalNumber, SigactionNew, TimespecIn, ClockId, StatxMask, MsgFlags, Dirfd, AtFlags, Wait4Options,
    RusageWho, RlimitResource, RlimitIn, BufferOut, SockaddrOut, WaitStatus, MsghdrOut, StatOut, GetdentsOut,
    SigactionOld, TimespecOut, RusageOut, RlimitOut, EpollEvents, PollFds, StatxOut, IovecOut
  ]

  /** An if-chain: the first decoder whose test holds, and the plain fallback after the last. */
  function FirstClaimed(chain: seq<Decoder>, test: Decoder -> bool): Decoder {
    if chain == [] then Plain
    else if test(chain[0]) then chain[0]
    else FirstClaimed(chain[1..], test)
  }

  /** The scan for a set bit finds one, or the lookup is not NULL. */
  predicate HasSlot(d: Decoder, s: nat) {
    exists i: nat :: i < 6 && Claims(d, s, i)
  }

  /** The condition that defers a call to its exit stop. */
  predicate Deferred(s: nat) {
    || HasSlot(BufferOut, s) || HasSlot(SockaddrOut, s) || HasSlot(WaitStatus, s) || HasSlot(MsghdrOut, s)
    || HasSlot(StatOut, s) || HasSlot(GetdentsOut, s) || HasSlot(SigactionOld, s) || HasSlot(TimespecOut, s)
    || HasSlot(RusageOut, s) || HasSlot(EpollEvents, s) || HasSlot(PollFds, s) || HasSlot(StatxOut, s)
    || HasSlot(IovecOut, s) || HasSlot(RlimitOut, s)
  }

  /** Slot i is the pending index: the first set bit of the mask. */
  predicate PendingAt(d: Decoder, s: nat, i: nat) {
    Claims(d, s, i) && forall j: nat :: j < i ==> !Claims(d, s, j)
  }

  /** The part of an exit-chain condition that looks at the return value. */
  predicate Ready(d: Decoder, ret: int) {
    if d.BufferOut? then ret > 0
    else if d.SockaddrOut? || d.WaitStatus? || d.MsghdrOut? || d.StatOut? || d.SigactionOld? || d.RusageOut?
            || d.RlimitOut? || d.StatxOut? || d.IovecOut? then ret >= 0
    else true
  }

  predicate ExitTest(d: Decoder, s: nat, i: nat, ret: int) {
    if KernelFilled(d) then PendingAt(d, s, i) && Ready(d, ret) else Claims(d, s, i)
  }

  /** The decoder that the entry stop uses for argument i. */
  function EntryKind(s: nat, i: nat): Decoder {
    FirstClaimed(ENTRY_CHAIN, d => Claims(d, s, i))
  }

  /** The decoder that the exit stop uses for argument i when the call returned ret. */
  function ExitKind(s: nat, i: nat, ret: int): Decoder {
    FirstClaimed(EXIT_CHAIN, d => ExitTest(d, s, i, ret))
  }

  // ----- The masks -----

  /** Two tables never claim the same slot, and no table claims a slot that is not printed. */
  lemma {:induction false} MasksAreDisjoint(d: Decoder, e: Decoder, s: nat, i: nat)
    requires Claims(d, s, i) && Claims(e, s, i)
    ensures d == e && i < PrintedArgs(s)
  {
    ClaimsIffSlot(d, s, i);
    ClaimsIffSlot(e, s, i);
    KnownSlotsArePrinted(s, i);
  }

  lemma {:induction false} FilledSlotFilledName(d: Decoder, s: nat)
    requires KernelFilled(d) && HasSlot(d, s)
    ensures FilledName(s)
  {
    var i: nat :| i < 6 && Claims(d, s, i);
    ClaimsIffSlot(d, s, i);
    ExitOnlyNames(s, i);
  }

  lemma {:induction false} FilledSlotDefers(s: nat, i: nat)
    requires i < 6 && KernelFilled(Slot(s, i))
    ensures Deferred(s)
  {
    var d := Slot(s, i);
    ClaimsIffSlot(d, s, i);
    assert HasSlot(d, s);
  }

  lemma {:induction false} DeferredNames(s: nat)
    requires Deferred(s)
    ensures FilledName(s)
  {
    var d :| KernelFilled(d) && HasSlot(d, s);
    FilledSlotFilledName(d, s);
  }

  /** A call is deferred exactly when one of its arguments is of a kind that the kernel fills in. */
  lemma {:induction false} DeferredIff(s: nat)
    ensures Deferred(s) <==> exists i: nat :: KernelFilled(Slot(s, i))
  {
    if Deferred(s) {
      DeferredNames(s);
      FilledNames(s);
    }
    forall i: nat | KernelFilled(Slot(s, i))
      ensures Deferred(s)
    {
      KnownSlotsArePrinted(s, i);
      FilledSlotDefers(s, i);
    }
  }

  // ----- The chains -----

  /** Where at most one test holds, the order of a chain does not matter. */
  lemma {:induction false} OnlyClaimWins(chain: seq<Decoder>, test: Decoder -> bool, k: Decoder)
    requires forall d :: test(d) ==> d == k
    ensures FirstClaimed(chain, test) == if k in chain && test(k) then k else Plain
  {
    if chain != [] && !test(chain[0]) {
      OnlyClaimWins(chain[1..], test, k);
    }
  }

  lemma {:induction false} EntryTests(s: nat, i: nat)
    ensures forall d :: Claims(d, s, i) ==> d == Slot(s, i)
  {
    forall d | Claims(d, s, i)
      ensures d == Slot(s, i)
    {
      ClaimsIffSlot(d, s, i);
    }
  }

  lemma {:induction false} ExitTests(s: nat, i: nat, ret: int)
    ensures forall d :: ExitTest(d, s, i, ret) ==> d == Slot(s, i)
  {
    EntryTests(s, i);
  }

  lemma {:induction false} InEntryChain(d: Decoder)
    requires d != Plain && !ExitOnly(d)
    ensures d in ENTRY_CHAIN
  {
    assert d in ENTRY_FRONT || d in ENTRY_BACK;
  }

  lemma {:induction false} InExitChain(d: Decoder)
    requires KernelFilled(d) || CallerAtExit(d)
    ensures d in EXIT_CHAIN
  {
  }

  /** A caller-populated argument that the entry chain can show is shown by it as what it is, on
      the calls that are printed at once and also on those that are not. */
  lemma {:induction false} EntryRouting(s: nat, i: nat)
    requires !ExitOnly(Slot(s, i))
    ensures EntryKind(s, i) == Slot(s, i)
  {
    var k := Slot(s, i);
    EntryTests(s, i);
    OnlyClaimWins(ENTRY_CHAIN, d => Claims(d, s, i), k);
    ClaimsIffSlot(k, s, i);
    if k != Plain {
      InEntryChain(k);
    }
  }

  lemma {:induction false} ExitTestOfSlot(s: nat, i: nat, ret: int)
    requires Slot(s, i) != Plain
    ensures ExitTest(Slot(s, i), s, i, ret) <==> Ready(Slot(s, i), ret)
  {
    var k := Slot(s, i);
    ClaimsIffSlot(k, s, i);
    if KernelFilled(k) {
      ExitOnlyNames(s, i);
      forall j: nat | j < i
        ensures !Claims(k, s, j)
      {
        ClaimsIffSlot(k, s, j);
        if Slot(s, j) == k {
          FilledOnce(s, i, j);
        }
      }
    }
  }

  /** The exit chain shows every argument of a deferred call as what it is; only an argument that
      the kernel did not fill in, because the call failed or read nothing, is shown plainly. */
  lemma {:induction false} ExitRouting(s: nat, i: nat, ret: int)
    requires Deferred(s)
    ensures ExitKind(s, i, ret) == if Ready(Slot(s, i), ret) then Slot(s, i) else Plain
  {
    var k := Slot(s, i);
    ExitTests(s, i, ret);
    OnlyClaimWins(EXIT_CHAIN, d => ExitTest(d, s, i, ret), k);
    if k != Plain {
      DeferredNames(s);
      FilledNameSlots(s, i);
      InExitChain(k);
      ExitTestOfSlot(s, i, ret);
    }
  }

  /** Routing loses no decoder: whatever path a call takes, each argument is shown as what it is. */
  lemma {:induction false} RoutingLosesNothing(s: nat, i: nat, ret: int)
    ensures !Deferred(s) ==> EntryKind(s, i) == Slot(s, i)
    ensures Deferred(s) && Ready(Slot(s, i), ret) ==> ExitKind(s, i, ret) == Slot(s, i)
    ensures Deferred(s) && !ExitOnly(Slot(s, i)) ==> EntryKind(s, i) == ExitKind(s, i, ret)
  {
    if Deferred(s) {
      ExitRouting(s, i, ret);
    } else if ExitOnly(Slot(s, i)) {
      ExitOnlyNames(s, i);
      FilledNames(s);
      DeferredIff(s);
    }
    if !ExitOnly(Slot(s, i)) {
      EntryRouting(s, i);
    }
  }

  /** The order of an if-chain is immaterial: any chain of the same decoders picks the same one. */
  lemma {:induction false} AnyOrder(entry: seq<Decoder>, exit: seq<Decoder>, s: nat, i: nat, ret: int)
    requires forall d :: d in entry <==> d in ENTRY_CHAIN
    requires forall d :: d in exit <==> d in EXIT_CHAIN
    ensures FirstClaimed(entry, d => Claims(d, s, i)) == EntryKind(s, i)
    ensures FirstClaimed(exit, d => ExitTest(d, s, i, ret)) == ExitKind(s, i, ret)
  {
    var k := Slot(s, i);
    EntryTests(s, i);
    ExitTests(s, i, ret);
    OnlyClaimWins(entry, d => Claims(d, s, i), k);
    OnlyClaimWins(ENTRY_CHAIN, d => Claims(d, s, i), k);
    OnlyClaimWins(exit, d => ExitTest(d, s, i, ret), k);
    OnlyClaimWins(EXIT_CHAIN, d => ExitTest(d, s, i, ret), k);
  }

  /** What is shown of an argument of a deferred call, by the result of the call: everything when it
      returned a positive number; all but a read buffer when it returned 0; and after an error the
      arguments that the caller filled in and those that are shown whatever the result. */
  function ByResult(k: Decoder, ret: int): Decoder {
    if ret > 0 then k
    else if ret == 0 then (if k.BufferOut? then Plain else k)
    else if CallerAtExit(k) || k.GetdentsOut? || k.TimespecOut? || k.EpollEvents? || k.PollFds? then k
    else Plain
  }

  lemma {:induction false} ReadyByResult(k: Decoder, ret: int)
    ensures k == Plain || KernelFilled(k) || CallerAtExit(k) ==>
              (if Ready(k, ret) then k else Plain) == ByResult(k, ret)
  {
  }

  lemma {:induction false} ExitByResult(s: nat, i: nat, ret: int)
    requires Deferred(s)
    ensures ExitKind(s, i, ret) == ByResult(Slot(s, i), ret)
  {
    DeferredNames(s);
    FilledNameSlots(s, i);
    ExitRouting(s, i, ret);
    ReadyByResult(Slot(s, i), ret);
  }

  /** A name of the table is printed with its own number of arguments, any other with six. */
  lemma {:induction false} PrintedArgsIs(s: nat)
    ensures Argc(s) >= 0 ==> PrintedArgs(s) == Argc(s) <= 6
    ensures Argc(s) < 0 ==> PrintedArgs(s) == 6
  {
  }
}
