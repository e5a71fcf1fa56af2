/** Which calls wait for their exit stop: the fourteen pending fields and the tables they come from. */
module Deferral {
  import opened Routing
  import opened RoutingTables
  import opened TraceModel

  /** An index is an argument number, or -1 for none. */
  predicate Indexed(p: Pending) {
    && p.waitStatus >= -1 && p.msghdr >= -1 && p.stat >= -1 && p.getdents >= -1 && p.sigaction >= -1
    && p.timespecOut >= -1 && p.rusage >= -1 && p.epollEvents >= -1 && p.statx >= -1 && p.rlimit >= -1
  }

  /** A call is deferred, and its head printed at the exit stop, exactly when any of the fourteen
      fields is set. */
  lemma {:induction false} DeferredWhenSet(p: Pending)
    requires Indexed(p)
    ensures EntryDefers(p) <==> p != NO_PENDING
    ensures ExitPrints(p) <==> p != NO_PENDING
  {
  }

  /** The fields say which tables hold the name. */
  predicate LookedUp(p: Pending, s: nat) {
    && (p.read.Some? <==> HasSlot(BufferOut, s)) && (p.sockaddr.Some? <==> HasSlot(SockaddrOut, s))
    && (p.waitStatus >= 0 <==> HasSlot(WaitStatus, s)) && (p.msghdr >= 0 <==> HasSlot(MsghdrOut, s))
    && (p.stat >= 0 <==> HasSlot(StatOut, s)) && (p.getdents >= 0 <==> HasSlot(GetdentsOut, s))
    && (p.sigaction >= 0 <==> HasSlot(SigactionOld, s)) && (p.timespecOut >= 0 <==> HasSlot(TimespecOut, s))
    && (p.rusage >= 0 <==> HasSlot(RusageOut, s)) && (p.epollEvents >= 0 <==> HasSlot(EpollEvents, s))
    && (p.pollfds.Some? <==> HasSlot(PollFds, s)) && (p.statx >= 0 <==> HasSlot(StatxOut, s))
    && (p.iovec.Some? <==> HasSlot(IovecOut, s)) && (p.rlimit >= 0 <==> HasSlot(RlimitOut, s))
  }

  /** With the program's tables, the tracer defers a call exactly when the kernel fills in one of its
      arguments. */
  lemma {:induction false} DefersFilledCalls(cfg: Config, name: string, s: nat)
    requires LookedUp(cfg.route(name), s)
    ensures cfg.Defers(name) <==> exists i: nat :: KernelFilled(Slot(s, i))
  {
    assert cfg.Defers(name) <==> Deferred(s);
    DeferredIff(s);
  }
}
