/**
 Registration of children. The kernel may report the first stops of a new child before or
 after the fork event of its parent; the tracer must not care.
 */
module Registration {
  import opened Options
  import opened TraceModel

  /** A stop of pid: a fork event of its own, a signal stop or a syscall stop. */
  predicate StopOf(e: Wait, pid: Pid) {
    e.Report? && e.pid == pid && e.status.Stopped?
  }

  /** A stop that registers the pid that stopped. */
  predicate Registers(cfg: Config, e: Wait) {
    e.Report? && (IsSignalStop(cfg, e.status) || IsCallStop(cfg, e.status))
  }

  /** The same world, but for the order in which two pids were resumed. */
  ghost predicate Same(u: World, w: World) {
    && u.phases == w.phases && u.active == w.active && u.calls == w.calls
    && u.rows == w.rows && u.log == w.log && u.halted == w.halted
  }

  /** Registering first changes nothing about a syscall stop, nor does registering after it. */
  lemma {:induction false} CallPhasesKnown(cfg: Config, m: map<Pid, Phase>, pid: Pid, regs: Option<Regs>, now: int)
    ensures CallPhases(cfg, Register(m, pid), pid, regs, now) == CallPhases(cfg, m, pid, regs, now)
    ensures Register(CallPhases(cfg, m, pid, regs, now), pid) == CallPhases(cfg, m, pid, regs, now)
    ensures HasRoom(CallPhases(cfg, m, pid, regs, now), pid) == HasRoom(m, pid)
  {
    var n := CallPhases(cfg, m, pid, regs, now);
    if pid in m || |m| < MAX_TRACEES {
      assert pid in n;
    } else {
      assert n == m;
    }
  }

  lemma {:induction false} ForkCommutesWithCall(cfg: Config, w: World, pid: Pid, child: Pid,
                                                regs: Option<Regs>, now: int)
    ensures Same(CallStop(cfg, ForkStop(w, pid, Some(child)), child, regs, now),
                 ForkStop(CallStop(cfg, w, child, regs, now), pid, Some(child)))
  {
    CallPhasesKnown(cfg, w.phases, child, regs, now);
  }

  lemma {:induction false} ForkCommutesWithSignal(w: World, pid: Pid, child: Pid, sig: int)
    ensures Same(SignalStop(ForkStop(w, pid, Some(child)), child, sig),
                           ForkStop(SignalStop(w, child, sig), pid, Some(child)))
  {
  }

  /** The fork event and a stop of the child other than a fork event commute in every state: table
      full or not, child known or not. */
  lemma {:induction false} ForkCommutesWithChildStop(cfg: Config, w: World, fork: Wait, stop: Wait, child: Pid)
    requires Announces(cfg, fork, child) && StopOf(stop, child) && Registers(cfg, stop)
    ensures Same(Next(cfg, Next(cfg, w, fork), stop), Next(cfg, Next(cfg, w, stop), fork))
  {
    if !w.halted {
      if IsCallStop(cfg, stop.status) {
        ForkCommutesWithCall(cfg, w, fork.pid, child, stop.regs, stop.now);
      } else {
        ForkCommutesWithSignal(w, fork.pid, child, stop.status.sig);
      }
    }
  }

  /** There is one slot left, and two new pids for it. */
  predicate OneSlotForTwo(m: map<Pid, Phase>, c: Pid, g: Pid) {
    c != g && c !in m && g !in m && |m| == MAX_TRACEES - 1
  }

  /** Registering another pid takes no room away, but for the last slot. */
  lemma {:induction false} RoomLeft(m: map<Pid, Phase>, c: Pid, g: Pid)
    requires !OneSlotForTwo(m, c, g)
    ensures HasRoom(Register(m, c), g) == HasRoom(m, g)
  {
  }

  lemma {:induction false} RegistersCommute(m: map<Pid, Phase>, c: Pid, g: Pid)
    requires !OneSlotForTwo(m, c, g)
    ensures Register(Register(m, c), g) == Register(Register(m, g), c)
  {
    RoomLeft(m, c, g);
    RoomLeft(m, g, c);
  }

  lemma {:induction false} LastSlotGoesFirst(m: map<Pid, Phase>, c: Pid, g: Pid)
    requires OneSlotForTwo(m, c, g)
    ensures Register(Register(m, c), g) == m[c := Idle] && Register(Register(m, g), c) == m[g := Idle]
  {
  }

  /** Two fork events commute unless they compete for the last slot. */
  lemma {:induction false} ForksCommuteIff(cfg: Config, w: World, fork: Wait, other: Wait, c: Pid, g: Pid)
    requires Announces(cfg, fork, c) && Announces(cfg, other, g) && !w.halted
    ensures Same(Next(cfg, Next(cfg, w, fork), other), Next(cfg, Next(cfg, w, other), fork))
            <==> !OneSlotForTwo(w.phases, c, g)
  {
    var u, v := ForkStop(ForkStop(w, fork.pid, Some(c)), other.pid, Some(g)),
                ForkStop(ForkStop(w, other.pid, Some(g)), fork.pid, Some(c));
    ForkRegisters(w, fork.pid, c);
    ForkRegisters(w, other.pid, g);
    ForkRegisters(ForkStop(w, fork.pid, Some(c)), other.pid, g);
    ForkRegisters(ForkStop(w, other.pid, Some(g)), fork.pid, c);
    if OneSlotForTwo(w.phases, c, g) {
      LastSlotGoesFirst(w.phases, c, g);
      assert c in u.phases && c !in v.phases;
    } else {
      RegistersCommute(w.phases, c, g);
      RoomLeft(w.phases, c, g);
      RoomLeft(w.phases, g, c);
    }
  }

  lemma {:induction false} ForkRegisters(w: World, pid: Pid, c: Pid)
    ensures var v := ForkStop(w, pid, Some(c));
            && v.phases == Register(w.phases, c) && v.active == w.active + (if HasRoom(w.phases, c) then 1 else 0)
            && v.calls == w.calls && v.rows == w.rows && v.log == w.log && v.halted == w.halted
  {
  }

  lemma {:induction false} NextSame(cfg: Config, u: World, w: World, e: Wait)
    requires Same(u, w)
    ensures Same(Next(cfg, u, e), Next(cfg, w, e))
  {
  }

  lemma {:induction false} RunSame(cfg: Config, u: World, w: World, es: seq<Wait>)
    requires Same(u, w)
    ensures Same(Run(cfg, u, es), Run(cfg, w, es))
    decreases |es|
  {
    if es != [] {
      NextSame(cfg, u, w, es[0]);
      RunSame(cfg, Next(cfg, u, es[0]), Next(cfg, w, es[0]), es[1..]);
    }
  }

  // ----- active_count -----

  /** The announced pids that have not ended, from the events alone. */
  function NextAnnounced(cfg: Config, live: set<Pid>, e: Wait): set<Pid> {
    if !e.Report? then live
    else if IsGone(e.status) then live - {e.pid}
    else if IsForkStop(cfg, e.status) && e.child.Some? then live + {e.child.value}
    else live
  }

  /** active_count counts the announced tracees, all of which hold a slot. */
  ghost predicate Counted(w: World, live: set<Pid>) {
    && w.active == |live|
    && live <= w.phases.Keys
  }

  /** The condition on one event: a pid is announced once per lifetime and finds room, and only
      announced pids end. */
  predicate Orderly(cfg: Config, w: World, live: set<Pid>, e: Wait) {
    e.Report? ==>
      && (IsGone(e.status) ==> e.pid in live)
      && (IsForkStop(cfg, e.status) && e.child.Some? ==>
            e.child.value !in live && HasRoom(w.phases, e.child.value))
  }

  lemma {:induction false} CountedFork(w: World, live: set<Pid>, pid: Pid, child: Pid)
    requires Counted(w, live)
    ensures Counted(ForkStop(w, pid, Some(child)), live + {child}) <==> child !in live && HasRoom(w.phases, child)
  {
    if child in live {
      assert live + {child} == live;
    } else {
      assert |live + {child}| == |live| + 1;
    }
  }

  lemma {:induction false} CountedGone(w: World, live: set<Pid>, pid: Pid)
    requires Counted(w, live)
    ensures Counted(Gone(w, pid), live - {pid}) <==> pid in live
  {
    if pid in live {
      assert live == (live - {pid}) + {pid};
    } else {
      assert live - {pid} == live;
    }
  }

  /** One turn keeps active_count right exactly when the event is orderly. */
  lemma {:induction false} CountedStepIff(cfg: Config, w: World, live: set<Pid>, e: Wait)
    requires !w.halted && Counted(w, live)
    ensures Counted(Next(cfg, w, e), NextAnnounced(cfg, live, e)) <==> Orderly(cfg, w, live, e)
  {
    if e.Report? && IsForkStop(cfg, e.status) {
      if e.child.Some? {
        CountedFork(w, live, e.pid, e.child.value);
      }
    } else if e.Report? && IsGone(e.status) {
      CountedGone(w, live, e.pid);
    } else {
      assert live <= Next(cfg, w, e).phases.Keys;
    }
  }

  ghost predicate OrderlyRun(cfg: Config, w: World, live: set<Pid>, es: seq<Wait>)
    decreases |es|
  {
    es == [] || (Orderly(cfg, w, live, es[0]) && es[0] != NoTracees &&
                 OrderlyRun(cfg, Next(cfg, w, es[0]), NextAnnounced(cfg, live, es[0]), es[1..]))
  }

  function Announced(cfg: Config, live: set<Pid>, es: seq<Wait>): set<Pid>
    decreases |es|
  {
    if es == [] then live else Announced(cfg, NextAnnounced(cfg, live, es[0]), es[1..])
  }

  /** Until the loop is left there is an announced tracee, and it is left when the last one ends. */
  ghost predicate InStep(w: World, live: set<Pid>) {
    Counted(w, live) && (w.halted <==> live == {})
  }

  lemma {:induction false} InStepRun(cfg: Config, w: World, live: set<Pid>, es: seq<Wait>)
    requires InStep(w, live) && OrderlyRun(cfg, w, live, es) && TakesAll(cfg, w, es)
    ensures InStep(Run(cfg, w, es), Announced(cfg, live, es))
    decreases |es|
  {
    if es != [] {
      CountedStepIff(cfg, w, live, es[0]);
      var v, next := Next(cfg, w, es[0]), NextAnnounced(cfg, live, es[0]);
      assert v.halted <==> next == {} by {
        if |next| == 0 { assert next == {}; }
      }
      InStepRun(cfg, v, next, es[1..]);
    }
  }

  /** In every orderly run, the slots in use are active_count plus the pids seen but not yet
      announced, and the loop has been left exactly when no announced tracee remains. */
  lemma {:induction false} ActiveCountIsExact(cfg: Config, root: Pid, es: seq<Wait>)
    requires OrderlyRun(cfg, Start(root), {root}, es) && TakesAll(cfg, Start(root), es)
    ensures var w, live := Run(cfg, Start(root), es), Announced(cfg, {root}, es);
            && |w.phases| == w.active + |w.phases.Keys - live|
            && (w.halted <==> live == {})
  {
    InStepRun(cfg, Start(root), {root}, es);
    var w, live := Run(cfg, Start(root), es), Announced(cfg, {root}, es);
    assert w.phases.Keys == live + (w.phases.Keys - live);
    assert |w.phases| == |w.phases.Keys|;
  }
}
