/** call_count: one for every call that is entered, whatever the filter, the tables and the options. */
module CallCount {
  import opened Options
  import opened TraceLog
  import opened TraceModel

  /** The same options, but every call is printed at its entry. */
  function AtEntry(cfg: Config, all: string -> bool, none: string -> Pending): Config {
    cfg.(summaryMode := false, filter := all, route := none)
  }

  function HeadsIn(log: seq<Item>): nat {
    if log == [] then 0 else HeadsIn(log[..|log| - 1]) + if log[|log| - 1].Head? then 1 else 0
  }

  lemma {:induction false} HeadsInAppend(a: seq<Item>, b: seq<Item>)
    ensures HeadsIn(a + b) == HeadsIn(a) + HeadsIn(b)
    decreases |b|
  {
    if b == [] {
      assert a + b == a;
    } else {
      assert (a + b)[..|a + b| - 1] == a + b[..|b| - 1];
      HeadsInAppend(a, b[..|b| - 1]);
    }
  }

  lemma {:induction false} OneItem(x: Item)
    ensures HeadsIn([x]) == if x.Head? then 1 else 0
  {
    assert HeadsIn([x][..0]) == 0;
  }

  /** Inside a call in the one exactly when inside a call in the other. */
  ghost predicate SameStanding(m: map<Pid, Phase>, n: map<Pid, Phase>) {
    && m.Keys == n.Keys
    && forall p :: p in m ==> (m[p].Idle? <==> n[p].Idle?) && !n[p].Owed?
  }

  /** The run u of any options beside the run v that prints every head at the entry. */
  ghost predicate Beside(u: World, v: World) {
    && SameStanding(u.phases, v.phases) && u.calls == HeadsIn(v.log)
    && u.active == v.active && u.halted == v.halted
  }

  ghost predicate PrintsAll(loud: Config) {
    && !loud.summaryMode && (forall name :: loud.Allows(name)) && (forall name :: !loud.Defers(name))
  }

  /** A syscall stop prints a head at its entry, and none at its exit. */
  lemma {:induction false} LoudStop(loud: Config, v: World, e: Wait)
    requires e.Report? && e.regs.Some? && IsCallStop(loud, e.status) && HasRoom(v.phases, e.pid) && !v.halted
    requires !loud.summaryMode && loud.Allows(e.regs.value.name) && !loud.Defers(e.regs.value.name)
    requires !PhaseOf(v.phases, e.pid).Owed?
    ensures HeadsIn(Emitted(loud, v, e)) == if PhaseOf(v.phases, e.pid).Idle? then 1 else 0
  {
    var xs := Emitted(loud, v, e);
    if xs != [] {
      assert xs == [xs[0]];
      OneItem(xs[0]);
    }
  }

  lemma {:induction false} QuietStop(loud: Config, v: World, e: Wait)
    requires v.halted || !e.Report? || !IsCallStop(loud, e.status) || !HasRoom(v.phases, e.pid) || e.regs.None?
    ensures HeadsIn(Emitted(loud, v, e)) == 0
  {
    var xs := Emitted(loud, v, e);
    if xs != [] {
      assert xs == [Sig(e.pid, e.status.sig)];
      OneItem(xs[0]);
    }
  }

  lemma {:induction false} LoudHeads(loud: Config, v: World, e: Wait)
    requires PrintsAll(loud) && !PhaseOf(v.phases, if e.Report? then e.pid else 0).Owed?
    ensures HeadsIn(Next(loud, v, e).log) == HeadsIn(v.log) + NewCalls(loud, v.phases, v.halted, e)
  {
    NextLog(loud, v, e);
    HeadsInAppend(v.log, Emitted(loud, v, e));
    if v.halted || !e.Report? || !IsCallStop(loud, e.status) || !HasRoom(v.phases, e.pid) || e.regs.None? {
      QuietStop(loud, v, e);
    } else {
      assert loud.Allows(e.regs.value.name) && !loud.Defers(e.regs.value.name);
      LoudStop(loud, v, e);
    }
  }

  /** What an event adds to call_count. */
  function NewCalls(cfg: Config, m: map<Pid, Phase>, halted: bool, e: Wait): nat {
    if !halted && e.Report? && IsCallStop(cfg, e.status) && HasRoom(m, e.pid) && e.regs.Some?
       && PhaseOf(m, e.pid).Idle?
    then 1 else 0
  }

  /** Only a stop with signal 133, of a pid outside a call, that has a slot or finds one, and whose
      registers can be read, is counted. */
  lemma {:induction false} CountedByNumbers(cfg: Config, u: World, e: Wait)
    ensures Next(cfg, u, e).calls - u.calls ==
            if !u.halted && e.Report? && e.status.Stopped? && e.status.sig == 133 && e.regs.Some?
               && (if e.pid in u.phases then u.phases[e.pid] == Idle else |u.phases| < 64)
            then 1 else 0
  {
  }

  lemma {:induction false} CountedCalls(cfg: Config, u: World, e: Wait)
    ensures Next(cfg, u, e).calls == u.calls + NewCalls(cfg, u.phases, u.halted, e)
  {
  }

  lemma {:induction false} SameSize(m: map<Pid, Phase>, n: map<Pid, Phase>)
    requires SameStanding(m, n)
    ensures |m| == |n|
  {
    assert |m| == |m.Keys| && |n| == |n.Keys|;
  }

  lemma {:induction false} StandingRegister(m: map<Pid, Phase>, n: map<Pid, Phase>, p: Pid)
    requires SameStanding(m, n)
    ensures SameStanding(Register(m, p), Register(n, p)) && HasRoom(m, p) == HasRoom(n, p)
  {
    SameSize(m, n);
  }

  lemma {:induction false} StandingCall(cfg: Config, loud: Config, m: map<Pid, Phase>, n: map<Pid, Phase>,
                                        p: Pid, regs: Option<Regs>, now: int)
    requires PrintsAll(loud) && SameStanding(m, n)
    ensures SameStanding(CallPhases(cfg, m, p, regs, now), CallPhases(loud, n, p, regs, now))
  {
    StandingRegister(m, n, p);
    if regs.Some? {
      assert loud.Allows(regs.value.name) && !loud.Defers(regs.value.name);
    }
  }

  lemma {:induction false} StandingStep(cfg: Config, loud: Config, u: World, v: World, e: Wait)
    requires PrintsAll(loud) && loud.followForks == cfg.followForks
    requires SameStanding(u.phases, v.phases) && u.active == v.active && u.halted == v.halted
    ensures var u', v' := Next(cfg, u, e), Next(loud, v, e);
            SameStanding(u'.phases, v'.phases) && u'.active == v'.active && u'.halted == v'.halted
  {
    if u.halted || !e.Report? {
    } else if IsGone(e.status) {
      assert SameStanding(u.phases - {e.pid}, v.phases - {e.pid});
    } else if IsForkStop(cfg, e.status) {
      if e.child.Some? {
        StandingRegister(u.phases, v.phases, e.child.value);
      }
    } else if IsSignalStop(cfg, e.status) {
      StandingRegister(u.phases, v.phases, e.pid);
    } else if IsCallStop(cfg, e.status) {
      StandingCall(cfg, loud, u.phases, v.phases, e.pid, e.regs, e.now);
    }
  }

  lemma {:induction false} BesideStep(cfg: Config, loud: Config, u: World, v: World, e: Wait)
    requires PrintsAll(loud) && loud.followForks == cfg.followForks && Beside(u, v)
    ensures Beside(Next(cfg, u, e), Next(loud, v, e))
  {
    SameSize(u.phases, v.phases);
    StandingStep(cfg, loud, u, v, e);
    LoudHeads(loud, v, e);
    CountedCalls(cfg, u, e);
  }

  lemma {:induction false} BesideRun(cfg: Config, loud: Config, u: World, v: World, es: seq<Wait>)
    requires PrintsAll(loud) && loud.followForks == cfg.followForks && Beside(u, v)
    ensures Beside(Run(cfg, u, es), Run(loud, v, es))
    decreases |es|
  {
    if es != [] {
      BesideStep(cfg, loud, u, v, es[0]);
      BesideRun(cfg, loud, Next(cfg, u, es[0]), Next(loud, v, es[0]), es[1..]);
    }
  }

  /** Whatever the filter, the tables, -T and -c: call_count is the number of heads that the same
      events print when every call is shown at its entry. */
  lemma {:induction false} CallCountIsHeads(cfg: Config, all: string -> bool, none: string -> Pending,
                                            root: Pid, es: seq<Wait>)
    requires (forall name :: all(name)) && forall name :: none(name) == NO_PENDING
    ensures Run(cfg, Start(root), es).calls == HeadsIn(Run(AtEntry(cfg, all, none), Start(root), es).log)
  {
    BesideRun(cfg, AtEntry(cfg, all, none), Start(root), Start(root), es);
  }
}
