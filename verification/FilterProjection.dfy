/** Filtering is projection: -e trace=SET erases lines and changes nothing else. */
module FilterProjection {
  import opened Options
  import opened TraceModel
  import opened TraceLog

  /** Whether a filter keeps an item printed after `before`: heads and tails of the calls it
      allows, and every signal. */
  predicate Keeps(filter: string -> bool, before: seq<Item>, x: Item) {
    match x
    case Head(_, name, _) => filter(name)
    case Tail(pid, _, _) =>
      var h := LastHead(before, pid);
      h.Some? && filter(h.value)
    case Sig(_, _) => true
  }

  function Restrict(filter: string -> bool, log: seq<Item>): seq<Item> {
    if log == [] then []
    else
      var before, x := log[..|log| - 1], log[|log| - 1];
      Restrict(filter, before) + if Keeps(filter, before, x) then [x] else []
  }

  /** What the filter makes of a phase of the unfiltered run. */
  function Veil(cfg: Config, ph: Phase): Phase {
    if ph.Idle? || cfg.Allows(ph.name) then ph else Hidden(ph.name)
  }

  ghost predicate Veiled(cfg: Config, m: map<Pid, Phase>, n: map<Pid, Phase>) {
    && n.Keys == m.Keys
    && forall p :: p in m ==> !m[p].Hidden? && n[p] == Veil(cfg, m[p])
  }

  /** The filtered world w beside the unfiltered world u. */
  ghost predicate Projects(cfg: Config, u: World, w: World) {
    && OpenHeads(cfg, u)
    && Veiled(cfg, u.phases, w.phases)
    && w.log == Restrict(cfg.filter, u.log)
    && w.calls == u.calls && w.active == u.active
    && w.resumes == u.resumes && w.halted == u.halted
  }

  /** base has the same options as cfg, and no filter. */
  ghost predicate Unfiltered(base: Config, cfg: Config) {
    && base == cfg.(filter := base.filter)
    && forall name :: base.filter(name)
  }

  lemma {:induction false} RestrictOne(filter: string -> bool, log: seq<Item>, x: Item)
    ensures Restrict(filter, log + [x]) == Restrict(filter, log) + if Keeps(filter, log, x) then [x] else []
  {
    assert (log + [x])[..|log|] == log;
  }

  lemma {:induction false} RestrictEntry(base: Config, cfg: Config, log: seq<Item>, pid: Pid, r: Regs)
    requires Unfiltered(base, cfg)
    ensures Restrict(cfg.filter, log + EntryItems(base, pid, r)) ==
            Restrict(cfg.filter, log) + EntryItems(cfg, pid, r)
  {
    assert base.filter(r.name);
    if cfg.summaryMode || cfg.Defers(r.name) {
      assert log + [] == log && Restrict(cfg.filter, log) + [] == Restrict(cfg.filter, log);
    } else {
      RestrictOne(cfg.filter, log, Head(pid, r.name, r.args));
    }
  }

  /** A head and its tail stay or go together. */
  lemma {:induction false} RestrictPair(filter: string -> bool, log: seq<Item>, head: Item, tail: Item)
    requires head.Head? && tail.Tail? && head.pid == tail.pid
    ensures Restrict(filter, log + [head, tail]) ==
            Restrict(filter, log) + if filter(head.name) then [head, tail] else []
  {
    assert log + [head, tail] == (log + [head]) + [tail];
    RestrictOne(filter, log, head);
    RestrictOne(filter, log + [head], tail);
    HeadOne(log, head, head.pid);
  }

  lemma {:induction false} RestrictExit(base: Config, cfg: Config, log: seq<Item>, pid: Pid, ph: Phase,
                                        ret: int, now: int)
    requires Unfiltered(base, cfg)
    requires !ph.Idle? && !ph.Hidden?
    requires ph.Shown? && !cfg.summaryMode ==> LastHead(log, pid) == Some(ph.name)
    ensures Restrict(cfg.filter, log + ExitItems(base, pid, ph, ret, now)) ==
            Restrict(cfg.filter, log) + ExitItems(cfg, pid, Veil(cfg, ph), ret, now)
  {
    var xs := ExitItems(base, pid, ph, ret, now);
    if xs == [] {
      assert log + xs == log;
    } else if ph.Shown? {
      assert xs == [xs[0]];
      RestrictOne(cfg.filter, log, xs[0]);
    } else {
      assert xs == [xs[0], xs[1]];
      RestrictPair(cfg.filter, log, xs[0], xs[1]);
    }
  }

  lemma {:induction false} RestrictSig(filter: string -> bool, log: seq<Item>, pid: Pid, sig: int)
    ensures Restrict(filter, log + SigItems(pid, sig)) == Restrict(filter, log) + SigItems(pid, sig)
  {
    if SigItems(pid, sig) == [] {
      assert log + SigItems(pid, sig) == log;
    } else {
      RestrictOne(filter, log, Sig(pid, sig));
    }
  }

  lemma {:induction false} VeiledRegister(cfg: Config, m: map<Pid, Phase>, n: map<Pid, Phase>, pid: Pid)
    requires Veiled(cfg, m, n)
    ensures |m| == |n| && (HasRoom(m, pid) <==> HasRoom(n, pid))
    ensures Veiled(cfg, Register(m, pid), Register(n, pid))
  {
    assert |m| == |m.Keys| && |n| == |n.Keys|;
  }

  lemma {:induction false} VeiledCall(base: Config, cfg: Config, m: map<Pid, Phase>, n: map<Pid, Phase>,
                                      pid: Pid, regs: Option<Regs>, now: int)
    requires Unfiltered(base, cfg)
    requires Veiled(cfg, m, n)
    ensures Veiled(cfg, CallPhases(base, m, pid, regs, now), CallPhases(cfg, n, pid, regs, now))
  {
    VeiledRegister(cfg, m, n, pid);
  }

  lemma {:induction false} ProjectsCall(base: Config, cfg: Config, u: World, w: World, pid: Pid,
                                        regs: Option<Regs>, now: int)
    requires Unfiltered(base, cfg)
    requires Projects(cfg, u, w)
    ensures var u', w' := CallStop(base, u, pid, regs, now), CallStop(cfg, w, pid, regs, now);
            && Veiled(cfg, u'.phases, w'.phases)
            && w'.log == Restrict(cfg.filter, u'.log)
            && w'.calls == u'.calls && w'.active == u'.active
            && w'.resumes == u'.resumes && w'.halted == u'.halted
  {
    VeiledRegister(cfg, u.phases, w.phases, pid);
    VeiledCall(base, cfg, u.phases, w.phases, pid, regs, now);
    if HasRoom(u.phases, pid) && regs.Some? {
      if pid !in u.phases || u.phases[pid].Idle? {
        RestrictEntry(base, cfg, u.log, pid, regs.value);
      } else {
        RestrictExit(base, cfg, u.log, pid, u.phases[pid], regs.value.ret, now);
      }
    }
  }

  lemma {:induction false} ProjectsSignal(cfg: Config, u: World, w: World, pid: Pid, sig: int)
    requires Projects(cfg, u, w)
    ensures var u', w' := SignalStop(u, pid, sig), SignalStop(w, pid, sig);
            && Veiled(cfg, u'.phases, w'.phases)
            && w'.log == Restrict(cfg.filter, u'.log)
  {
    VeiledRegister(cfg, u.phases, w.phases, pid);
    RestrictSig(cfg.filter, u.log, pid, sig);
  }

  lemma {:induction false} ProjectsStep(base: Config, cfg: Config, u: World, w: World, e: Wait)
    requires Unfiltered(base, cfg)
    requires Projects(cfg, u, w)
    ensures Projects(cfg, Next(base, u, e), Next(cfg, w, e))
  {
    OpenHeadsKept(base, u, e);
    if u.halted || !e.Report? {
    } else if IsGone(e.status) {
      assert Veiled(cfg, u.phases - {e.pid}, w.phases - {e.pid});
    } else if IsForkStop(cfg, e.status) {
      if e.child.Some? {
        VeiledRegister(cfg, u.phases, w.phases, e.child.value);
      }
    } else if IsSignalStop(cfg, e.status) {
      ProjectsSignal(cfg, u, w, e.pid, e.status.sig);
    } else if IsCallStop(cfg, e.status) {
      ProjectsCall(base, cfg, u, w, e.pid, e.regs, e.now);
    }
  }

  lemma {:induction false} ProjectsRun(base: Config, cfg: Config, u: World, w: World, es: seq<Wait>)
    requires Unfiltered(base, cfg)
    requires Projects(cfg, u, w)
    ensures Projects(cfg, Run(base, u, es), Run(cfg, w, es))
    decreases |es|
  {
    if es != [] {
      ProjectsStep(base, cfg, u, w, es[0]);
      ProjectsRun(base, cfg, Next(base, u, es[0]), Next(cfg, w, es[0]), es[1..]);
    }
  }

  /** For every run and every filter: the filtered trace is the unfiltered trace restricted
      to the calls the filter allows; counters, resumes and the end of the loop are the same. */
  lemma {:induction false} FilteringIsProjection(base: Config, cfg: Config, root: Pid, es: seq<Wait>)
    requires Unfiltered(base, cfg)
    ensures var u, w := Run(base, Start(root), es), Run(cfg, Start(root), es);
            && w.log == Restrict(cfg.filter, u.log)
            && w.calls == u.calls && w.active == u.active
            && w.resumes == u.resumes && w.halted == u.halted
            && w.phases.Keys == u.phases.Keys
  {
    ProjectsRun(base, cfg, Start(root), Start(root), es);
  }
}
