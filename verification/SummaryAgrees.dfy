/** -c agrees with the per-call trace: the table is a fold of what -T would have printed. */
module SummaryAgrees {
  import opened Options
  import opened SummaryRows
  import opened TraceModel
  import opened TraceLog

  function PerCall(cfg: Config): Config { cfg.(summaryMode := false, showTiming := true) }

  function Summary(cfg: Config): Config { cfg.(summaryMode := true) }

  /** The completed calls that can be read off a trace printed with -T: each tail, under the
      name on the last head of its pid. */
  function CallsIn(log: seq<Item>): seq<Done> {
    if log == [] then []
    else
      var before, x := log[..|log| - 1], log[|log| - 1];
      CallsIn(before) +
      if x.Tail? && x.took.Some? && LastHead(before, x.pid).Some?
      then [Done(LastHead(before, x.pid).value, x.ret, x.took.value)] else []
  }

  /** Same phases and counters, and a table that is the fold of the trace. */
  ghost predicate AgreesSoFar(u: World, w: World) {
    && w.phases == u.phases
    && w.rows == Tally(CallsIn(u.log))
    && w.calls == u.calls && w.active == u.active
    && w.resumes == u.resumes && w.halted == u.halted
  }

  /** The summary run w beside the per-call run u. */
  ghost predicate Agrees(cfg: Config, u: World, w: World) {
    OpenHeads(PerCall(cfg), u) && AgreesSoFar(u, w)
  }

  lemma {:induction false} CallsInOne(log: seq<Item>, x: Item)
    ensures CallsIn(log + [x]) == CallsIn(log) +
            if x.Tail? && x.took.Some? && LastHead(log, x.pid).Some?
            then [Done(LastHead(log, x.pid).value, x.ret, x.took.value)] else []
  {
    assert (log + [x])[..|log|] == log;
  }

  lemma {:induction false} CallsInQuiet(log: seq<Item>, xs: seq<Item>)
    requires |xs| <= 1 && forall x :: x in xs ==> !x.Tail?
    ensures CallsIn(log + xs) == CallsIn(log)
  {
    if xs == [] {
      assert log + xs == log;
    } else {
      assert xs == [xs[0]];
      CallsInOne(log, xs[0]);
    }
  }

  /** The exit stop of an allowed call adds one call to what the trace says. */
  lemma {:induction false} ExitCalls(cfg: Config, log: seq<Item>, pid: Pid, ph: Phase, ret: int, now: int)
    requires !ph.Idle?
    requires ph.Shown? ==> LastHead(log, pid) == Some(ph.name)
    ensures CallsIn(log + ExitItems(PerCall(cfg), pid, ph, ret, now)) ==
            CallsIn(log) + if ph.Hidden? then [] else [Done(ph.name, ret, now - ph.since)]
  {
    var xs := ExitItems(PerCall(cfg), pid, ph, ret, now);
    if ph.Hidden? {
      assert log + xs == log;
    } else if ph.Shown? {
      assert xs == [xs[0]];
      CallsInOne(log, xs[0]);
    } else {
      assert log + xs == (log + [xs[0]]) + [xs[1]];
      CallsInOne(log, xs[0]);
      CallsInOne(log + [xs[0]], xs[1]);
      HeadOne(log, xs[0], pid);
    }
  }

  lemma {:induction false} ExitAgrees(cfg: Config, log: seq<Item>, pid: Pid, ph: Phase, ret: int, now: int)
    requires !ph.Idle?
    requires ph.Shown? ==> LastHead(log, pid) == Some(ph.name)
    ensures Tally(CallsIn(log + ExitItems(PerCall(cfg), pid, ph, ret, now))) ==
            ExitRows(Summary(cfg), Tally(CallsIn(log)), ph, ret, now)
  {
    ExitCalls(cfg, log, pid, ph, ret, now);
    if ph.Hidden? {
      assert CallsIn(log) + [] == CallsIn(log);
    } else {
      TallyOne(CallsIn(log), Done(ph.name, ret, now - ph.since));
    }
  }

  lemma {:induction false} SamePhases(cfg: Config, m: map<Pid, Phase>, pid: Pid, regs: Option<Regs>, now: int)
    ensures CallPhases(PerCall(cfg), m, pid, regs, now) == CallPhases(Summary(cfg), m, pid, regs, now)
  {
  }

  lemma {:induction false} AgreesCall(cfg: Config, u: World, w: World, pid: Pid, regs: Option<Regs>, now: int)
    requires Agrees(cfg, u, w)
    ensures AgreesSoFar(CallStop(PerCall(cfg), u, pid, regs, now), CallStop(Summary(cfg), w, pid, regs, now))
  {
    SamePhases(cfg, u.phases, pid, regs, now);
    if HasRoom(u.phases, pid) && regs.Some? {
      if pid !in u.phases || u.phases[pid].Idle? {
        CallsInQuiet(u.log, EntryItems(PerCall(cfg), pid, regs.value));
      } else {
        ExitAgrees(cfg, u.log, pid, u.phases[pid], regs.value.ret, now);
      }
    }
  }

  lemma {:induction false} AgreesSignal(u: World, w: World, pid: Pid, sig: int)
    requires AgreesSoFar(u, w)
    ensures AgreesSoFar(SignalStop(u, pid, sig), SignalStop(w, pid, sig))
  {
    CallsInQuiet(u.log, SigItems(pid, sig));
  }

  lemma {:induction false} AgreesOther(cfg: Config, u: World, w: World, e: Wait)
    requires AgreesSoFar(u, w)
    requires e.Report? ==> !IsSignalStop(cfg, e.status) && !IsCallStop(cfg, e.status)
    ensures AgreesSoFar(Next(PerCall(cfg), u, e), Next(Summary(cfg), w, e))
  {
    assert Next(PerCall(cfg), u, e).log == u.log;
  }

  lemma {:induction false} AgreesStep(cfg: Config, u: World, w: World, e: Wait)
    requires Agrees(cfg, u, w)
    ensures Agrees(cfg, Next(PerCall(cfg), u, e), Next(Summary(cfg), w, e))
  {
    OpenHeadsKept(PerCall(cfg), u, e);
    if !u.halted && e.Report? && IsSignalStop(cfg, e.status) {
      AgreesSignal(u, w, e.pid, e.status.sig);
    } else if !u.halted && e.Report? && IsCallStop(cfg, e.status) {
      AgreesCall(cfg, u, w, e.pid, e.regs, e.now);
    } else if !u.halted {
      AgreesOther(cfg, u, w, e);
    }
  }

  lemma {:induction false} AgreesRun(cfg: Config, u: World, w: World, es: seq<Wait>)
    requires Agrees(cfg, u, w)
    ensures Agrees(cfg, Run(PerCall(cfg), u, es), Run(Summary(cfg), w, es))
    decreases |es|
  {
    if es != [] {
      AgreesStep(cfg, u, w, es[0]);
      AgreesRun(cfg, Next(PerCall(cfg), u, es[0]), Next(Summary(cfg), w, es[0]), es[1..]);
    }
  }

  /** For every run, the -c table is the grouping by name of the completed calls that the same
      run prints with -T, and the two runs count, answer and end alike. */
  lemma {:induction false} SummaryAgreesWithTrace(cfg: Config, root: Pid, es: seq<Wait>)
    ensures var u, w := Run(PerCall(cfg), Start(root), es), Run(Summary(cfg), Start(root), es);
            && w.rows == GroupBy(CallsIn(u.log))
            && w.calls == u.calls && w.resumes == u.resumes && w.halted == u.halted
  {
    AgreesRun(cfg, Start(root), Start(root), es);
    TallyIsGroupBy(CallsIn(Run(PerCall(cfg), Start(root), es).log));
  }
}
