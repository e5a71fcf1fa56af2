/** Two runs with the same events of every pid whose tables differ: past 256 names the order decides. */
module SummaryLimit {
  import opened Options
  import opened SummaryRows
  import opened SummaryOrder
  import opened TraceModel
  import opened Interleaving

  function CallStopOf(p: Pid, name: string, ret: int, now: int): Wait {
    Report(p, Stopped(SYSCALL_STOP, 0), None, Some(Regs(name, [], ret)), now)
  }

  /** The entry and the exit of each call, made by one pid. */
  function CallEvents(p: Pid, ds: seq<Done>): seq<Wait> {
    if ds == [] then []
    else
      var d := ds[|ds| - 1];
      CallEvents(p, ds[..|ds| - 1]) + [CallStopOf(p, d.name, 0, 0), CallStopOf(p, d.name, d.ret, d.took)]
  }

  /** Takes all the events in an unfilled table, and leaves these phases and the table of ds. */
  ghost predicate Leads(cfg: Config, w: World, es: seq<Wait>, m: map<Pid, Phase>, ds: seq<Done>) {
    && TakesAll(cfg, w, es) && NeverFull(cfg, w, es)
    && var v := Run(cfg, w, es); !v.halted && v.phases == m && v.rows == Tally(ds)
  }

  lemma {:induction false} TakesAllSplit(cfg: Config, w: World, a: seq<Wait>, b: seq<Wait>)
    ensures TakesAll(cfg, w, a + b) <==> TakesAll(cfg, w, a) && TakesAll(cfg, Run(cfg, w, a), b)
    ensures NeverFull(cfg, w, a + b) <==> NeverFull(cfg, w, a) && NeverFull(cfg, Run(cfg, w, a), b)
    decreases |a|
  {
    if a == [] {
      assert a + b == b;
    } else {
      assert (a + b)[1..] == a[1..] + b;
      TakesAllSplit(cfg, Next(cfg, w, a[0]), a[1..], b);
    }
  }

  lemma {:induction false} LeadsOn(cfg: Config, w: World, a: seq<Wait>, m: map<Pid, Phase>, ds: seq<Done>,
                                   b: seq<Wait>, n: map<Pid, Phase>, es: seq<Done>)
    requires Leads(cfg, w, a, m, ds) && Leads(cfg, Run(cfg, w, a), b, n, es)
    ensures Leads(cfg, w, a + b, n, es)
  {
    TakesAllSplit(cfg, w, a, b);
    RunSplit(cfg, w, a, b);
  }

  lemma {:induction false} OneEvent(cfg: Config, w: World, e: Wait, m: map<Pid, Phase>, ds: seq<Done>)
    requires !w.halted && FindsRoom(cfg, w, e)
    requires var v := Next(cfg, w, e); !v.halted && v.phases == m && v.rows == Tally(ds)
    ensures Leads(cfg, w, [e], m, ds) && Run(cfg, w, [e]) == Next(cfg, w, e)
  {
    assert [e][1..] == [];
  }

  /** The call of d is in flight. */
  predicate Calling(ph: Phase, d: Done) {
    (ph.Shown? || ph.Owed?) && ph.name == d.name && ph.since == 0
  }

  lemma {:induction false} CallEntered(cfg: Config, w: World, p: Pid, d: Done)
    requires cfg.summaryMode && cfg.Allows(d.name) && !w.halted
    requires HasRoom(w.phases, p) && PhaseOf(w.phases, p).Idle?
    ensures var v := Next(cfg, w, CallStopOf(p, d.name, 0, 0));
            && !v.halted && v.rows == w.rows
            && p in v.phases && Calling(v.phases[p], d)
            && v.phases[p := Idle] == w.phases[p := Idle]
  {
    var e := CallStopOf(p, d.name, 0, 0);
    var ph := EntryPhase(cfg, e.regs.value, 0);
    assert Next(cfg, w, e) == CallStop(cfg, w, p, e.regs, 0);
    assert CallPhases(cfg, w.phases, p, e.regs, 0) == w.phases[p := ph];
  }

  lemma {:induction false} CallLeft(cfg: Config, w: World, p: Pid, ds: seq<Done>, d: Done)
    requires cfg.summaryMode && !w.halted && w.rows == Tally(ds) && p in w.phases && Calling(w.phases[p], d)
    ensures var v := Next(cfg, w, CallStopOf(p, d.name, d.ret, d.took));
            !v.halted && v.rows == Tally(ds + [d]) && v.phases == w.phases[p := Idle]
  {
    TallyOne(ds, d);
  }

  lemma {:induction false} OneCall(cfg: Config, w: World, p: Pid, ds: seq<Done>, d: Done)
    requires cfg.summaryMode && cfg.Allows(d.name) && !w.halted && w.rows == Tally(ds)
    requires HasRoom(w.phases, p) && PhaseOf(w.phases, p).Idle?
    ensures Leads(cfg, w, [CallStopOf(p, d.name, 0, 0), CallStopOf(p, d.name, d.ret, d.took)],
                  w.phases[p := Idle], ds + [d])
  {
    var e, f := CallStopOf(p, d.name, 0, 0), CallStopOf(p, d.name, d.ret, d.took);
    var v := Next(cfg, w, e);
    CallEntered(cfg, w, p, d);
    CallLeft(cfg, v, p, ds, d);
    OneEvent(cfg, w, e, v.phases, ds);
    OneEvent(cfg, v, f, w.phases[p := Idle], ds + [d]);
    assert [e] + [f] == [e, f];
    LeadsOn(cfg, w, [e], v.phases, ds, [f], w.phases[p := Idle], ds + [d]);
  }

  lemma {:induction false} Calls(cfg: Config, w: World, p: Pid, before: seq<Done>, ds: seq<Done>)
    requires cfg.summaryMode && (forall d :: d in ds ==> cfg.Allows(d.name)) && !w.halted && w.rows == Tally(before)
    requires p in w.phases && w.phases[p].Idle?
    ensures Leads(cfg, w, CallEvents(p, ds), w.phases, before + ds)
    decreases |ds|
  {
    if ds == [] {
      assert before + ds == before;
    } else {
      var front, d := ds[..|ds| - 1], ds[|ds| - 1];
      Calls(cfg, w, p, before, front);
      var v := Run(cfg, w, CallEvents(p, front));
      OneCall(cfg, v, p, before + front, d);
      assert v.phases[p := Idle] == w.phases;
      assert (before + front) + [d] == before + ds;
      LeadsOn(cfg, w, CallEvents(p, front), w.phases, before + front,
              [CallStopOf(p, d.name, 0, 0), CallStopOf(p, d.name, d.ret, d.took)], w.phases, before + ds);
    }
  }

  lemma {:induction false} PairIsOwn(cfg: Config, p: Pid, d: Done, q: Pid)
    ensures var e, f := CallStopOf(p, d.name, 0, 0), CallStopOf(p, d.name, d.ret, d.took);
            (q != p ==> Own([e, f], q) == []) && Lives(cfg, [e, f], q) == []
  {
    var e, f := CallStopOf(p, d.name, 0, 0), CallStopOf(p, d.name, d.ret, d.took);
    assert [e, f][1..] == [f] && [f][1..] == [];
    assert Own([f][1..], q) == [] && Lives(cfg, [f][1..], q) == [];
    assert q != p ==> Own([f], q) == [];
    assert Lives(cfg, [f], q) == [];
  }

  lemma {:induction false} CallsAreOwn(cfg: Config, p: Pid, ds: seq<Done>, q: Pid)
    ensures q != p ==> Own(CallEvents(p, ds), q) == []
    ensures Lives(cfg, CallEvents(p, ds), q) == [] && NoTracees !in CallEvents(p, ds)
    decreases |ds|
  {
    if ds != [] {
      var front, d := ds[..|ds| - 1], ds[|ds| - 1];
      var pair := [CallStopOf(p, d.name, 0, 0), CallStopOf(p, d.name, d.ret, d.took)];
      CallsAreOwn(cfg, p, front, q);
      OwnSplit(CallEvents(p, front), pair, q);
      LivesSplit(cfg, CallEvents(p, front), pair, q);
      PairIsOwn(cfg, p, d, q);
    }
  }

  /** Either pid may go first as far as the order of each pid's own events is concerned. */
  lemma {:induction false} EitherFirst(cfg: Config, ds: seq<Done>, gs: seq<Done>)
    ensures var a, b := CallEvents(1, ds), CallEvents(2, gs);
            Rearranged(cfg, a + b, b + a) && NoTracees !in a + b && NoTracees !in b + a
  {
    var a, b := CallEvents(1, ds), CallEvents(2, gs);
    forall p
      ensures Own(a + b, p) == Own(b + a, p) && Lives(cfg, a + b, p) == Lives(cfg, b + a, p)
    {
      OwnSplit(a, b, p);
      OwnSplit(b, a, p);
      LivesSplit(cfg, a, b, p);
      LivesSplit(cfg, b, a, p);
      CallsAreOwn(cfg, 1, ds, p);
      CallsAreOwn(cfg, 2, gs, p);
    }
    CallsAreOwn(cfg, 1, ds, 1);
    CallsAreOwn(cfg, 2, gs, 2);
  }

  lemma {:induction false} SingleCall(cfg: Config, w: World, p: Pid, before: seq<Done>, d: Done)
    requires cfg.summaryMode && cfg.Allows(d.name) && !w.halted && w.rows == Tally(before)
    requires HasRoom(w.phases, p) && PhaseOf(w.phases, p).Idle?
    ensures Leads(cfg, w, CallEvents(p, [d]), w.phases[p := Idle], before + [d])
  {
    assert [d][..0] == [];
    assert CallEvents(p, [d]) == [CallStopOf(p, d.name, 0, 0), CallStopOf(p, d.name, d.ret, d.took)];
    OneCall(cfg, w, p, before, d);
  }

  /** Pid 1 completes calls of 256 names or more, and pid 2 one call of another. The two orders
      meet every hypothesis of InterleavingIndependence, and the tables differ. */
  lemma {:induction false} OrderDecidesTheTable(cfg: Config, ds: seq<Done>, d: Done)
    requires cfg.summaryMode && forall name :: cfg.Allows(name)
    requires |Distinct(ds)| >= MAX_SUMMARY_ENTRIES && d.name !in Distinct(ds)
    ensures var a, b := CallEvents(1, ds), CallEvents(2, [d]);
            && Rearranged(cfg, a + b, b + a) && NoTracees !in a + b && NoTracees !in b + a
            && NeverFull(cfg, Start(1), a + b) && TakesAll(cfg, Start(1), a + b)
            && NeverFull(cfg, Start(1), b + a) && TakesAll(cfg, Start(1), b + a)
            && multiset(Run(cfg, Start(1), a + b).rows) != multiset(Run(cfg, Start(1), b + a).rows)
  {
    EitherFirst(cfg, ds, [d]);
    ManyThenOne(cfg, ds, d);
    OneThenMany(cfg, ds, d);
    OrderDecides(ds, d);
  }

  lemma {:induction false} ManyThenOne(cfg: Config, ds: seq<Done>, d: Done)
    requires cfg.summaryMode && forall name :: cfg.Allows(name)
    ensures Leads(cfg, Start(1), CallEvents(1, ds) + CallEvents(2, [d]), map[1 := Idle, 2 := Idle], ds + [d])
  {
    var a, b := CallEvents(1, ds), CallEvents(2, [d]);
    Calls(cfg, Start(1), 1, [], ds);
    assert [] + ds == ds;
    SingleCall(cfg, Run(cfg, Start(1), a), 2, ds, d);
    assert map[1 := Idle][2 := Idle] == map[1 := Idle, 2 := Idle];
    LeadsOn(cfg, Start(1), a, map[1 := Idle], ds, b, map[1 := Idle, 2 := Idle], ds + [d]);
  }

  lemma {:induction false} OneThenMany(cfg: Config, ds: seq<Done>, d: Done)
    requires cfg.summaryMode && forall name :: cfg.Allows(name)
    ensures Leads(cfg, Start(1), CallEvents(2, [d]) + CallEvents(1, ds), map[1 := Idle, 2 := Idle], [d] + ds)
  {
    var a, b, both := CallEvents(1, ds), CallEvents(2, [d]), map[1 := Idle, 2 := Idle];
    SingleCall(cfg, Start(1), 2, [], d);
    assert [] + [d] == [d];
    assert map[1 := Idle][2 := Idle] == both;
    Calls(cfg, Run(cfg, Start(1), b), 1, [d], ds);
    LeadsOn(cfg, Start(1), b, both, [d], a, both, [d] + ds);
  }
}
