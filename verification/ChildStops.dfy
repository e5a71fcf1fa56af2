/**
 The fork event that announces a child, and any number of stops of that child, its own fork events
 included: exactly when their order does not matter.
 */
module ChildStops {
  import opened Options
  import opened Registration
  import opened TraceModel

  /** Whether the pid has a slot is settled, as far as its own stops go. */
  predicate Settled(w: World, c: Pid) {
    w.halted || c in w.phases || |w.phases| >= MAX_TRACEES
  }

  /** The fork events of the child before the first stop that registers it. */
  function Leading(cfg: Config, stops: seq<Wait>): seq<Wait> {
    if stops == [] || Registers(cfg, stops[0]) then [] else [stops[0]] + Leading(cfg, stops[1..])
  }

  /** A stop keeps every slot, and leaves a settled pid as it is. */
  lemma {:induction false} StopKeeps(cfg: Config, w: World, stop: Wait, c: Pid)
    requires StopOf(stop, c)
    ensures var v := Next(cfg, w, stop);
            && v.halted == w.halted && w.phases.Keys <= v.phases.Keys
            && (Settled(w, c) ==> Settled(v, c) && (c in v.phases <==> c in w.phases))
            && (!w.halted && Registers(cfg, stop) ==> Settled(v, c))
  {
    var v := Next(cfg, w, stop);
    assert |w.phases| == |w.phases.Keys| && |v.phases| == |v.phases.Keys|;
    if |w.phases| >= MAX_TRACEES && c !in w.phases {
      assert v.phases.Keys == w.phases.Keys;
    }
  }

  lemma {:induction false} StopsKeep(cfg: Config, w: World, stops: seq<Wait>, c: Pid)
    requires Settled(w, c) && forall s :: s in stops ==> StopOf(s, c)
    ensures c in Run(cfg, w, stops).phases <==> c in w.phases
    ensures Settled(Run(cfg, w, stops), c) && Run(cfg, w, stops).halted == w.halted
    decreases |stops|
  {
    if stops != [] {
      StopKeeps(cfg, w, stops[0], c);
      StopsKeep(cfg, Next(cfg, w, stops[0]), stops[1..], c);
    }
  }

  lemma {:induction false} SettledCommutes(cfg: Config, w: World, fork: Wait, stop: Wait, child: Pid)
    requires Announces(cfg, fork, child) && StopOf(stop, child) && Settled(w, child)
    ensures Same(Next(cfg, Next(cfg, w, fork), stop), Next(cfg, Next(cfg, w, stop), fork))
  {
    if Registers(cfg, stop) {
      ForkCommutesWithChildStop(cfg, w, fork, stop, child);
    } else if !w.halted && stop.child.Some? {
      ForksCommuteIff(cfg, w, fork, stop, child, stop.child.value);
    }
  }

  /** One stop taken to the other side of the fork event. */
  lemma {:induction false} TakeAcross(cfg: Config, w: World, fork: Wait, stop: Wait, rest: seq<Wait>)
    requires Same(Next(cfg, Next(cfg, w, fork), stop), Next(cfg, Next(cfg, w, stop), fork))
    ensures var v := Next(cfg, w, stop);
            && Same(Run(cfg, w, [fork] + ([stop] + rest)), Run(cfg, v, [fork] + rest))
            && Run(cfg, w, ([stop] + rest) + [fork]) == Run(cfg, v, rest + [fork])
  {
    var f, v := Next(cfg, w, fork), Next(cfg, w, stop);
    assert ([fork] + ([stop] + rest))[1..] == [stop] + rest && ([stop] + rest)[1..] == rest;
    assert ([fork] + rest)[1..] == rest;
    assert (([stop] + rest) + [fork])[1..] == rest + [fork];
    RunSame(cfg, Next(cfg, f, stop), Next(cfg, v, fork), rest);
  }

  lemma {:induction false} SettledStops(cfg: Config, w: World, fork: Wait, stops: seq<Wait>, child: Pid)
    requires Announces(cfg, fork, child) && Settled(w, child)
    requires forall s :: s in stops ==> StopOf(s, child)
    ensures Same(Run(cfg, w, [fork] + stops), Run(cfg, w, stops + [fork]))
    decreases |stops|
  {
    if stops == [] {
      assert [fork] + stops == stops + [fork];
    } else {
      var s, rest := stops[0], stops[1..];
      assert stops == [s] + rest;
      SettledCommutes(cfg, w, fork, s, child);
      StopKeeps(cfg, w, s, child);
      TakeAcross(cfg, w, fork, s, rest);
      SettledStops(cfg, Next(cfg, w, s), fork, rest, child);
    }
  }

  /** The last slot went to a child of the child: announced first, the child has a slot, and
      announced last it has none. */
  lemma {:induction false} LastSlotTaken(cfg: Config, w: World, fork: Wait, stop: Wait, rest: seq<Wait>, child: Pid)
    requires Announces(cfg, fork, child) && StopOf(stop, child) && !w.halted
    requires IsForkStop(cfg, stop.status) && stop.child.Some? && OneSlotForTwo(w.phases, child, stop.child.value)
    requires forall s :: s in rest ==> StopOf(s, child)
    ensures !Same(Run(cfg, w, [fork] + ([stop] + rest)), Run(cfg, w, ([stop] + rest) + [fork]))
    ensures var r := Run(cfg, Next(cfg, w, stop), rest); Settled(r, child) && child !in r.phases && !r.halted
  {
    var f, v := Next(cfg, w, fork), Next(cfg, w, stop);
    assert ([fork] + ([stop] + rest))[1..] == [stop] + rest;
    StopsKeep(cfg, f, [stop] + rest, child);
    assert |v.phases| == MAX_TRACEES;
    StopsKeep(cfg, v, rest, child);
    assert (([stop] + rest) + [fork])[1..] == rest + [fork];
    RunLast(cfg, v, rest, fork);
  }

  /** Leading fork events stay leading, and only add slots. */
  lemma {:induction false} LeadingStops(cfg: Config, stops: seq<Wait>, c: Pid)
    requires forall s :: s in stops ==> StopOf(s, c)
    ensures forall s :: s in Leading(cfg, stops) ==> StopOf(s, c)
  {
    if stops != [] && !Registers(cfg, stops[0]) {
      LeadingStops(cfg, stops[1..], c);
    }
  }

  lemma {:induction false} LeadingCons(cfg: Config, w: World, stop: Wait, rest: seq<Wait>)
    requires !Registers(cfg, stop)
    ensures Run(cfg, w, Leading(cfg, [stop] + rest)) == Run(cfg, Next(cfg, w, stop), Leading(cfg, rest))
  {
    assert ([stop] + rest)[1..] == rest;
    assert ([stop] + Leading(cfg, rest))[1..] == Leading(cfg, rest);
  }

  /** The fork event and any stops of the child, its own fork events included, commute exactly when
      the fork events with which the child begins leave it a slot, or its slot is settled before. */
  lemma {:induction false} ForkCommutesWithChildStopsIff(cfg: Config, w: World, fork: Wait, stops: seq<Wait>,
                                                         child: Pid)
    requires Announces(cfg, fork, child)
    requires forall s :: s in stops ==> StopOf(s, child)
    ensures Same(Run(cfg, w, [fork] + stops), Run(cfg, w, stops + [fork])) <==>
            Settled(w, child) || HasRoom(Run(cfg, w, Leading(cfg, stops)).phases, child)
    decreases |stops|
  {
    if Settled(w, child) {
      SettledStops(cfg, w, fork, stops, child);
    } else if stops == [] {
      assert [fork] + stops == stops + [fork];
    } else {
      var s, rest := stops[0], stops[1..];
      var v := Next(cfg, w, s);
      assert stops == [s] + rest;
      StopKeeps(cfg, w, s, child);
      if Registers(cfg, s) {
        ForkCommutesWithChildStop(cfg, w, fork, s, child);
        TakeAcross(cfg, w, fork, s, rest);
        SettledStops(cfg, v, fork, rest, child);
      } else {
        LeadingCons(cfg, w, s, rest);
        LeadingStops(cfg, rest, child);
        if s.child.Some? && OneSlotForTwo(w.phases, child, s.child.value) {
          LastSlotTaken(cfg, w, fork, s, rest, child);
          LastSlotTaken(cfg, w, fork, s, Leading(cfg, rest), child);
        } else {
          if s.child.Some? {
            ForksCommuteIff(cfg, w, fork, s, child, s.child.value);
          }
          TakeAcross(cfg, w, fork, s, rest);
          ForkCommutesWithChildStopsIff(cfg, v, fork, rest, child);
          if Settled(v, child) {
            StopsKeep(cfg, v, Leading(cfg, rest), child);
          }
        }
      }
    }
  }

  /** In particular when the child's first stop is not a fork event. */
  lemma {:induction false} ForkCommutesWithChildStops(cfg: Config, w: World, fork: Wait, stops: seq<Wait>, child: Pid)
    requires Announces(cfg, fork, child)
    requires forall s :: s in stops ==> StopOf(s, child)
    requires stops != [] ==> Registers(cfg, stops[0])
    ensures Same(Run(cfg, w, [fork] + stops), Run(cfg, w, stops + [fork]))
  {
    ForkCommutesWithChildStopsIff(cfg, w, fork, stops, child);
  }

  // ----- Where it fails -----

  /** The fork event in which a parent announces a child. */
  function ForkOf(parent: Pid, child: Pid): Wait {
    Report(parent, Stopped(SIGTRAP, EVENT_FORK), Some(child), None, 0)
  }

  /** Pid 1 announces 2, 3 and so on, until there are n tracees. */
  function Crowding(n: nat): seq<Wait> {
    if n <= 1 then [] else Crowding(n - 1) + [ForkOf(1, n)]
  }

  lemma {:induction false} Crowd(cfg: Config, n: nat)
    requires cfg.followForks && 1 <= n <= MAX_TRACEES
    ensures var w := Run(cfg, Start(1), Crowding(n));
            !w.halted && |w.phases| == n && forall p :: p in w.phases ==> p <= n
  {
    if n > 1 {
      Crowd(cfg, n - 1);
      RunLast(cfg, Start(1), Crowding(n - 1), ForkOf(1, n));
    }
  }

  /** 63 tracees, and child 64 announces its own child 65: the two fork events do not commute. */
  lemma {:induction false} LastSlotDecides(cfg: Config)
    requires cfg.followForks
    ensures var w := Run(cfg, Start(1), Crowding(63));
            !Same(Run(cfg, w, [ForkOf(1, 64), ForkOf(64, 65)]), Run(cfg, w, [ForkOf(64, 65), ForkOf(1, 64)]))
  {
    Crowd(cfg, 63);
    var w := Run(cfg, Start(1), Crowding(63));
    var fork, stop := ForkOf(1, 64), ForkOf(64, 65);
    LastSlotTaken(cfg, w, fork, stop, [], 64);
    assert [fork] + ([stop] + []) == [fork, stop] && ([stop] + []) + [fork] == [stop, fork];
  }
}
