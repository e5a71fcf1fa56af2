/**
 Fork events of pids that are already tracked, because the child stopped first. They change no
 call, but they are the announcement of that child: active_count rises. Without them the loop may
 be left too early. Here is exactly when that matters.
 */
module LateForks {
  import opened Options
  import opened TraceModel
  import opened Stutter
  import opened TraceLog
  import opened Registration

  /** A fork stop that announces a tracked pid. */
  predicate IsLateFork(cfg: Config, w: World, e: Wait) {
    e.Report? && IsForkStop(cfg, e.status) && e.child.Some? && e.child.value in w.phases
  }

  /** What the shorter run leaves out. */
  predicate Dropped(cfg: Config, u: World, e: Wait) { IsQuiet(cfg, u, e) || IsLateFork(cfg, u, e) }

  /** The events of a run without those. */
  function Dense(cfg: Config, w: World, es: seq<Wait>): seq<Wait>
    decreases |es|
  {
    if es == [] then []
    else
      var rest := Dense(cfg, Next(cfg, w, es[0]), es[1..]);
      if Dropped(cfg, w, es[0]) then rest else [es[0]] + rest
  }

  /** The event changes the calls seen: a tracked pid ends, a new one finds room, or a syscall
      stop with registers finds or makes its entry. */
  predicate Matters(cfg: Config, w: World, e: Wait) {
    && e.Report?
    && (if IsGone(e.status) then e.pid in w.phases
        else if IsForkStop(cfg, e.status) then
          e.child.Some? && e.child.value !in w.phases && |w.phases| < MAX_TRACEES
        else if IsSignalStop(cfg, e.status) then e.pid !in w.phases && |w.phases| < MAX_TRACEES
        else
          && IsCallStop(cfg, e.status) && HasRoom(w.phases, e.pid)
          && (e.pid in w.phases ==> e.regs.Some?))
  }

  /** How many announcements have been left out. */
  function Lost(cfg: Config, u: World, lost: nat, e: Wait): nat {
    lost + if IsLateFork(cfg, u, e) then 1 else 0
  }

  /** The condition on the events. `lost` is how many announcements have been left out so far; once
      active_count has come down to that number, the run without them is over, and from there on
      no event may matter. */
  predicate Harmless(cfg: Config, w: World, lost: nat, es: seq<Wait>)
    decreases |es|
  {
    || es == [] || w.halted
    || (&& (w.active <= lost ==> !Matters(cfg, w, es[0]))
        && Harmless(cfg, Next(cfg, w, es[0]), Lost(cfg, w, lost, es[0]), es[1..]))
  }

  lemma {:induction false} IdleTurn(cfg: Config, w: World, e: Wait)
    requires !w.halted && !Matters(cfg, w, e)
    ensures SameCalls(Next(cfg, w, e), w)
  {
    IdlePhases(cfg, w, e);
    SilentTurn(cfg, w, e);
  }

  lemma {:induction false} IdlePhases(cfg: Config, w: World, e: Wait)
    requires !w.halted && !Matters(cfg, w, e)
    ensures var v := Next(cfg, w, e); v.phases == w.phases && v.calls == w.calls && v.rows == w.rows
    ensures |Emitted(cfg, w, e)| <= 1 && forall x :: x in Emitted(cfg, w, e) ==> x.Sig?
  {
    if e.Report? && IsGone(e.status) {
      assert w.phases - {e.pid} == w.phases;
    }
  }

  lemma {:induction false} MattersChanges(cfg: Config, w: World, e: Wait)
    requires !w.halted && Matters(cfg, w, e)
    ensures var v := Next(cfg, w, e); v.phases != w.phases || v.calls != w.calls
  {
    if IsGone(e.status) {
      assert e.pid !in Next(cfg, w, e).phases;
    } else if IsForkStop(cfg, e.status) {
      assert e.child.value in Next(cfg, w, e).phases;
    }
  }

  lemma {:induction false} MattersIff(cfg: Config, w: World, e: Wait)
    requires !w.halted
    ensures SameCalls(Next(cfg, w, e), w) <==> !Matters(cfg, w, e)
  {
    if Matters(cfg, w, e) {
      MattersChanges(cfg, w, e);
    } else {
      IdleTurn(cfg, w, e);
    }
  }

  // ----- The two runs side by side -----

  /** The run w without the stutters, beside the run u with them. */
  ghost predicate Beside(u: World, w: World, lost: nat) {
    && SameCalls(u, w)
    && (w.halted <==> u.halted || u.active <= lost)
    && (!w.halted ==> w.active == u.active - lost)
  }

  function Follow(cfg: Config, u: World, w: World, e: Wait): World {
    if Dropped(cfg, u, e) then w else Next(cfg, w, e)
  }

  lemma {:induction false} BesideWhileBoth(cfg: Config, u: World, w: World, lost: nat, e: Wait)
    requires Beside(u, w, lost) && !w.halted
    ensures Beside(Next(cfg, u, e), Follow(cfg, u, w, e), Lost(cfg, u, lost, e))
  {
    if Dropped(cfg, u, e) {
      SilentTurn(cfg, u, e);
    } else {
      SameCallsStep(cfg, u, w, e);
    }
  }

  lemma {:induction false} BesideAfterEnd(cfg: Config, u: World, w: World, lost: nat, e: Wait)
    requires Beside(u, w, lost) && w.halted && !u.halted
    ensures Matters(cfg, u, e) ==> !SameCalls(Next(cfg, u, e), Follow(cfg, u, w, e))
    ensures !Matters(cfg, u, e) ==> Beside(Next(cfg, u, e), Follow(cfg, u, w, e), Lost(cfg, u, lost, e))
  {
    MattersIff(cfg, u, e);
  }

  /** The same calls after every event. */
  ghost predicate SameThroughout(cfg: Config, u: World, w: World, es: seq<Wait>)
    decreases |es|
  {
    SameCalls(u, w) &&
    (es == [] || SameThroughout(cfg, Next(cfg, u, es[0]), Follow(cfg, u, w, es[0]), es[1..]))
  }

  lemma {:induction false} ThroughoutIff(cfg: Config, u: World, w: World, lost: nat, es: seq<Wait>)
    requires Beside(u, w, lost)
    ensures SameThroughout(cfg, u, w, es) <==> Harmless(cfg, u, lost, es)
    decreases |es|
  {
    if es != [] {
      var u', w', lost' := Next(cfg, u, es[0]), Follow(cfg, u, w, es[0]), Lost(cfg, u, lost, es[0]);
      if u.halted {
        ThroughoutIff(cfg, u', w', lost, es[1..]);
      } else if !w.halted {
        BesideWhileBoth(cfg, u, w, lost, es[0]);
        ThroughoutIff(cfg, u', w', lost', es[1..]);
      } else {
        BesideAfterEnd(cfg, u, w, lost, es[0]);
        if !Matters(cfg, u, es[0]) {
          ThroughoutIff(cfg, u', w', lost', es[1..]);
        }
      }
    }
  }

  lemma {:induction false} DenseCons(cfg: Config, u: World, w: World, es: seq<Wait>, n: nat)
    requires 0 < n <= |es|
    ensures Run(cfg, u, es[..n]) == Run(cfg, Next(cfg, u, es[0]), es[1..][..n - 1])
    ensures Run(cfg, w, Dense(cfg, u, es[..n])) ==
            Run(cfg, Follow(cfg, u, w, es[0]), Dense(cfg, Next(cfg, u, es[0]), es[1..][..n - 1]))
  {
    assert es[..n][1..] == es[1..][..n - 1];
    var rest := Dense(cfg, Next(cfg, u, es[0]), es[1..][..n - 1]);
    assert ([es[0]] + rest)[1..] == rest;
  }

  lemma {:induction false} ThroughoutPrefixes(cfg: Config, u: World, w: World, es: seq<Wait>)
    ensures SameThroughout(cfg, u, w, es) <==>
            forall n: nat :: n <= |es| ==> SameCalls(Run(cfg, u, es[..n]), Run(cfg, w, Dense(cfg, u, es[..n])))
    decreases |es|
  {
    assert es[..0] == [];
    assert Run(cfg, u, es[..0]) == u && Run(cfg, w, Dense(cfg, u, es[..0])) == w;
    if es != [] {
      var u', w', rest := Next(cfg, u, es[0]), Follow(cfg, u, w, es[0]), es[1..];
      ThroughoutPrefixes(cfg, u', w', rest);
      forall n: nat | n <= |rest|
        ensures Run(cfg, u, es[..n + 1]) == Run(cfg, u', rest[..n])
        ensures Run(cfg, w, Dense(cfg, u, es[..n + 1])) == Run(cfg, w', Dense(cfg, u', rest[..n]))
      {
        DenseCons(cfg, u, w, es, n + 1);
      }
      if forall n: nat :: n <= |es| ==> SameCalls(Run(cfg, u, es[..n]), Run(cfg, w, Dense(cfg, u, es[..n]))) {
        forall n: nat | n <= |rest|
          ensures SameCalls(Run(cfg, u', rest[..n]), Run(cfg, w', Dense(cfg, u', rest[..n])))
        {
          assert SameCalls(Run(cfg, u, es[..n + 1]), Run(cfg, w, Dense(cfg, u, es[..n + 1])));
        }
      }
      if SameThroughout(cfg, u, w, es) {
        forall n: nat | n <= |es|
          ensures SameCalls(Run(cfg, u, es[..n]), Run(cfg, w, Dense(cfg, u, es[..n])))
        {
          if n > 0 {
            DenseCons(cfg, u, w, es, n);
          }
        }
      }
    }
  }

  /** Leaving out the quiet stops and the fork events of tracked pids gives the same calls after
      every event exactly when no event matters once active_count has come down to the number of
      announcements left out. */
  lemma {:induction false} LateForksHarmlessIff(cfg: Config, root: Pid, es: seq<Wait>)
    ensures Harmless(cfg, Start(root), 0, es) <==>
            forall n: nat :: n <= |es| ==>
              SameCalls(Run(cfg, Start(root), es[..n]), Run(cfg, Start(root), Dense(cfg, Start(root), es[..n])))
  {
    ThroughoutIff(cfg, Start(root), Start(root), 0, es);
    ThroughoutPrefixes(cfg, Start(root), Start(root), es);
  }

  /** The condition for an orderly run, in terms of the announced tracees. */
  ghost predicate HarmlessAmong(cfg: Config, w: World, live: set<Pid>, lost: nat, es: seq<Wait>)
    decreases |es|
  {
    || es == [] || live == {}
    || (&& (|live| <= lost ==> !Matters(cfg, w, es[0]))
        && HarmlessAmong(cfg, Next(cfg, w, es[0]), NextAnnounced(cfg, live, es[0]), Lost(cfg, w, lost, es[0]), es[1..]))
  }

  lemma {:induction false} OrderlyStep(cfg: Config, w: World, live: set<Pid>, e: Wait)
    requires InStep(w, live) && !w.halted && Orderly(cfg, w, live, e) && e != NoTracees
    ensures InStep(Next(cfg, w, e), NextAnnounced(cfg, live, e))
  {
    CountedStepIff(cfg, w, live, e);
    var next := NextAnnounced(cfg, live, e);
    if |next| == 0 {
      assert next == {};
    }
  }

  /** In an orderly run the shorter run is over once as many announcements have been left out as
      there are announced tracees. */
  lemma {:induction false} HarmlessWhenOrderly(cfg: Config, w: World, live: set<Pid>, lost: nat, es: seq<Wait>)
    requires InStep(w, live) && OrderlyRun(cfg, w, live, es) && TakesAll(cfg, w, es)
    ensures Harmless(cfg, w, lost, es) <==> HarmlessAmong(cfg, w, live, lost, es)
    decreases |es|
  {
    if es != [] {
      OrderlyStep(cfg, w, live, es[0]);
      var next := NextAnnounced(cfg, live, es[0]);
      HarmlessWhenOrderly(cfg, Next(cfg, w, es[0]), next, Lost(cfg, w, lost, es[0]), es[1..]);
    }
  }

  // ----- Where it fails -----

  // Child 2 of 1 stops first, is announced, and ends; then 1 enters a call.
  const CHILD_STOPS := Report(2, Stopped(19, 0), None, None, 0)
  const FORK_EVENT := Report(1, Stopped(SIGTRAP, EVENT_FORK), Some(2), None, 0)
  const CHILD_ENDS := Report(2, Exited(0), None, None, 0)
  function ParentCalls(r: Regs): Wait { Report(1, Stopped(SYSCALL_STOP, 0), None, Some(r), 0) }

  /** The run takes all of es in an orderly way and ends with so many calls; short is what the
      shorter run takes of es. */
  ghost predicate Goes(cfg: Config, w: World, live: set<Pid>, es: seq<Wait>, calls: int, short: seq<Wait>) {
    && OrderlyRun(cfg, w, live, es) && TakesAll(cfg, w, es)
    && Run(cfg, w, es).calls == calls && Dense(cfg, w, es) == short
  }

  lemma {:induction false} GoesOn(cfg: Config, w: World, live: set<Pid>, e: Wait, es: seq<Wait>, calls: int,
                                  short: seq<Wait>)
    requires !w.halted && Orderly(cfg, w, live, e) && e != NoTracees
    requires Goes(cfg, Next(cfg, w, e), NextAnnounced(cfg, live, e), es, calls, short)
    ensures Goes(cfg, w, live, [e] + es, calls, if Dropped(cfg, w, e) then short else [e] + short)
  {
    assert ([e] + es)[1..] == es;
  }

  lemma {:induction false} WithTheFork(cfg: Config, w: World, r: Regs)
    requires cfg.followForks && !w.halted && w.calls == 0 && w.active == 1
    requires w.phases == map[1 := Idle, 2 := Idle]
    ensures Goes(cfg, w, {1}, [FORK_EVENT] + ([CHILD_ENDS] + ([ParentCalls(r)] + [])), 1,
                 [CHILD_ENDS] + ([ParentCalls(r)] + []))
  {
    var w2 := Next(cfg, w, FORK_EVENT);
    var w3 := Next(cfg, w2, CHILD_ENDS);
    assert w2.phases == w.phases && w2.active == 2;
    assert w3.phases == map[1 := Idle] && w3.active == 1 && !w3.halted;
    assert {1} + {2} - {2} == {1};
    GoesOn(cfg, w3, {1}, ParentCalls(r), [], 1, []);
    GoesOn(cfg, w2, {1} + {2}, CHILD_ENDS, [ParentCalls(r)] + [], 1, [ParentCalls(r)] + []);
    GoesOn(cfg, w, {1}, FORK_EVENT, [CHILD_ENDS] + ([ParentCalls(r)] + []), 1,
           [CHILD_ENDS] + ([ParentCalls(r)] + []));
  }

  lemma {:induction false} WithoutTheFork(cfg: Config, w: World, es: seq<Wait>)
    requires !w.halted && w.calls == 0 && w.active == 1
    ensures Run(cfg, w, [CHILD_ENDS] + es).calls == 0
  {
    var v := Next(cfg, w, CHILD_ENDS);
    assert ([CHILD_ENDS] + es)[1..] == es;
    RunHalted(cfg, v, es);
  }

  /** An orderly run in which the fork event of a tracked pid is not a stutter: without it the loop
      is left when the child ends, and the call of the parent is never seen. */
  lemma {:induction false} LateForkIsNoStutter(cfg: Config, r: Regs)
    requires cfg.followForks
    ensures var w, es := Start(1), [CHILD_STOPS, FORK_EVENT, CHILD_ENDS, ParentCalls(r)];
            && OrderlyRun(cfg, w, {1}, es) && TakesAll(cfg, w, es)
            && Run(cfg, w, es).calls == 1
            && Dense(cfg, w, es) == [CHILD_STOPS, CHILD_ENDS, ParentCalls(r)]
            && Run(cfg, w, Dense(cfg, w, es)).calls == 0
  {
    var rest := [CHILD_ENDS] + ([ParentCalls(r)] + []);
    var w1 := Next(cfg, Start(1), CHILD_STOPS);
    assert w1.phases == map[1 := Idle, 2 := Idle];
    WithTheFork(cfg, w1, r);
    GoesOn(cfg, Start(1), {1}, CHILD_STOPS, [FORK_EVENT] + rest, 1, rest);
    assert [CHILD_STOPS, FORK_EVENT, CHILD_ENDS, ParentCalls(r)] == [CHILD_STOPS] + ([FORK_EVENT] + rest);
    WithoutTheFork(cfg, w1, [ParentCalls(r)] + []);
    assert ([CHILD_STOPS] + rest)[1..] == rest;
    assert [CHILD_STOPS] + rest == [CHILD_STOPS, CHILD_ENDS, ParentCalls(r)];
  }
}
