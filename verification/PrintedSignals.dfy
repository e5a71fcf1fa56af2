/** What a run prints about signals, and what it counts as a fork, from the events themselves. */
module PrintedSignals {
  import opened Basics
  import opened Stutter
  import opened TraceLog
  import opened TraceModel

  // ----- Signals -----

  /** The signals that a log reports of one pid. */
  function SignalsIn(log: seq<Item>, p: Pid): seq<int> {
    if log == [] then []
    else
      var x := log[|log| - 1];
      SignalsIn(log[..|log| - 1], p) + if x.Sig? && x.pid == p then [x.sig] else []
  }

  lemma {:induction false} SignalsInAppend(a: seq<Item>, b: seq<Item>, p: Pid)
    ensures SignalsIn(a + b, p) == SignalsIn(a, p) + SignalsIn(b, p)
    decreases |b|
  {
    if b == [] {
      assert a + b == a;
    } else {
      assert (a + b)[..|a + b| - 1] == a + b[..|b| - 1];
      SignalsInAppend(a, b[..|b| - 1], p);
    }
  }

  lemma {:induction false} NoSignals(xs: seq<Item>, p: Pid)
    requires forall x :: x in xs ==> !x.Sig?
    ensures SignalsIn(xs, p) == []
  {
    if xs != [] {
      NoSignals(xs[..|xs| - 1], p);
    }
  }

  lemma {:induction false} OneSignal(q: Pid, sig: int, p: Pid)
    ensures SignalsIn([Sig(q, sig)], p) == if q == p then [sig] else []
  {
    assert SignalsIn([Sig(q, sig)][..0], p) == [];
  }

  /** One turn prints the signal it stopped for, and no other turn prints one. */
  lemma {:induction false} EmittedSignals(cfg: Config, w: World, e: Wait, p: Pid)
    requires !w.halted
    ensures SignalsIn(Emitted(cfg, w, e), p) == SignalsOf([e], p)
  {
    assert [e][1..] == [];
    var xs := Emitted(cfg, w, e);
    if e.Report? && e.status.Stopped? && e.status.sig !in {0, 5, 133} {
      assert xs == [Sig(e.pid, e.status.sig)];
      OneSignal(e.pid, e.status.sig, p);
    } else {
      NoSignals(xs, p);
    }
  }

  lemma {:induction false} SignalsOfCons(e: Wait, es: seq<Wait>, p: Pid)
    ensures SignalsOf([e] + es, p) == SignalsOf([e], p) + SignalsOf(es, p)
  {
    assert ([e] + es)[1..] == es && [e][1..] == [];
  }

  lemma {:induction false} RunPrintsSignals(cfg: Config, w: World, es: seq<Wait>, p: Pid)
    ensures SignalsIn(Run(cfg, w, es).log, p) == SignalsIn(w.log, p) + SignalsOf(es[..Taken(cfg, w, es)], p)
    decreases |es|
  {
    if w.halted {
      RunHalted(cfg, w, es);
    } else if es != [] {
      var v, n := Next(cfg, w, es[0]), Taken(cfg, w, es);
      var rest := es[1..][..n - 1];
      RunPrintsSignals(cfg, v, es[1..], p);
      NextLog(cfg, w, es[0]);
      SignalsInAppend(w.log, Emitted(cfg, w, es[0]), p);
      EmittedSignals(cfg, w, es[0], p);
      assert es[..n] == [es[0]] + rest;
      SignalsOfCons(es[0], rest, p);
      Regroup(SignalsIn(w.log, p), SignalsOf([es[0]], p), SignalsOf(rest, p));
    }
  }

  /** Over any run, the signals printed for a pid are those it stopped for, in order: every signal
      but SIGTRAP, and each of them once. They are also the signals it gets back. */
  lemma {:induction false} SignalsArePrinted(cfg: Config, root: Pid, es: seq<Wait>, p: Pid)
    ensures var w := Run(cfg, Start(root), es);
            && SignalsIn(w.log, p) == SignalsOf(es[..Taken(cfg, Start(root), es)], p)
            && SignalsIn(w.log, p) == DeliveredTo(w.resumes, p)
  {
    RunPrintsSignals(cfg, Start(root), es, p);
    SignalsAreForwarded(cfg, root, es, p);
  }

  // ----- Forks and ends -----

  /** What one event does to active_count, by its numbers: a fork, vfork or clone event under -f
      adds the child it names, if that finds room; an end takes one away, and the last one ends the
      loop, as does a wait that finds no children. An interrupted wait does nothing. */
  lemma {:induction false} TurnByNumbers(cfg: Config, w: World, e: Wait)
    requires !w.halted
    ensures Next(cfg, w, e).active - w.active ==
            if e.Report? && (e.status.Exited? || e.status.Signaled?) then -1
            else if e.Report? && cfg.followForks && e.status.Stopped? && e.status.sig == 5
                    && e.status.event in {1, 2, 3} && e.child.Some?
                    && (e.child.value in w.phases || |w.phases| < 64)
            then 1 else 0
    ensures Next(cfg, w, e).halted <==>
            e.NoTracees? || (e.Report? && (e.status.Exited? || e.status.Signaled?) && w.active <= 1)
    ensures e.Interrupted? || (e.Report? && e.status.Continued?) ==> Next(cfg, w, e) == w
  {
  }
}
