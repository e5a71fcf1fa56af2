/** When the loop takes all the events of a run, and that their order can decide it. */
module TakingAll {
  import opened Options
  import opened TraceModel
  import opened Interleaving

  /** What a sequence of events does to active_count: announcements less ends. */
  function Net(cfg: Config, es: seq<Wait>): int {
    if es == [] then 0 else NewActive(cfg, es[0]) + Net(cfg, es[1..])
  }

  ghost predicate StaysActive(cfg: Config, active: int, es: seq<Wait>) {
    forall n: nat :: n < |es| ==> active + Net(cfg, es[..n]) > 0
  }

  lemma {:induction false} StaysActiveCons(cfg: Config, active: int, es: seq<Wait>)
    requires es != [] && active > 0
    ensures StaysActive(cfg, active, es) <==> StaysActive(cfg, active + NewActive(cfg, es[0]), es[1..])
  {
    forall n: nat | n < |es[1..]|
      ensures Net(cfg, es[..n + 1]) == NewActive(cfg, es[0]) + Net(cfg, es[1..][..n])
    {
      assert es[..n + 1][1..] == es[1..][..n];
    }
    if StaysActive(cfg, active, es) {
      forall n: nat | n < |es[1..]|
        ensures active + NewActive(cfg, es[0]) + Net(cfg, es[1..][..n]) > 0
      {
        assert active + Net(cfg, es[..n + 1]) > 0;
      }
    }
    if StaysActive(cfg, active + NewActive(cfg, es[0]), es[1..]) {
      forall n: nat | n < |es|
        ensures active + Net(cfg, es[..n]) > 0
      {
        if n > 0 {
          assert active + NewActive(cfg, es[0]) + Net(cfg, es[1..][..n - 1]) > 0;
        }
      }
    }
  }

  lemma {:induction false} ActiveStep(cfg: Config, w: World, e: Wait)
    requires !w.halted && w.active > 0 && e != NoTracees && FindsRoom(cfg, w, e)
    ensures var v := Next(cfg, w, e); v.active == w.active + NewActive(cfg, e) && (v.halted <==> v.active <= 0)
  {
  }

  /** The loop takes all its events exactly when, counted from the events alone, some announced
      tracee is left before each of them. */
  lemma {:induction false} TakesAllIff(cfg: Config, w: World, es: seq<Wait>)
    requires !w.halted && w.active > 0 && NoTracees !in es && NeverFull(cfg, w, es)
    ensures TakesAll(cfg, w, es) <==> StaysActive(cfg, w.active, es)
    decreases |es|
  {
    if es != [] {
      var v := Next(cfg, w, es[0]);
      ActiveStep(cfg, w, es[0]);
      StaysActiveCons(cfg, w.active, es);
      if !v.halted {
        TakesAllIff(cfg, v, es[1..]);
      } else if |es| > 1 {
        assert es[1..][..0] == [];
      }
    }
  }

  // ----- Where the order decides -----

  lemma {:induction false} OneEvent(cfg: Config, e: Wait, p: Pid)
    ensures Own([e], p) == if e.Report? && e.pid == p then [e] else []
    ensures Lives(cfg, [e], p) == if Ends(e, p) || Announces(cfg, e, p) then [e] else []
  {
    assert [e][1..] == [];
    assert Own([e][1..], p) == [] && Lives(cfg, [e][1..], p) == [];
  }

  /** Two events of different pids, that do not end and announce the same pid, in either order. */
  lemma {:induction false} EitherOrder(cfg: Config, e: Wait, f: Wait)
    requires Independent(cfg, e, f) && forall p :: !(Announces(cfg, e, p) && Announces(cfg, f, p))
    ensures Rearranged(cfg, [e] + [f], [f] + [e])
  {
    forall p
      ensures Own([e] + [f], p) == Own([f] + [e], p)
      ensures Lives(cfg, [e] + [f], p) == Lives(cfg, [f] + [e], p)
    {
      OwnSplit([e], [f], p);
      OwnSplit([f], [e], p);
      LivesSplit(cfg, [e], [f], p);
      LivesSplit(cfg, [f], [e], p);
      OneEvent(cfg, e, p);
      OneEvent(cfg, f, p);
    }
  }

  const STRANGER := Report(2, Stopped(19, 0), None, None, 0)
  const LAST_END := Report(1, Exited(0), None, None, 0)

  /** The order of the events can decide that, and with it the output: a pid that is never announced
      is seen before the only tracee ends, and is lost after it. */
  lemma {:induction false} StrangerIsLost(cfg: Config)
    ensures Rearranged(cfg, [STRANGER] + [LAST_END], [LAST_END] + [STRANGER])
    ensures TakesAll(cfg, Start(1), [STRANGER] + [LAST_END]) && !TakesAll(cfg, Start(1), [LAST_END] + [STRANGER])
    ensures Run(cfg, Start(1), [STRANGER] + [LAST_END]).log == [Sig(2, 19)]
    ensures Run(cfg, Start(1), [LAST_END] + [STRANGER]).log == []
  {
    EitherOrder(cfg, STRANGER, LAST_END);
    RunLast(cfg, Start(1), [STRANGER], LAST_END);
    RunLast(cfg, Start(1), [LAST_END], STRANGER);
    Alone(cfg, Start(1), STRANGER);
    Alone(cfg, Start(1), LAST_END);
    assert ([STRANGER] + [LAST_END])[1..] == [LAST_END] && ([LAST_END] + [STRANGER])[1..] == [STRANGER];
  }

  lemma {:induction false} Alone(cfg: Config, w: World, e: Wait)
    ensures Run(cfg, w, [e]) == Next(cfg, w, e)
  {
    assert [e][1..] == [];
  }

  // Pids 2 and 3 announce each other.
  const FORK_OF_2 := Report(2, Stopped(SIGTRAP, EVENT_FORK), Some(3), None, 0)
  const FORK_OF_3 := Report(3, Stopped(SIGTRAP, EVENT_FORK), Some(2), None, 0)

  /** Nor is it enough that every pid is announced: two pids that announce each other are seen before
      the only other tracee ends, and are lost after it. */
  lemma {:induction false} CircleIsLost(cfg: Config)
    requires cfg.followForks
    ensures var pair := [FORK_OF_2] + [FORK_OF_3];
            && Rearranged(cfg, pair + [LAST_END], [LAST_END] + pair)
            && TakesAll(cfg, Start(1), pair + [LAST_END]) && !TakesAll(cfg, Start(1), [LAST_END] + pair)
  {
    var pair := [FORK_OF_2] + [FORK_OF_3];
    forall p
      ensures Own(pair + [LAST_END], p) == Own([LAST_END] + pair, p)
      ensures Lives(cfg, pair + [LAST_END], p) == Lives(cfg, [LAST_END] + pair, p)
    {
      CirclePid(cfg, p);
    }
    assert (pair + [LAST_END])[1..] == [FORK_OF_3, LAST_END] && [FORK_OF_3, LAST_END][1..] == [LAST_END];
    var w := Next(cfg, Start(1), FORK_OF_2);
    var v := Next(cfg, w, FORK_OF_3);
    assert !w.halted && !v.halted;
    assert TakesAll(cfg, v, [LAST_END]) by { assert [LAST_END][1..] == []; }
    assert TakesAll(cfg, w, [FORK_OF_3, LAST_END]);
    assert ([LAST_END] + pair)[1..] == pair;
  }

  lemma {:induction false} CirclePid(cfg: Config, p: Pid)
    ensures var pair := [FORK_OF_2] + [FORK_OF_3];
            && Own(pair + [LAST_END], p) == Own([LAST_END] + pair, p)
            && Lives(cfg, pair + [LAST_END], p) == Lives(cfg, [LAST_END] + pair, p)
  {
    var pair := [FORK_OF_2] + [FORK_OF_3];
    OwnSplit(pair, [LAST_END], p);
    OwnSplit([LAST_END], pair, p);
    OwnSplit([FORK_OF_2], [FORK_OF_3], p);
    LivesSplit(cfg, pair, [LAST_END], p);
    LivesSplit(cfg, [LAST_END], pair, p);
    LivesSplit(cfg, [FORK_OF_2], [FORK_OF_3], p);
    OneEvent(cfg, FORK_OF_2, p);
    OneEvent(cfg, FORK_OF_3, p);
    OneEvent(cfg, LAST_END, p);
  }
}
