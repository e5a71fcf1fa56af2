/**
 Over whole runs, whatever the interleaving: the heads and tails of every pid are those of a
 pairing of its syscall stops, on the immediate and on the deferred path alike.
 */
module ExactlyOnce {
  import opened Options
  import opened Basics
  import opened TraceModel
  import opened TraceLog

  /** What happens to one pid: a syscall stop with readable registers, or its end. */
  datatype Beat = Stop(regs: Regs, now: int) | Over

  /** The beat an event is for pid p. A syscall stop of a pid that finds the table full is none. */
  function BeatOf(cfg: Config, w: World, e: Wait, p: Pid): seq<Beat> {
    if w.halted || !e.Report? || e.pid != p then []
    else if IsGone(e.status) then [Over]
    else if IsCallStop(cfg, e.status) && HasRoom(w.phases, p) && e.regs.Some?
    then [Stop(e.regs.value, e.now)]
    else []
  }

  function Beats(cfg: Config, w: World, es: seq<Wait>, p: Pid): seq<Beat>
    decreases |es|
  {
    if es == [] then [] else BeatOf(cfg, w, es[0], p) + Beats(cfg, Next(cfg, w, es[0]), es[1..], p)
  }

  // ----- The simple specification -----

  /** A call that returned: one head with the entry's name and arguments, then one tail with
      the exit's return value; nothing if the filter hides the name. */
  function Completed(cfg: Config, p: Pid, entry: Beat, exit: Beat): seq<Item>
    requires entry.Stop? && exit.Stop?
  {
    if cfg.Allows(entry.regs.name)
    then [Head(p, entry.regs.name, entry.regs.args),
          Tail(p, exit.regs.ret, if cfg.showTiming then Some(exit.now - entry.now) else None)]
    else []
  }

  /** A call that has not returned: its head, unless it is hidden or waits for the return. */
  function Unfinished(cfg: Config, p: Pid, entry: Beat): seq<Item>
    requires entry.Stop?
  {
    if cfg.Allows(entry.regs.name) && !cfg.Defers(entry.regs.name)
    then [Head(p, entry.regs.name, entry.regs.args)] else []
  }

  /** Pairs the stops of one life of the pid after another: entry, exit, entry, exit, ... */
  function Script(cfg: Config, p: Pid, bs: seq<Beat>): seq<Item>
    decreases |bs|
  {
    if bs == [] then []
    else if bs[0].Over? then Script(cfg, p, bs[1..])
    else if |bs| == 1 || bs[1].Over? then Unfinished(cfg, p, bs[0]) + Script(cfg, p, bs[1..])
    else Completed(cfg, p, bs[0], bs[1]) + Script(cfg, p, bs[2..])
  }

  // ----- The machine follows it -----

  /** The rest of the script for a pid caught in some phase. */
  function Resumed(cfg: Config, p: Pid, ph: Phase, bs: seq<Beat>): seq<Item> {
    if ph.Idle? || bs == [] then Script(cfg, p, bs)
    else if bs[0].Over? then Script(cfg, p, bs[1..])
    else ExitItems(cfg, p, ph, bs[0].regs.ret, bs[0].now) + Script(cfg, p, bs[1..])
  }

  /** What one beat prints, and the phase it leads to. */
  function Printed(cfg: Config, p: Pid, ph: Phase, b: seq<Beat>): seq<Item> {
    if b == [] || b[0].Over? then []
    else if ph.Idle? then EntryItems(cfg, p, b[0].regs)
    else ExitItems(cfg, p, ph, b[0].regs.ret, b[0].now)
  }

  function Reached(cfg: Config, ph: Phase, b: seq<Beat>): Phase {
    if b == [] then ph
    else if b[0].Over? then Idle
    else if ph.Idle? then EntryPhase(cfg, b[0].regs, b[0].now)
    else Idle
  }

  lemma {:induction false} OwnEntryItems(cfg: Config, q: Pid, r: Regs, p: Pid)
    ensures CallItems(EntryItems(cfg, q, r), p) == if q == p then EntryItems(cfg, q, r) else []
  {
    CallItemsOne(Head(q, r.name, r.args), p);
  }

  lemma {:induction false} OwnExitItems(cfg: Config, q: Pid, ph: Phase, ret: int, now: int, p: Pid)
    requires !ph.Idle?
    ensures CallItems(ExitItems(cfg, q, ph, ret, now), p) == if q == p then ExitItems(cfg, q, ph, ret, now) else []
  {
    if !cfg.summaryMode && !ph.Hidden? {
      var tail := Tail(q, ret, Took(cfg, ph.since, now));
      CallItemsOne(tail, p);
      if ph.Owed? {
        var head := Head(q, ph.name, ph.args);
        CallItemsOne(head, p);
        assert ExitItems(cfg, q, ph, ret, now) == [head, tail];
        CallItemsTwo(head, tail, p);
      } else {
        assert ExitItems(cfg, q, ph, ret, now) == [tail];
      }
    }
  }

  lemma {:induction false} OwnSigItems(q: Pid, sig: int, p: Pid)
    ensures CallItems(SigItems(q, sig), p) == []
  {
    CallItemsOne(Sig(q, sig), p);
  }

  lemma {:induction false} EmittedBeat(cfg: Config, w: World, e: Wait, p: Pid)
    requires !cfg.summaryMode
    ensures CallItems(Emitted(cfg, w, e), p) == Printed(cfg, p, PhaseOf(w.phases, p), BeatOf(cfg, w, e, p))
  {
    if e.Report? && e.status.Stopped? {
      OwnSigItems(e.pid, e.status.sig, p);
      if e.regs.Some? {
        OwnEntryItems(cfg, e.pid, e.regs.value, p);
        if e.pid in w.phases && !w.phases[e.pid].Idle? {
          OwnExitItems(cfg, e.pid, w.phases[e.pid], e.regs.value.ret, e.now, p);
        }
      }
    }
  }

  lemma {:induction false} ReachedBeat(cfg: Config, w: World, e: Wait, p: Pid)
    ensures PhaseOf(Next(cfg, w, e).phases, p) == Reached(cfg, PhaseOf(w.phases, p), BeatOf(cfg, w, e, p))
  {
  }

  /** One turn of the loop is one beat for each pid, or none. */
  lemma {:induction false} StepBeat(cfg: Config, w: World, e: Wait, p: Pid)
    requires !cfg.summaryMode
    ensures CallItems(Next(cfg, w, e).log, p) ==
            CallItems(w.log, p) + Printed(cfg, p, PhaseOf(w.phases, p), BeatOf(cfg, w, e, p))
  {
    NextLog(cfg, w, e);
    CallItemsAppend(w.log, Emitted(cfg, w, e), p);
    EmittedBeat(cfg, w, e, p);
  }

  /** Handling a beat and then the rest of the script is the script. */
  lemma {:induction false} ResumedStep(cfg: Config, p: Pid, ph: Phase, b: Beat, bs: seq<Beat>)
    requires !cfg.summaryMode
    ensures Resumed(cfg, p, ph, [b] + bs) ==
            Printed(cfg, p, ph, [b]) + Resumed(cfg, p, Reached(cfg, ph, [b]), bs)
  {
    var all := [b] + bs;
    assert all[0] == b && all[1..] == bs;
    if b.Over? {
      assert Resumed(cfg, p, ph, all) == Script(cfg, p, bs);
    } else if !ph.Idle? {
      assert Resumed(cfg, p, Idle, bs) == Script(cfg, p, bs);
    } else if bs == [] || bs[0].Over? {
      assert |bs| > 0 ==> all[1] == bs[0];
      assert Script(cfg, p, all) == Unfinished(cfg, p, b) + Script(cfg, p, bs);
    } else {
      assert all[1] == bs[0] && all[2..] == bs[1..];
      var exit := ExitItems(cfg, p, EntryPhase(cfg, b.regs, b.now), bs[0].regs.ret, bs[0].now);
      assert EntryItems(cfg, p, b.regs) + exit == Completed(cfg, p, b, bs[0]);
      assert Script(cfg, p, all) == EntryItems(cfg, p, b.regs) + exit + Script(cfg, p, bs[1..]);
    }
  }

  lemma {:induction false} RunFollowsScript(cfg: Config, w: World, es: seq<Wait>, p: Pid)
    requires !cfg.summaryMode
    ensures CallItems(Run(cfg, w, es).log, p) ==
            CallItems(w.log, p) + Resumed(cfg, p, PhaseOf(w.phases, p), Beats(cfg, w, es, p))
    decreases |es|
  {
    if es != [] {
      var v := Next(cfg, w, es[0]);
      var b, bs := BeatOf(cfg, w, es[0], p), Beats(cfg, v, es[1..], p);
      StepBeat(cfg, w, es[0], p);
      ReachedBeat(cfg, w, es[0], p);
      RunFollowsScript(cfg, v, es[1..], p);
      var ph := PhaseOf(w.phases, p);
      if b == [] {
        assert b + bs == bs;
        assert CallItems(w.log, p) + Printed(cfg, p, ph, b) == CallItems(w.log, p);
      } else {
        assert b == [b[0]];
        ResumedStep(cfg, p, ph, b[0], bs);
        Regroup(CallItems(w.log, p), Printed(cfg, p, ph, b), Resumed(cfg, p, Reached(cfg, ph, b), bs));
      }
    }
  }

  /** For every run from the start, every pid and every routing table, the heads and tails
      printed for the pid are exactly those of the pairing of its handled syscall stops. */
  lemma {:induction false} ExactlyOncePrinting(cfg: Config, root: Pid, es: seq<Wait>, p: Pid)
    requires !cfg.summaryMode
    ensures CallItems(Run(cfg, Start(root), es).log, p) == Script(cfg, p, Beats(cfg, Start(root), es, p))
  {
    RunFollowsScript(cfg, Start(root), es, p);
  }

  /** Every tail directly follows a head among the items of its pid. */
  ghost predicate TailsFollowHeads(xs: seq<Item>) {
    forall i :: 0 <= i < |xs| && xs[i].Tail? ==> i > 0 && xs[i - 1].Head?
  }

  lemma {:induction false} ScriptTails(cfg: Config, p: Pid, bs: seq<Beat>)
    ensures TailsFollowHeads(Script(cfg, p, bs))
    ensures forall x :: x in Script(cfg, p, bs) ==> !x.Sig? && x.pid == p
    decreases |bs|
  {
    if bs == [] {
    } else if bs[0].Over? {
      ScriptTails(cfg, p, bs[1..]);
    } else if |bs| == 1 || bs[1].Over? {
      ScriptTails(cfg, p, bs[1..]);
    } else {
      ScriptTails(cfg, p, bs[2..]);
    }
  }

  /** No run prints a tail without its head just before it. */
  lemma {:induction false} NoTailWithoutHead(cfg: Config, root: Pid, es: seq<Wait>, p: Pid)
    requires !cfg.summaryMode
    ensures TailsFollowHeads(CallItems(Run(cfg, Start(root), es).log, p))
  {
    ExactlyOncePrinting(cfg, root, es, p);
    ScriptTails(cfg, p, Beats(cfg, Start(root), es, p));
  }
}
