/** Signal stops and fork stops do not disturb the calls, and every stop is answered once. */
module Stutter {
  import opened Basics
  import opened TraceModel
  import opened TraceLog

  // ----- One resume per stop -----

  /** The answer a stop gets: its signal back if it is a signal stop other than a bare SIGTRAP. */
  function Answer(cfg: Config, e: Wait): seq<Resume> {
    if e.Report? && e.status.Stopped?
    then [Resume(e.pid, if IsSignalStop(cfg, e.status) && e.status.sig != SIGTRAP then e.status.sig else 0)]
    else []
  }

  function Answers(cfg: Config, es: seq<Wait>): seq<Resume> {
    if es == [] then [] else Answer(cfg, es[0]) + Answers(cfg, es[1..])
  }

  /** How many events the loop takes before it is left. */
  function Taken(cfg: Config, w: World, es: seq<Wait>): (n: nat)
    ensures n <= |es|
    decreases |es|
  {
    if es == [] || w.halted then 0 else 1 + Taken(cfg, Next(cfg, w, es[0]), es[1..])
  }

  lemma {:induction false} NextAnswers(cfg: Config, w: World, e: Wait)
    requires !w.halted
    ensures Next(cfg, w, e).resumes == w.resumes + Answer(cfg, e)
  {
  }

  lemma {:induction false} AnswersCons(cfg: Config, es: seq<Wait>, n: nat)
    requires 0 < n <= |es|
    ensures Answers(cfg, es[..n]) == Answer(cfg, es[0]) + Answers(cfg, es[1..][..n - 1])
  {
    assert es[..n][1..] == es[1..][..n - 1];
  }

  /** Over any run, the resumes are one per stop taken, in order, with the right signal. */
  lemma {:induction false} EveryStopAnsweredOnce(cfg: Config, w: World, es: seq<Wait>)
    ensures Run(cfg, w, es).resumes == w.resumes + Answers(cfg, es[..Taken(cfg, w, es)])
    decreases |es|
  {
    if w.halted {
      RunHalted(cfg, w, es);
    } else if es != [] {
      var v, n := Next(cfg, w, es[0]), Taken(cfg, w, es);
      EveryStopAnsweredOnce(cfg, v, es[1..]);
      AnswersCons(cfg, es, n);
      NextAnswers(cfg, w, es[0]);
      Regroup(w.resumes, Answer(cfg, es[0]), Answers(cfg, es[1..][..n - 1]));
    }
  }

  /** The signals handed to one pid by a list of resumes. */
  function DeliveredTo(rs: seq<Resume>, p: Pid): seq<int> {
    if rs == [] then []
    else (if rs[0].pid == p && rs[0].sig != 0 then [rs[0].sig] else []) + DeliveredTo(rs[1..], p)
  }

  /** The signals one pid stopped for: 5 is SIGTRAP, and 133 reports a syscall stop. */
  function SignalsOf(es: seq<Wait>, p: Pid): seq<int> {
    if es == [] then []
    else
      var e := es[0];
      (if e.Report? && e.pid == p && e.status.Stopped? && e.status.sig !in {0, 5, 133}
       then [e.status.sig] else [])
      + SignalsOf(es[1..], p)
  }

  lemma {:induction false} AnswersForward(cfg: Config, es: seq<Wait>, p: Pid)
    ensures DeliveredTo(Answers(cfg, es), p) == SignalsOf(es, p)
  {
    if es != [] {
      AnswersForward(cfg, es[1..], p);
      var a, rest := Answer(cfg, es[0]), Answers(cfg, es[1..]);
      if a == [] {
        assert a + rest == rest;
      } else {
        assert (a + rest)[1..] == rest;
      }
    }
  }

  /** Over any run, every pid gets back exactly the signals it stopped for, in order. */
  lemma {:induction false} SignalsAreForwarded(cfg: Config, root: Pid, es: seq<Wait>, p: Pid)
    ensures DeliveredTo(Run(cfg, Start(root), es).resumes, p) ==
            SignalsOf(es[..Taken(cfg, Start(root), es)], p)
  {
    var taken := es[..Taken(cfg, Start(root), es)];
    EveryStopAnsweredOnce(cfg, Start(root), es);
    AnswersForward(cfg, taken, p);
    var first := Resume(root, 0);
    assert ([first] + Answers(cfg, taken))[1..] == Answers(cfg, taken);
  }

  // ----- Stuttering -----

  /** A signal stop of a tracked pid, or a fork stop that names no child. */
  predicate IsQuiet(cfg: Config, w: World, e: Wait) {
    && e.Report?
    && (|| (IsSignalStop(cfg, e.status) && e.pid in w.phases)
        || (IsForkStop(cfg, e.status) && e.child.None?))
  }

  /** The events of a run without those that are quiet where they occur. */
  function Loud(cfg: Config, w: World, es: seq<Wait>): seq<Wait>
    decreases |es|
  {
    if es == [] then []
    else
      var rest := Loud(cfg, Next(cfg, w, es[0]), es[1..]);
      if IsQuiet(cfg, w, es[0]) then rest else [es[0]] + rest
  }

  /** The same calls have been seen: only signals, resumes and the end of the loop may differ. */
  ghost predicate SameCalls(u: World, w: World) {
    && u.phases == w.phases && u.calls == w.calls && u.rows == w.rows
    && (forall p :: CallItems(u.log, p) == CallItems(w.log, p))
  }

  /** The same calls, and the loop is as near its end. */
  ghost predicate SameTrace(u: World, w: World) {
    SameCalls(u, w) && u.active == w.active && u.halted == w.halted
  }

  /** A turn that prints at most a signal and leaves phases, count and rows keeps the calls. */
  lemma {:induction false} SilentTurn(cfg: Config, w: World, e: Wait)
    requires var v := Next(cfg, w, e); v.phases == w.phases && v.calls == w.calls && v.rows == w.rows
    requires forall x :: x in Emitted(cfg, w, e) ==> x.Sig?
    requires |Emitted(cfg, w, e)| <= 1
    ensures SameCalls(Next(cfg, w, e), w)
  {
    var v, xs := Next(cfg, w, e), Emitted(cfg, w, e);
    NextLog(cfg, w, e);
    forall p
      ensures CallItems(v.log, p) == CallItems(w.log, p)
    {
      CallItemsAppend(w.log, xs, p);
      if xs == [] {
        assert w.log + xs == w.log;
      } else {
        assert xs == [xs[0]];
        CallItemsOne(xs[0], p);
      }
    }
  }

  lemma {:induction false} QuietTurn(cfg: Config, w: World, e: Wait)
    requires IsQuiet(cfg, w, e)
    ensures SameTrace(Next(cfg, w, e), w)
  {
    SilentTurn(cfg, w, e);
  }

  lemma {:induction false} SameEmitted(cfg: Config, u: World, w: World, e: Wait)
    requires SameCalls(u, w) && u.halted == w.halted
    ensures Emitted(cfg, u, e) == Emitted(cfg, w, e)
  {
  }

  lemma {:induction false} SameItemsStep(cfg: Config, u: World, w: World, e: Wait, p: Pid)
    requires SameCalls(u, w) && u.halted == w.halted
    ensures CallItems(Next(cfg, u, e).log, p) == CallItems(Next(cfg, w, e).log, p)
  {
    NextLog(cfg, u, e);
    NextLog(cfg, w, e);
    SameEmitted(cfg, u, w, e);
    CallItemsAppend(u.log, Emitted(cfg, u, e), p);
    CallItemsAppend(w.log, Emitted(cfg, w, e), p);
  }

  /** Worlds that have seen the same calls, and are both still in the loop, step alike. */
  lemma {:induction false} SameCallsStep(cfg: Config, u: World, w: World, e: Wait)
    requires SameCalls(u, w) && u.halted == w.halted
    ensures SameCalls(Next(cfg, u, e), Next(cfg, w, e))
    ensures Next(cfg, u, e).active - u.active == Next(cfg, w, e).active - w.active
  {
    forall p
      ensures CallItems(Next(cfg, u, e).log, p) == CallItems(Next(cfg, w, e).log, p)
    {
      SameItemsStep(cfg, u, w, e, p);
    }
  }

  lemma {:induction false} LoudRun(cfg: Config, u: World, w: World, es: seq<Wait>)
    requires SameTrace(u, w)
    ensures SameTrace(Run(cfg, u, es), Run(cfg, w, Loud(cfg, u, es)))
    decreases |es|
  {
    if es != [] {
      var u' := Next(cfg, u, es[0]);
      if IsQuiet(cfg, u, es[0]) {
        QuietTurn(cfg, u, es[0]);
        LoudRun(cfg, u', w, es[1..]);
      } else {
        var rest := Loud(cfg, u', es[1..]);
        assert ([es[0]] + rest)[1..] == rest;
        SameCallsStep(cfg, u, w, es[0]);
        LoudRun(cfg, u', Next(cfg, w, es[0]), es[1..]);
      }
    }
  }

  /** In every run whatsoever, signal stops of tracked pids and fork stops that name no child are
      stutters: without them the heads and tails of every pid, the phases, the call count, the
      rows, active_count and the end of the loop are the same. */
  lemma {:induction false} StuttersDoNotDisturb(cfg: Config, root: Pid, es: seq<Wait>)
    ensures SameTrace(Run(cfg, Start(root), es), Run(cfg, Start(root), Loud(cfg, Start(root), es)))
  {
    LoudRun(cfg, Start(root), Start(root), es);
  }
}
