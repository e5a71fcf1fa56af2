/**
 Interleaving independence: what is recorded for each pid, the call count, the phases and the
 totals per name depend only on the events of each pid in their own order.
 The proof passes through a machine without the 64-slot bound and without the end of the loop,
 in which neighbouring events of different pids can be exchanged.
 */
module Interleaving {
  import opened Options
  import opened SummaryRows
  import opened SummaryOrder
  import opened TraceModel
  import opened TraceLog

  // ----- The unbounded machine -----

  datatype Flat = Flat(phases: map<Pid, Phase>, active: int, calls: int, log: seq<Item>, dones: seq<Done>)

  function FlatStart(root: Pid): Flat { Flat(map[root := Idle], 1, 0, [], []) }

  function Put(m: map<Pid, Phase>, p: Pid): map<Pid, Phase> {
    if p in m then m else m[p := Idle]
  }

  predicate IsCall(cfg: Config, e: Wait) {
    e.Report? && IsCallStop(cfg, e.status) && e.regs.Some?
  }

  predicate Ends(e: Wait, p: Pid) {
    e.Report? && IsGone(e.status) && e.pid == p
  }

  function NewPhases(cfg: Config, m: map<Pid, Phase>, e: Wait): map<Pid, Phase> {
    if !e.Report? then m
    else if IsGone(e.status) then m - {e.pid}
    else if IsForkStop(cfg, e.status) then (if e.child.Some? then Put(m, e.child.value) else m)
    else if IsSignalStop(cfg, e.status) then Put(m, e.pid)
    else if IsCallStop(cfg, e.status) then
      (if e.regs.None? then Put(m, e.pid)
       else m[e.pid := if PhaseOf(m, e.pid).Idle? then EntryPhase(cfg, e.regs.value, e.now) else Idle])
    else m
  }

  /** What an event does to active_count. */
  function NewActive(cfg: Config, e: Wait): int {
    if !e.Report? then 0
    else if IsGone(e.status) then -1
    else if IsForkStop(cfg, e.status) && e.child.Some? then 1
    else 0
  }

  /** What an event adds depends only on the phase its pid is in. */
  function NewCalls(cfg: Config, ph: Phase, e: Wait): int {
    if IsCall(cfg, e) && ph.Idle? then 1 else 0
  }

  function NewItems(cfg: Config, ph: Phase, e: Wait): seq<Item> {
    if !e.Report? then []
    else if IsSignalStop(cfg, e.status) then SigItems(e.pid, e.status.sig)
    else if IsCall(cfg, e) then
      (if ph.Idle? then EntryItems(cfg, e.pid, e.regs.value)
       else ExitItems(cfg, e.pid, ph, e.regs.value.ret, e.now))
    else []
  }

  function NewDones(cfg: Config, ph: Phase, e: Wait): seq<Done> {
    if IsCall(cfg, e) && !ph.Idle? && !ph.Hidden?
    then [Done(ph.name, e.regs.value.ret, e.now - ph.since)] else []
  }

  function FlatNext(cfg: Config, s: Flat, e: Wait): Flat {
    if !e.Report? then s
    else
      var ph := PhaseOf(s.phases, e.pid);
      Flat(NewPhases(cfg, s.phases, e), s.active + NewActive(cfg, e), s.calls + NewCalls(cfg, ph, e),
           s.log + NewItems(cfg, ph, e), s.dones + NewDones(cfg, ph, e))
  }

  function FlatRun(cfg: Config, s: Flat, es: seq<Wait>): Flat
    decreases |es|
  {
    if es == [] then s else FlatRun(cfg, FlatNext(cfg, s, es[0]), es[1..])
  }

  // ----- Worlds that tell the same story of every pid -----

  ghost predicate Alike(s: Flat, t: Flat) {
    && s.phases == t.phases && s.active == t.active && s.calls == t.calls
    && (forall p :: PidItems(s.log, p) == PidItems(t.log, p))
    && multiset(s.dones) == multiset(t.dones)
  }

  lemma {:induction false} AlikeNext(cfg: Config, s: Flat, t: Flat, e: Wait)
    requires Alike(s, t)
    ensures Alike(FlatNext(cfg, s, e), FlatNext(cfg, t, e))
  {
    if e.Report? {
      var xs := NewItems(cfg, PhaseOf(s.phases, e.pid), e);
      forall p
        ensures PidItems(s.log + xs, p) == PidItems(t.log + xs, p)
      {
        PidItemsAppend(s.log, xs, p);
        PidItemsAppend(t.log, xs, p);
      }
    }
  }

  lemma {:induction false} AlikeRun(cfg: Config, s: Flat, t: Flat, es: seq<Wait>)
    requires Alike(s, t)
    ensures Alike(FlatRun(cfg, s, es), FlatRun(cfg, t, es))
    decreases |es|
  {
    if es != [] {
      AlikeNext(cfg, s, t, es[0]);
      AlikeRun(cfg, FlatNext(cfg, s, es[0]), FlatNext(cfg, t, es[0]), es[1..]);
    }
  }

  // ----- Exchanging two neighbours -----

  /** Different pids, and not one pid's end against its announcement. */
  ghost predicate Independent(cfg: Config, e: Wait, f: Wait) {
    && e.Report? && f.Report? && e.pid != f.pid
    && !(Ends(e, e.pid) && Announces(cfg, f, e.pid))
    && !(Ends(f, f.pid) && Announces(cfg, e, f.pid))
  }

  lemma {:induction false} OtherPhase(cfg: Config, m: map<Pid, Phase>, e: Wait, p: Pid)
    requires e.Report? && e.pid != p
    ensures PhaseOf(NewPhases(cfg, m, e), p) == PhaseOf(m, p)
  {
  }

  /** Where an event leaves the entry of a pid: None is no entry. */
  function Entry(m: map<Pid, Phase>, p: Pid): Option<Phase> {
    if p in m then Some(m[p]) else None
  }

  function NewEntry(cfg: Config, o: Option<Phase>, e: Wait, p: Pid): Option<Phase> {
    var ph := if o.Some? then o.value else Idle;
    if Ends(e, p) then None
    else if Announces(cfg, e, p) then Some(ph)
    else if !e.Report? || e.pid != p || IsGone(e.status) || IsForkStop(cfg, e.status) || !e.status.Stopped? then o
    else if IsCall(cfg, e) then Some(if ph.Idle? then EntryPhase(cfg, e.regs.value, e.now) else Idle)
    else Some(ph)
  }

  lemma {:induction false} EntryAfter(cfg: Config, m: map<Pid, Phase>, e: Wait, p: Pid)
    ensures Entry(NewPhases(cfg, m, e), p) == NewEntry(cfg, Entry(m, p), e, p)
  {
  }

  lemma {:induction false} EntriesCommute(cfg: Config, o: Option<Phase>, e: Wait, f: Wait, p: Pid)
    requires Independent(cfg, e, f)
    ensures NewEntry(cfg, NewEntry(cfg, o, e, p), f, p) == NewEntry(cfg, NewEntry(cfg, o, f, p), e, p)
  {
  }

  lemma {:induction false} SameEntries(m: map<Pid, Phase>, n: map<Pid, Phase>)
    requires forall p :: Entry(m, p) == Entry(n, p)
    ensures m == n
  {
    forall p
      ensures p in m <==> p in n
    {
      assert Entry(m, p) == Entry(n, p);
    }
    forall p | p in m
      ensures m[p] == n[p]
    {
      assert Entry(m, p) == Entry(n, p);
    }
  }

  lemma {:induction false} PhasesCommute(cfg: Config, m: map<Pid, Phase>, e: Wait, f: Wait)
    requires Independent(cfg, e, f)
    ensures NewPhases(cfg, NewPhases(cfg, m, e), f) == NewPhases(cfg, NewPhases(cfg, m, f), e)
  {
    var a, b := NewPhases(cfg, NewPhases(cfg, m, e), f), NewPhases(cfg, NewPhases(cfg, m, f), e);
    forall p
      ensures Entry(a, p) == Entry(b, p)
    {
      EntryAfter(cfg, m, e, p);
      EntryAfter(cfg, NewPhases(cfg, m, e), f, p);
      EntryAfter(cfg, m, f, p);
      EntryAfter(cfg, NewPhases(cfg, m, f), e, p);
      EntriesCommute(cfg, Entry(m, p), e, f, p);
    }
    SameEntries(a, b);
  }

  lemma {:induction false} ForeignItems(xs: seq<Item>, q: Pid, p: Pid)
    requires q != p && forall x :: x in xs ==> x.pid == q
    ensures PidItems(xs, p) == []
  {
    if xs != [] {
      ForeignItems(xs[..|xs| - 1], q, p);
    }
  }

  lemma {:induction false} NewItemsAreOwn(cfg: Config, ph: Phase, e: Wait)
    requires e.Report?
    ensures forall x :: x in NewItems(cfg, ph, e) ==> x.pid == e.pid
  {
  }

  /** Items of two pids can be printed in either order. */
  lemma {:induction false} LogsCommute(log: seq<Item>, xs: seq<Item>, q: Pid, ys: seq<Item>, r: Pid, p: Pid)
    requires q != r
    requires forall x :: x in xs ==> x.pid == q
    requires forall y :: y in ys ==> y.pid == r
    ensures PidItems((log + xs) + ys, p) == PidItems((log + ys) + xs, p)
  {
    PidItemsAppend(log + xs, ys, p);
    PidItemsAppend(log, xs, p);
    PidItemsAppend(log + ys, xs, p);
    PidItemsAppend(log, ys, p);
    if p != q {
      ForeignItems(xs, q, p);
    }
    if p != r {
      ForeignItems(ys, r, p);
    }
  }

  lemma {:induction false} Exchange(cfg: Config, s: Flat, e: Wait, f: Wait)
    requires Independent(cfg, e, f)
    ensures Alike(FlatNext(cfg, FlatNext(cfg, s, e), f), FlatNext(cfg, FlatNext(cfg, s, f), e))
  {
    PhasesCommute(cfg, s.phases, e, f);
    OtherPhase(cfg, s.phases, e, f.pid);
    OtherPhase(cfg, s.phases, f, e.pid);
    var pe, pf := PhaseOf(s.phases, e.pid), PhaseOf(s.phases, f.pid);
    var xs, ys := NewItems(cfg, pe, e), NewItems(cfg, pf, f);
    NewItemsAreOwn(cfg, pe, e);
    NewItemsAreOwn(cfg, pf, f);
    forall p
      ensures PidItems((s.log + xs) + ys, p) == PidItems((s.log + ys) + xs, p)
    {
      LogsCommute(s.log, xs, e.pid, ys, f.pid, p);
    }
    var ds, gs := NewDones(cfg, pe, e), NewDones(cfg, pf, f);
    assert multiset((s.dones + ds) + gs) == multiset((s.dones + gs) + ds);
  }

  lemma {:induction false} RunCons(cfg: Config, s: Flat, e: Wait, es: seq<Wait>)
    ensures FlatRun(cfg, s, [e] + es) == FlatRun(cfg, FlatNext(cfg, s, e), es)
  {
    assert ([e] + es)[1..] == es;
  }

  /** An event can be moved ahead of everything it is independent of. */
  lemma {:induction false} MoveAhead(cfg: Config, s: Flat, pre: seq<Wait>, e: Wait, post: seq<Wait>)
    requires forall x :: x in pre ==> Independent(cfg, x, e)
    ensures Alike(FlatRun(cfg, s, pre + [e] + post), FlatRun(cfg, s, [e] + (pre + post)))
    decreases |pre|
  {
    if pre == [] {
      assert pre + [e] + post == [e] + (pre + post);
    } else {
      var x, rest := pre[0], pre[1..];
      var v := FlatNext(cfg, s, x);
      assert pre + [e] + post == [x] + (rest + [e] + post);
      RunCons(cfg, s, x, rest + [e] + post);
      MoveAhead(cfg, v, rest, e, post);
      RunCons(cfg, v, e, rest + post);
      assert pre + post == [x] + (rest + post);
      RunCons(cfg, s, e, pre + post);
      RunCons(cfg, FlatNext(cfg, s, e), x, rest + post);
      Exchange(cfg, s, x, e);
      AlikeRun(cfg, FlatNext(cfg, v, e), FlatNext(cfg, FlatNext(cfg, s, e), x), rest + post);
    }
  }

  // ----- Rearranging a whole run -----

  /** The events of one pid. */
  function Own(es: seq<Wait>, p: Pid): seq<Wait> {
    if es == [] then []
    else (if es[0].Report? && es[0].pid == p then [es[0]] else []) + Own(es[1..], p)
  }

  /** The announcements and ends of one pid. */
  function Lives(cfg: Config, es: seq<Wait>, p: Pid): seq<Wait> {
    if es == [] then []
    else (if Ends(es[0], p) || Announces(cfg, es[0], p) then [es[0]] else []) + Lives(cfg, es[1..], p)
  }

  /** The same events of every pid in the same order, and no end moved past an announcement of
      the same pid, in sequences of reports. */
  ghost predicate Shuffled(cfg: Config, a: seq<Wait>, b: seq<Wait>) {
    && (forall e :: e in a || e in b ==> e.Report?)
    && (forall p :: Own(a, p) == Own(b, p))
    && (forall p :: Lives(cfg, a, p) == Lives(cfg, b, p))
  }

  lemma {:induction false} OwnSplit(es: seq<Wait>, fs: seq<Wait>, p: Pid)
    ensures Own(es + fs, p) == Own(es, p) + Own(fs, p)
  {
    if es == [] {
      assert es + fs == fs;
    } else {
      assert (es + fs)[1..] == es[1..] + fs;
      OwnSplit(es[1..], fs, p);
    }
  }

  lemma {:induction false} LivesSplit(cfg: Config, es: seq<Wait>, fs: seq<Wait>, p: Pid)
    ensures Lives(cfg, es + fs, p) == Lives(cfg, es, p) + Lives(cfg, fs, p)
  {
    if es == [] {
      assert es + fs == fs;
    } else {
      assert (es + fs)[1..] == es[1..] + fs;
      LivesSplit(cfg, es[1..], fs, p);
    }
  }

  lemma {:induction false} OwnMembers(es: seq<Wait>, p: Pid)
    ensures forall e :: e in Own(es, p) <==> e in es && e.Report? && e.pid == p
  {
    if es != [] {
      OwnMembers(es[1..], p);
      assert es == [es[0]] + es[1..];
    }
  }

  lemma {:induction false} LivesMembers(cfg: Config, es: seq<Wait>, p: Pid)
    ensures forall e :: e in Lives(cfg, es, p) <==> e in es && (Ends(e, p) || Announces(cfg, e, p))
  {
    if es != [] {
      LivesMembers(cfg, es[1..], p);
      assert es == [es[0]] + es[1..];
    }
  }

  /** Where the first event of a pid is. */
  function First(es: seq<Wait>, p: Pid): (k: nat)
    ensures k <= |es|
  {
    if es == [] || (es[0].Report? && es[0].pid == p) then 0 else 1 + First(es[1..], p)
  }

  lemma {:induction false} FirstIsFirst(es: seq<Wait>, p: Pid)
    requires Own(es, p) != []
    ensures First(es, p) < |es| && es[First(es, p)] == Own(es, p)[0]
    ensures Own(es[..First(es, p)], p) == []
  {
    if es[0].Report? && es[0].pid == p {
      assert es[..0] == [];
    } else {
      FirstIsFirst(es[1..], p);
      var k := First(es, p);
      assert es[..k][1..] == es[1..][..k - 1];
    }
  }

  /** Nothing that comes before the first event of its pid conflicts with it. */
  lemma {:induction false} AheadIsIndependent(cfg: Config, e: Wait, rest: seq<Wait>, pre: seq<Wait>, post: seq<Wait>)
    requires Shuffled(cfg, [e] + rest, pre + [e] + post)
    requires Own(pre, e.pid) == []
    ensures forall x :: x in pre ==> Independent(cfg, x, e)
  {
    forall x | x in pre
      ensures Independent(cfg, x, e)
    {
      var b := pre + [e] + post;
      assert x in b && e in [e] + rest;
      OwnMembers(pre, e.pid);
      if Ends(e, e.pid) {
        NoLifeAhead(cfg, e, rest, pre, post, e.pid);
        LivesMembers(cfg, pre, e.pid);
      }
      if Announces(cfg, e, x.pid) {
        NoLifeAhead(cfg, e, rest, pre, post, x.pid);
        LivesMembers(cfg, pre, x.pid);
      }
    }
  }

  /** If e is the first announcement or end of p in one run, no other comes before it in a
      rearrangement. */
  lemma {:induction false} NoLifeAhead(cfg: Config, e: Wait, rest: seq<Wait>, pre: seq<Wait>, post: seq<Wait>, p: Pid)
    requires Shuffled(cfg, [e] + rest, pre + [e] + post)
    requires e.Report? && Own(pre, e.pid) == []
    requires Ends(e, p) || Announces(cfg, e, p)
    ensures Lives(cfg, pre, p) == []
  {
    var b := pre + [e] + post;
    assert b == pre + ([e] + post);
    LivesSplit(cfg, pre, [e] + post, p);
    assert ([e] + rest)[0] == e;
    assert Lives(cfg, [e] + rest, p)[0] == e;
    var ahead := Lives(cfg, pre, p);
    assert ahead == [] || (ahead + Lives(cfg, [e] + post, p))[0] in ahead;
    LivesMembers(cfg, pre, p);
    OwnMembers(pre, e.pid);
  }

  lemma {:induction false} CancelOne<T>(one: seq<T>, a: seq<T>, x: seq<T>, y: seq<T>)
    requires one + a == (x + one) + y && (one == [] || x == [])
    ensures a == x + y
  {
    assert a == (one + a)[|one|..];
    assert ((x + one) + y)[|one|..] == x + y by {
      if one == [] {
        assert (x + one) + y == x + y;
      } else {
        assert (x + one) + y == one + y;
      }
    }
  }

  lemma {:induction false} OwnRest(e: Wait, rest: seq<Wait>, pre: seq<Wait>, post: seq<Wait>, p: Pid)
    requires e.Report? && Own([e] + rest, p) == Own(pre + [e] + post, p)
    requires e.pid == p ==> Own(pre, p) == []
    ensures Own(rest, p) == Own(pre + post, p)
  {
    var one := if e.pid == p then [e] else [];
    assert Own([e], p) == one by { assert [e][1..] == []; }
    OwnSplit([e], rest, p);
    OwnSplit(pre + [e], post, p);
    OwnSplit(pre, [e], p);
    OwnSplit(pre, post, p);
    CancelOne(one, Own(rest, p), Own(pre, p), Own(post, p));
  }

  lemma {:induction false} LivesRest(cfg: Config, e: Wait, rest: seq<Wait>, pre: seq<Wait>, post: seq<Wait>, p: Pid)
    requires Lives(cfg, [e] + rest, p) == Lives(cfg, pre + [e] + post, p)
    requires Ends(e, p) || Announces(cfg, e, p) ==> Lives(cfg, pre, p) == []
    ensures Lives(cfg, rest, p) == Lives(cfg, pre + post, p)
  {
    var one := if Ends(e, p) || Announces(cfg, e, p) then [e] else [];
    assert Lives(cfg, [e], p) == one by { assert [e][1..] == []; }
    LivesSplit(cfg, [e], rest, p);
    LivesSplit(cfg, pre + [e], post, p);
    LivesSplit(cfg, pre, [e], p);
    LivesSplit(cfg, pre, post, p);
    CancelOne(one, Lives(cfg, rest, p), Lives(cfg, pre, p), Lives(cfg, post, p));
  }

  /** Dropping the common first event leaves a rearrangement. */
  lemma {:induction false} ShuffledRest(cfg: Config, e: Wait, rest: seq<Wait>, pre: seq<Wait>, post: seq<Wait>)
    requires Shuffled(cfg, [e] + rest, pre + [e] + post)
    requires Own(pre, e.pid) == []
    ensures Shuffled(cfg, rest, pre + post)
  {
    var b := pre + [e] + post;
    assert e in [e] + rest;
    forall x | x in rest || x in pre + post
      ensures x.Report?
    {
      assert x in [e] + rest || x in b;
    }
    forall p
      ensures Own(rest, p) == Own(pre + post, p)
    {
      OwnRest(e, rest, pre, post, p);
    }
    forall p
      ensures Lives(cfg, rest, p) == Lives(cfg, pre + post, p)
    {
      if Ends(e, p) || Announces(cfg, e, p) {
        NoLifeAhead(cfg, e, rest, pre, post, p);
      }
      LivesRest(cfg, e, rest, pre, post, p);
    }
  }

  lemma {:induction false} ShuffledRuns(cfg: Config, s: Flat, a: seq<Wait>, b: seq<Wait>)
    requires Shuffled(cfg, a, b)
    ensures Alike(FlatRun(cfg, s, a), FlatRun(cfg, s, b))
    decreases |a|
  {
    if a == [] {
      assert b != [] ==> b[0] in b;
      assert b != [] ==> Own(b, b[0].pid) == Own(a, b[0].pid);
    } else {
      var e, rest := a[0], a[1..];
      assert a == [e] + rest && e in a;
      assert Own(a, e.pid)[0] == e;
      FirstIsFirst(b, e.pid);
      var k := First(b, e.pid);
      var pre, post := b[..k], b[k + 1..];
      assert b == pre + [e] + post;
      AheadIsIndependent(cfg, e, rest, pre, post);
      MoveAhead(cfg, s, pre, e, post);
      ShuffledRest(cfg, e, rest, pre, post);
      ShuffledRuns(cfg, FlatNext(cfg, s, e), rest, pre + post);
      RunCons(cfg, s, e, pre + post);
    }
  }

  // ----- Interrupted waits -----

  /** The events without the waits that reported nothing. */
  function Heard(es: seq<Wait>): seq<Wait> {
    if es == [] then []
    else if es[0].Report? then [es[0]] + Heard(es[1..])
    else Heard(es[1..])
  }

  lemma {:induction false} HeardReports(es: seq<Wait>)
    ensures forall e :: e in Heard(es) ==> e.Report?
  {
    if es != [] {
      HeardReports(es[1..]);
    }
  }

  lemma {:induction false} HeardOwn(es: seq<Wait>, p: Pid)
    ensures Own(Heard(es), p) == Own(es, p)
  {
    if es != [] {
      HeardOwn(es[1..], p);
      if es[0].Report? {
        assert ([es[0]] + Heard(es[1..]))[1..] == Heard(es[1..]);
      } else {
        assert [] + Own(es[1..], p) == Own(es[1..], p);
      }
    }
  }

  lemma {:induction false} HeardLives(cfg: Config, es: seq<Wait>, p: Pid)
    ensures Lives(cfg, Heard(es), p) == Lives(cfg, es, p)
  {
    if es != [] {
      HeardLives(cfg, es[1..], p);
      if es[0].Report? {
        assert ([es[0]] + Heard(es[1..]))[1..] == Heard(es[1..]);
      } else {
        assert [] + Lives(cfg, es[1..], p) == Lives(cfg, es[1..], p);
      }
    }
  }

  lemma {:induction false} HeardRun(cfg: Config, s: Flat, es: seq<Wait>)
    ensures FlatRun(cfg, s, Heard(es)) == FlatRun(cfg, s, es)
    decreases |es|
  {
    if es != [] {
      HeardRun(cfg, FlatNext(cfg, s, es[0]), es[1..]);
      if es[0].Report? {
        RunCons(cfg, s, es[0], Heard(es[1..]));
      }
    }
  }

  /** The same events of every pid in the same order, and no end moved past an announcement of
      the same pid; interrupted waits may fall anywhere. */
  ghost predicate Rearranged(cfg: Config, a: seq<Wait>, b: seq<Wait>) {
    && (forall p :: Own(a, p) == Own(b, p))
    && (forall p :: Lives(cfg, a, p) == Lives(cfg, b, p))
  }

  lemma {:induction false} RearrangedRuns(cfg: Config, s: Flat, a: seq<Wait>, b: seq<Wait>)
    requires Rearranged(cfg, a, b)
    ensures Alike(FlatRun(cfg, s, a), FlatRun(cfg, s, b))
  {
    HeardReports(a);
    HeardReports(b);
    forall p
      ensures Own(Heard(a), p) == Own(Heard(b), p)
      ensures Lives(cfg, Heard(a), p) == Lives(cfg, Heard(b), p)
    {
      HeardOwn(a, p);
      HeardOwn(b, p);
      HeardLives(cfg, a, p);
      HeardLives(cfg, b, p);
    }
    ShuffledRuns(cfg, s, Heard(a), Heard(b));
    HeardRun(cfg, s, a);
    HeardRun(cfg, s, b);
  }

  // ----- Back to the bounded machine -----

  /** The event finds a slot for the pid it registers. */
  predicate FindsRoom(cfg: Config, w: World, e: Wait) {
    e.Report? ==>
      && (IsForkStop(cfg, e.status) && e.child.Some? ==> HasRoom(w.phases, e.child.value))
      && (IsSignalStop(cfg, e.status) || IsCallStop(cfg, e.status) ==> HasRoom(w.phases, e.pid))
  }

  ghost predicate NeverFull(cfg: Config, w: World, es: seq<Wait>)
    decreases |es|
  {
    es == [] || (FindsRoom(cfg, w, es[0]) && NeverFull(cfg, Next(cfg, w, es[0]), es[1..]))
  }

  ghost predicate Flattens(cfg: Config, w: World, s: Flat) {
    && w.phases == s.phases && w.active == s.active && w.calls == s.calls && w.log == s.log
    && (w.halted <==> w.active <= 0)
    && (cfg.summaryMode ==> w.rows == Tally(s.dones))
  }

  lemma {:induction false} FlattensCall(cfg: Config, w: World, s: Flat, e: Wait)
    requires Flattens(cfg, w, s) && !w.halted && e.Report? && IsCallStop(cfg, e.status) && HasRoom(w.phases, e.pid)
    ensures Flattens(cfg, CallStop(cfg, w, e.pid, e.regs, e.now), FlatNext(cfg, s, e))
  {
    var ph := PhaseOf(s.phases, e.pid);
    assert CallPhases(cfg, w.phases, e.pid, e.regs, e.now) == NewPhases(cfg, s.phases, e);
    assert s.dones + [] == s.dones && s.log + [] == s.log;
    if e.regs.Some? && !ph.Idle? && !ph.Hidden? {
      TallyOne(s.dones, Done(ph.name, e.regs.value.ret, e.now - ph.since));
    }
  }

  lemma {:induction false} FlattensOther(cfg: Config, w: World, s: Flat, e: Wait)
    requires Flattens(cfg, w, s) && !w.halted && e != NoTracees && FindsRoom(cfg, w, e)
    requires e.Report? ==> !IsCallStop(cfg, e.status)
    ensures Flattens(cfg, Next(cfg, w, e), FlatNext(cfg, s, e))
  {
    assert s.dones + [] == s.dones;
    assert s.log + [] == s.log;
  }

  lemma {:induction false} FlattensRun(cfg: Config, w: World, s: Flat, es: seq<Wait>)
    requires Flattens(cfg, w, s) && NeverFull(cfg, w, es) && TakesAll(cfg, w, es)
    requires NoTracees !in es
    ensures Flattens(cfg, Run(cfg, w, es), FlatRun(cfg, s, es))
    decreases |es|
  {
    if es != [] {
      var e := es[0];
      if e.Report? && IsCallStop(cfg, e.status) {
        FlattensCall(cfg, w, s, e);
      } else {
        FlattensOther(cfg, w, s, e);
      }
      FlattensRun(cfg, Next(cfg, w, e), FlatNext(cfg, s, e), es[1..]);
    }
  }

  /** The completed calls of a run, in order, as the unbounded machine sees them. */
  function Completed(cfg: Config, root: Pid, es: seq<Wait>): seq<Done> {
    FlatRun(cfg, FlatStart(root), es).dones
  }

  /** Two runs whose events agree pid by pid, with no end of a pid moved past its announcement,
      neither meeting a full table nor ending early, give every pid the same output, and the same
      phases, counters and end. */
  lemma {:induction false} InterleavingIndependence(cfg: Config, root: Pid, a: seq<Wait>, b: seq<Wait>)
    requires Rearranged(cfg, a, b) && NoTracees !in a && NoTracees !in b
    requires NeverFull(cfg, Start(root), a) && TakesAll(cfg, Start(root), a)
    requires NeverFull(cfg, Start(root), b) && TakesAll(cfg, Start(root), b)
    ensures var u, w := Run(cfg, Start(root), a), Run(cfg, Start(root), b);
            && u.phases == w.phases && u.calls == w.calls
            && u.active == w.active && u.halted == w.halted
            && (forall p :: PidItems(u.log, p) == PidItems(w.log, p))
  {
    FlattensRun(cfg, Start(root), FlatStart(root), a);
    FlattensRun(cfg, Start(root), FlatStart(root), b);
    RearrangedRuns(cfg, FlatStart(root), a, b);
  }

  /** The same for the table: rows of the same name are the same, and the rows are the same
      exactly when the first 256 names completed are the same set, which they are whenever there
      are no more than 256. */
  lemma {:induction false} InterleavedTotals(cfg: Config, root: Pid, a: seq<Wait>, b: seq<Wait>)
    requires Rearranged(cfg, a, b) && NoTracees !in a && NoTracees !in b
    requires NeverFull(cfg, Start(root), a) && TakesAll(cfg, Start(root), a)
    requires NeverFull(cfg, Start(root), b) && TakesAll(cfg, Start(root), b)
    requires cfg.summaryMode
    ensures var u, w := Run(cfg, Start(root), a).rows, Run(cfg, Start(root), b).rows;
            var c, d := Completed(cfg, root, a), Completed(cfg, root, b);
            && (forall r, q :: r in u && q in w && r.name == q.name ==> r == q)
            && (multiset(u) == multiset(w) <==> SameFirstNames(c, d))
            && (|Distinct(c)| <= MAX_SUMMARY_ENTRIES ==> multiset(u) == multiset(w))
  {
    var c, d := Completed(cfg, root, a), Completed(cfg, root, b);
    FlattensRun(cfg, Start(root), FlatStart(root), a);
    FlattensRun(cfg, Start(root), FlatStart(root), b);
    RearrangedRuns(cfg, FlatStart(root), a, b);
    TalliesAgree(c, d);
    forall r, q | r in Tally(c) && q in Tally(d) && r.name == q.name
      ensures r == q
    {
      RowsAgree(c, d, r, q);
    }
  }
}
