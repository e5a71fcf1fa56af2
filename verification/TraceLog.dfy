/** Reading the printed trace: the items of one pid, and the head a tail belongs to. */
module TraceLog {
  import opened Options
  import opened TraceModel

  /** Everything printed for one pid. */
  function PidItems(log: seq<Item>, p: Pid): seq<Item> {
    if log == [] then []
    else PidItems(log[..|log| - 1], p) + if log[|log| - 1].pid == p then [log[|log| - 1]] else []
  }

  /** The heads and tails printed for one pid. */
  function CallItems(log: seq<Item>, p: Pid): seq<Item> {
    if log == [] then []
    else
      var x := log[|log| - 1];
      CallItems(log[..|log| - 1], p) + if x.pid == p && !x.Sig? then [x] else []
  }

  /** The name on the most recent head of a pid. */
  function LastHead(log: seq<Item>, p: Pid): Option<string> {
    if log == [] then None
    else
      var x := log[|log| - 1];
      if x.Head? && x.pid == p then Some(x.name) else LastHead(log[..|log| - 1], p)
  }

  lemma {:induction false} PidItemsAppend(a: seq<Item>, b: seq<Item>, p: Pid)
    ensures PidItems(a + b, p) == PidItems(a, p) + PidItems(b, p)
    decreases |b|
  {
    if b == [] {
      assert a + b == a;
    } else {
      assert (a + b)[..|a + b| - 1] == a + b[..|b| - 1];
      PidItemsAppend(a, b[..|b| - 1], p);
    }
  }

  lemma {:induction false} CallItemsAppend(a: seq<Item>, b: seq<Item>, p: Pid)
    ensures CallItems(a + b, p) == CallItems(a, p) + CallItems(b, p)
    decreases |b|
  {
    if b == [] {
      assert a + b == a;
    } else {
      assert (a + b)[..|a + b| - 1] == a + b[..|b| - 1];
      CallItemsAppend(a, b[..|b| - 1], p);
    }
  }

  lemma {:induction false} CallItemsOne(x: Item, p: Pid)
    ensures CallItems([x], p) == if x.pid == p && !x.Sig? then [x] else []
  {
    assert CallItems([x][..0], p) == [];
  }

  lemma {:induction false} CallItemsTwo(x: Item, y: Item, p: Pid)
    ensures CallItems([x, y], p) == CallItems([x], p) + CallItems([y], p)
  {
    assert [x, y] == [x] + [y];
    CallItemsAppend([x], [y], p);
  }

  /** What one turn of the loop prints. */
  function Emitted(cfg: Config, w: World, e: Wait): seq<Item> {
    if w.halted || !e.Report? then []
    else if IsSignalStop(cfg, e.status) then SigItems(e.pid, e.status.sig)
    else if IsCallStop(cfg, e.status) && HasRoom(w.phases, e.pid) && e.regs.Some? then
      var r := e.regs.value;
      if e.pid !in w.phases || w.phases[e.pid].Idle? then EntryItems(cfg, e.pid, r)
      else ExitItems(cfg, e.pid, w.phases[e.pid], r.ret, e.now)
    else []
  }

  lemma {:induction false} NextLog(cfg: Config, w: World, e: Wait)
    ensures Next(cfg, w, e).log == w.log + Emitted(cfg, w, e)
  {
  }

  lemma {:induction false} HeadOne(log: seq<Item>, x: Item, p: Pid)
    ensures LastHead(log + [x], p) == if x.Head? && x.pid == p then Some(x.name) else LastHead(log, p)
  {
    assert (log + [x])[..|log|] == log;
  }

  /** A call whose head is printed has the most recent head of its pid. */
  ghost predicate OpenHeads(cfg: Config, w: World) {
    forall p :: p in w.phases && w.phases[p].Shown? && !cfg.summaryMode ==>
      LastHead(w.log, p) == Some(w.phases[p].name)
  }

  /** The turns that print neither for p nor about a call of p leave its last head alone. */
  lemma {:induction false} OthersHead(cfg: Config, w: World, e: Wait, p: Pid)
    requires !(e.Report? && e.pid == p && IsCallStop(cfg, e.status))
    ensures LastHead(Next(cfg, w, e).log, p) == LastHead(w.log, p)
  {
    NextLog(cfg, w, e);
    var xs := Emitted(cfg, w, e);
    if |xs| == 0 {
      assert w.log + xs == w.log;
    } else if |xs| == 1 {
      assert xs == [xs[0]];
      HeadOne(w.log, xs[0], p);
    } else {
      assert w.log + xs == (w.log + [xs[0]]) + [xs[1]];
      HeadOne(w.log, xs[0], p);
      HeadOne(w.log + [xs[0]], xs[1], p);
    }
  }

  lemma {:induction false} OpenHeadsKept(cfg: Config, w: World, e: Wait)
    requires OpenHeads(cfg, w)
    ensures OpenHeads(cfg, Next(cfg, w, e))
  {
    var v := Next(cfg, w, e);
    forall p | p in v.phases && v.phases[p].Shown? && !cfg.summaryMode
      ensures LastHead(v.log, p) == Some(v.phases[p].name)
    {
      if e.Report? && e.pid == p && IsCallStop(cfg, e.status) {
        if p in w.phases && w.phases[p] == v.phases[p] && v.log == w.log {
        } else {
          HeadOne(w.log, Head(p, e.regs.value.name, e.regs.value.args), p);
        }
      } else {
        OthersHead(cfg, w, e, p);
      }
    }
  }
}
