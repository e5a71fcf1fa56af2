/**
 The 64-slot tracee table (src/mini_strace.c) as a sequence of slots, what a slot stands for,
 and how slot updates act on the map from pid to phase.
 */
module Tracees {
  import opened Options
  import opened TraceModel

  datatype Tracee = Tracee(
    pid: Pid, active: bool, inSyscall: bool,
    pendingName: string, pendingArgs: Args, pending: Pending,
    suppressed: bool, entryTime: int, currentName: string)

  /** What memset leaves in the pending fields: indices 0, not -1. */
  const ZERO_PENDING :=
    Pending(None, None, 0, 0, 0, 0, 0, 0, 0, 0, None, 0, None, 0)

  const ZEROED := Tracee(0, false, false, "", [], ZERO_PENDING, false, 0, "")

  /** A fresh slot looks as if a line were owed; only in_syscall keeps it from being printed. */
  lemma {:induction false} FreshSlotLooksPending()
    ensures ExitPrints(ZEROED.pending) && !ZEROED.inSyscall
  {
  }

  /** What a slot stands for. */
  function View(cfg: Config, t: Tracee): Phase {
    var since := if cfg.Timed() then t.entryTime else 0;
    if !t.inSyscall then Idle
    else if t.suppressed then Hidden(t.currentName)
    else if ExitPrints(t.pending) then Owed(t.pendingName, t.pendingArgs, since)
    else Shown(t.currentName, since)
  }

  /** The invariant of a slot. It speaks only of a call in flight: there, and only there, a
      pending field says that the head of the current call has not been printed. */
  predicate Coherent(cfg: Config, t: Tracee) {
    t.inSyscall ==>
      && t.suppressed == !cfg.Allows(t.currentName)
      && (!t.suppressed ==>
            && (ExitPrints(t.pending) <==> cfg.Defers(t.currentName))
            && (ExitPrints(t.pending) ==> t.pendingName == t.currentName))
  }

  /** The active slots hold distinct pids and stand for exactly the entries of the map. */
  ghost predicate Slots(cfg: Config, ts: seq<Tracee>, m: map<Pid, Phase>) {
    && (forall i, j :: 0 <= i < j < |ts| && ts[i].active && ts[j].active ==> ts[i].pid != ts[j].pid)
    && (forall i :: 0 <= i < |ts| && ts[i].active ==>
          ts[i].pid in m && m[ts[i].pid] == View(cfg, ts[i]) && Coherent(cfg, ts[i]))
    && (forall p :: p in m ==> exists i :: 0 <= i < |ts| && ts[i].active && ts[i].pid == p)
  }

  // ----- Slot updates -----

  lemma {:induction false} SlotUpdated(cfg: Config, ts: seq<Tracee>, m: map<Pid, Phase>, i: nat, t: Tracee)
    requires Slots(cfg, ts, m) && i < |ts| && ts[i].active
    requires t.active && t.pid == ts[i].pid && Coherent(cfg, t)
    ensures Slots(cfg, ts[i := t], m[t.pid := View(cfg, t)])
  {
    var us, n := ts[i := t], m[t.pid := View(cfg, t)];
    forall p | p in n
      ensures exists k :: 0 <= k < |us| && us[k].active && us[k].pid == p
    {
      var k :| 0 <= k < |ts| && ts[k].active && ts[k].pid == p;
      assert us[k].active && us[k].pid == p;
    }
  }

  lemma {:induction false} SlotAdded(cfg: Config, ts: seq<Tracee>, m: map<Pid, Phase>, i: nat, pid: Pid)
    requires Slots(cfg, ts, m) && i < |ts| && !ts[i].active && pid !in m
    ensures Slots(cfg, ts[i := ZEROED.(pid := pid, active := true)], m[pid := Idle])
  {
    var t := ZEROED.(pid := pid, active := true);
    var us, n := ts[i := t], m[pid := Idle];
    forall p | p in n
      ensures exists k :: 0 <= k < |us| && us[k].active && us[k].pid == p
    {
      if p == pid {
        assert us[i].active && us[i].pid == p;
      } else {
        var k :| 0 <= k < |ts| && ts[k].active && ts[k].pid == p;
        assert us[k].active && us[k].pid == p;
      }
    }
  }

  lemma {:induction false} SlotRemoved(cfg: Config, ts: seq<Tracee>, m: map<Pid, Phase>, i: nat)
    requires Slots(cfg, ts, m) && i < |ts| && ts[i].active
    ensures Slots(cfg, ts[i := ts[i].(active := false)], m - {ts[i].pid})
  {
    var us, n := ts[i := ts[i].(active := false)], m - {ts[i].pid};
    forall p | p in n
      ensures exists k :: 0 <= k < |us| && us[k].active && us[k].pid == p
    {
      var k :| 0 <= k < |ts| && ts[k].active && ts[k].pid == p;
      assert us[k].active && us[k].pid == p;
    }
  }

  // ----- Capacity -----

  ghost function ActiveSlots(ts: seq<Tracee>): nat {
    if ts == [] then 0 else ActiveSlots(ts[1..]) + if ts[0].active then 1 else 0
  }

  /** As many map entries as active slots. */
  lemma {:induction false} SlotsCount(cfg: Config, ts: seq<Tracee>, m: map<Pid, Phase>)
    requires Slots(cfg, ts, m)
    ensures |m| == ActiveSlots(ts) <= |ts|
    decreases |ts|
  {
    if ts == [] {
      assert forall p :: p !in m;
      assert |m.Keys| == 0;
    } else if ts[0].active {
      var n := m - {ts[0].pid};
      TailSlots(cfg, ts, m);
      SlotsCount(cfg, ts[1..], n);
      assert m.Keys == n.Keys + {ts[0].pid};
    } else {
      TailSlots(cfg, ts, m);
      SlotsCount(cfg, ts[1..], m);
    }
  }

  lemma {:induction false} TailSlots(cfg: Config, ts: seq<Tracee>, m: map<Pid, Phase>)
    requires Slots(cfg, ts, m) && ts != []
    ensures Slots(cfg, ts[1..], if ts[0].active then m - {ts[0].pid} else m)
  {
    var us, n := ts[1..], if ts[0].active then m - {ts[0].pid} else m;
    assert forall i :: 0 <= i < |us| ==> us[i] == ts[i + 1];
    forall p | p in n
      ensures exists k :: 0 <= k < |us| && us[k].active && us[k].pid == p
    {
      var k :| 0 <= k < |ts| && ts[k].active && ts[k].pid == p;
      assert us[k - 1].active && us[k - 1].pid == p;
    }
  }

  lemma {:induction false} FullIffAllActive(ts: seq<Tracee>)
    ensures ActiveSlots(ts) <= |ts|
    ensures ActiveSlots(ts) == |ts| <==> forall i :: 0 <= i < |ts| ==> ts[i].active
  {
    if ts != [] {
      FullIffAllActive(ts[1..]);
      assert forall i :: 1 <= i < |ts| ==> ts[i] == ts[1..][i - 1];
      if forall i :: 0 <= i < |ts| ==> ts[i].active {
        assert forall i :: 0 <= i < |ts[1..]| ==> ts[1..][i].active;
      }
    }
  }

  /** The table is full exactly when the map has reached its bound. */
  lemma {:induction false} FullTable(cfg: Config, ts: seq<Tracee>, m: map<Pid, Phase>)
    requires Slots(cfg, ts, m)
    ensures |m| <= |ts|
    ensures |m| == |ts| <==> forall i :: 0 <= i < |ts| ==> ts[i].active
  {
    SlotsCount(cfg, ts, m);
    FullIffAllActive(ts);
  }

  // ----- The two halves of a syscall stop, on one slot -----

  /** The pending fields after the entry stop has chosen a path. */
  function Routed(cfg: Config, t: Tracee, r: Regs): Tracee {
    if !t.suppressed && EntryDefers(cfg.route(r.name))
    then t.(pendingName := r.name, pendingArgs := r.args, pending := cfg.route(r.name))
    else t.(pending := NO_PENDING)
  }

  /** The entry stop: what the assignments of the entry branch leave in the slot. */
  function Entered(cfg: Config, t: Tracee, r: Regs, now: int): Tracee {
    var t1 := t.(currentName := r.name,
                 entryTime := if cfg.Timed() then now else t.entryTime,
                 suppressed := !cfg.Allows(r.name));
    Routed(cfg, t1, r).(inSyscall := true)
  }

  /** The exit stop. */
  function Left(t: Tracee): Tracee {
    (if !t.suppressed && ExitPrints(t.pending) then t.(pending := NO_PENDING) else t).(inSyscall := false)
  }

  /** Entering from any slot contents whatsoever, a fresh or a stale slot included, leaves the
      slot coherent and in the phase the specification asks for. */
  lemma {:induction false} EnteredView(cfg: Config, t: Tracee, r: Regs, now: int)
    ensures Coherent(cfg, Entered(cfg, t, r, now))
    ensures View(cfg, Entered(cfg, t, r, now)) == EntryPhase(cfg, r, now)
  {
    assert !ExitPrints(NO_PENDING);
  }

  lemma {:induction false} LeftView(cfg: Config, t: Tracee)
    ensures Coherent(cfg, Left(t)) && View(cfg, Left(t)) == Idle
  {
  }
}
