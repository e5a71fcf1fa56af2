/** run_tracer on its own tables (src/mini_strace.c), proved against TraceModel. */
module Tracer {
  import opened Options
  import opened SummaryRows
  import opened SummaryPrint
  import opened SummaryAgrees
  import opened TraceModel
  import opened Tracees

  class Tracer {
    const cfg: Config
    const tracees: array<Tracee>
    const summary: array<Row>
    var summaryCount: nat
    var activeCount: int
    var callCount: int
    var log: seq<Item>
    var resumes: seq<Resume>
    var halted: bool
    ghost var phases: map<Pid, Phase>

    /** The fixed sizes. */
    ghost predicate Sized()
      reads this
    {
      && tracees.Length == MAX_TRACEES
      && summary.Length == MAX_SUMMARY_ENTRIES
      && tracees as object != summary
      && summaryCount <= MAX_SUMMARY_ENTRIES
    }

    ghost predicate Valid()
      reads this, tracees, summary
    {
      && Sized()
      && Slots(cfg, tracees[..], phases)
    }

    ghost function Rows(): seq<Row>
      reads this, summary
      requires summaryCount <= summary.Length
    {
      summary[..summaryCount]
    }

    /** The abstract state the tables stand for. */
    ghost function Abstract(): World
      reads this, tracees, summary
      requires Valid()
    {
      World(phases, activeCount, callCount, Rows(), log, resumes, halted)
    }

    /** The static tables, and run_tracer up to its loop. */
    constructor (cfg: Config, root: Pid)
      ensures Valid() && fresh(tracees) && fresh(summary)
      ensures this.cfg == cfg
      ensures Abstract() == Start(root)
    {
      this.cfg := cfg;
      var ts := new Tracee[MAX_TRACEES](_ => ZEROED);
      tracees := ts;
      summary := new Row[MAX_SUMMARY_ENTRIES](_ => Row("", 0, 0, 0));
      summaryCount := 0;
      activeCount := 1;
      callCount := 0;
      log := [];
      resumes := [Resume(root, 0)];
      halted := false;
      phases := map[];
      new;
      var slot := AddTracee(root);
    }

    /** find_tracee: the slot of an active pid, or -1. */
    method FindTracee(pid: Pid) returns (slot: int)
      requires Valid()
      ensures slot == -1 <==> pid !in phases
      ensures slot != -1 ==> 0 <= slot < tracees.Length && tracees[slot].active && tracees[slot].pid == pid
    {
      for i := 0 to tracees.Length
        invariant forall j :: 0 <= j < i ==> !(tracees[j].active && tracees[j].pid == pid)
      {
        if tracees[i].active && tracees[i].pid == pid {
          assert tracees[..][i] == tracees[i];
          return i;
        }
      }
      assert forall j :: 0 <= j < tracees.Length ==> tracees[..][j] == tracees[j];
      return -1;
    }

    /** add_tracee: the slot of the pid, taking the first free one; -1 when the table is full. */
    method AddTracee(pid: Pid) returns (slot: int)
      requires Valid()
      modifies tracees, `phases
      ensures Valid()
      ensures phases == Register(old(phases), pid)
      ensures slot == -1 <==> pid !in phases
      ensures slot != -1 ==> 0 <= slot < tracees.Length && tracees[slot].active && tracees[slot].pid == pid
    {
      slot := FindTracee(pid);
      if slot != -1 {
        return;
      }
      FullTable(cfg, tracees[..], phases);
      for i := 0 to tracees.Length
        invariant forall j :: 0 <= j < i ==> tracees[j].active
        invariant Valid() && phases == old(phases) && tracees[..] == old(tracees[..])
      {
        if !tracees[i].active {
          assert !tracees[..][i].active;
          SlotAdded(cfg, tracees[..], phases, i, pid);
          ghost var expected := tracees[..][i := ZEROED.(pid := pid, active := true)];
          tracees[i] := ZEROED;
          tracees[i] := tracees[i].(pid := pid);
          tracees[i] := tracees[i].(active := true);
          assert tracees[..] == expected;
          phases := phases[pid := Idle];
          return i;
        }
      }
      assert forall j :: 0 <= j < tracees.Length ==> tracees[..][j].active;
      return -1;
    }

    /** remove_tracee. */
    method RemoveTracee(pid: Pid)
      requires Valid()
      modifies tracees, `phases
      ensures Valid()
      ensures phases == old(phases) - {pid}
    {
      var slot := FindTracee(pid);
      if slot != -1 {
        SlotRemoved(cfg, tracees[..], phases, slot);
        ghost var expected := tracees[..][slot := tracees[slot].(active := false)];
        tracees[slot] := tracees[slot].(active := false);
        assert tracees[..] == expected;
        phases := phases - {pid};
      } else {
        assert phases - {pid} == phases;
      }
    }

    /** Stores a new value for an active slot. */
    ghost method Restand(slot: nat, before: seq<Tracee>)
      requires Sized() && slot < tracees.Length && |before| == tracees.Length
      requires Slots(cfg, before, phases) && before[slot].active
      requires tracees[slot].active && tracees[slot].pid == before[slot].pid && Coherent(cfg, tracees[slot])
      requires tracees[..] == before[slot := tracees[slot]]
      modifies `phases
      ensures Valid()
      ensures phases == old(phases)[tracees[slot].pid := View(cfg, tracees[slot])]
    {
      SlotUpdated(cfg, before, phases, slot, tracees[slot]);
      phases := phases[tracees[slot].pid := View(cfg, tracees[slot])];
    }

    /** The three ways an entry goes: filtered, deferred, printed at once. */
    method RouteEntry(slot: nat, r: Regs)
      requires Sized() && slot < tracees.Length
      modifies tracees, `log
      ensures var t := old(tracees[slot]);
              && tracees[..] == old(tracees[..])[slot := Routed(cfg, t, r)]
              && log == old(log) + if !t.suppressed && !cfg.Defers(r.name) && !cfg.summaryMode
                                   then [Head(t.pid, r.name, r.args)] else []
    {
      var route := cfg.route(r.name);
      if tracees[slot].suppressed {
        tracees[slot] := tracees[slot].(pending := NO_PENDING);
      } else if EntryDefers(route) {
        tracees[slot] := tracees[slot].(pendingName := r.name, pendingArgs := r.args, pending := route);
      } else {
        tracees[slot] := tracees[slot].(pending := NO_PENDING);
        if !cfg.summaryMode {
          log := log + [Head(tracees[slot].pid, r.name, r.args)];
        }
      }
    }

    /** The entry branch of a syscall stop. */
    method EntryStop(slot: nat, r: Regs, now: int)
      requires Valid() && slot < tracees.Length && tracees[slot].active && !tracees[slot].inSyscall
      modifies tracees, `phases, `log, `callCount
      ensures Valid()
      ensures tracees[slot].pid == old(tracees[slot].pid)
      ensures phases == old(phases)[tracees[slot].pid := EntryPhase(cfg, r, now)]
      ensures log == old(log) + EntryItems(cfg, tracees[slot].pid, r)
      ensures callCount == old(callCount) + 1
    {
      ghost var before := tracees[..];
      tracees[slot] := tracees[slot].(currentName := r.name);
      if cfg.showTiming || cfg.summaryMode {
        tracees[slot] := tracees[slot].(entryTime := now);
      }
      tracees[slot] := tracees[slot].(suppressed := !cfg.Allows(r.name));
      RouteEntry(slot, r);
      assert tracees[slot] == tracees[..][slot];
      callCount := callCount + 1;
      tracees[slot] := tracees[slot].(inSyscall := true);

      assert tracees[slot] == Entered(cfg, before[slot], r, now);
      EnteredView(cfg, before[slot], r, now);
      Restand(slot, before);
    }

    /** summary_lookup_or_add and the three updates of the row it returns. */
    method CountCall(name: string, ret: int, elapsed: int)
      requires Sized()
      modifies summary, `summaryCount
      ensures Sized()
      ensures Rows() == AddCall(old(Rows()), Done(name, ret, elapsed))
    {
      ghost var rows := Rows();
      var i := 0;
      while i < summaryCount && summary[i].name != name
        invariant 0 <= i <= summaryCount
        invariant forall j :: 0 <= j < i ==> rows[j].name != name
      {
        i := i + 1;
      }
      FindRowUnique(rows, name, i);
      if i == summaryCount {
        if summaryCount == MAX_SUMMARY_ENTRIES {
          return;
        }
        summary[i] := Row(name, 0, 0, 0);
        summaryCount := summaryCount + 1;
        assert Rows() == rows + [Row(name, 0, 0, 0)];
      }
      ghost var counted := Rows();
      summary[i] := summary[i].(calls := summary[i].calls + 1);
      if ret < 0 {
        summary[i] := summary[i].(errors := summary[i].errors + 1);
      }
      summary[i] := summary[i].(time := summary[i].time + elapsed);
      assert Rows() == counted[i := Bump(counted[i], Done(name, ret, elapsed))];
    }

    /** The end of the exit branch for a call the filter let through: a summary row or a tail. */
    method FinishCall(pid: Pid, name: string, ret: int, elapsed: int)
      requires Sized()
      modifies summary, `summaryCount, `log
      ensures Sized()
      ensures log == old(log) + if cfg.summaryMode then []
                                else [Tail(pid, ret, if cfg.showTiming then Some(elapsed) else None)]
      ensures Rows() == if cfg.summaryMode then AddCall(old(Rows()), Done(name, ret, elapsed)) else old(Rows())
    {
      if cfg.summaryMode {
        CountCall(name, ret, elapsed);
      } else {
        log := log + [Tail(pid, ret, if cfg.showTiming then Some(elapsed) else None)];
      }
    }

    /** The deferred print: the whole head, then the pending fields are cleared. */
    method PrintOwed(slot: nat)
      requires Sized() && slot < tracees.Length
      modifies tracees, `log
      ensures var t := old(tracees[slot]);
              && tracees[..] == old(tracees[..])[slot := if ExitPrints(t.pending) then t.(pending := NO_PENDING) else t]
              && log == old(log) + if ExitPrints(t.pending) && !cfg.summaryMode
                                   then [Head(t.pid, t.pendingName, t.pendingArgs)] else []
    {
      if ExitPrints(tracees[slot].pending) {
        if !cfg.summaryMode {
          log := log + [Head(tracees[slot].pid, tracees[slot].pendingName, tracees[slot].pendingArgs)];
        }
        tracees[slot] := tracees[slot].(pending := NO_PENDING);
      }
    }

    /** The exit branch of a syscall stop. */
    method ExitStop(slot: nat, ret: int, now: int)
      requires Valid() && slot < tracees.Length && tracees[slot].active && tracees[slot].inSyscall
      modifies tracees, summary, `summaryCount, `phases, `log
      ensures Valid()
      ensures tracees[slot].pid == old(tracees[slot].pid)
      ensures phases == old(phases)[tracees[slot].pid := Idle]
      ensures log == old(log) + ExitItems(cfg, tracees[slot].pid, old(View(cfg, tracees[slot])), ret, now)
      ensures Rows() == ExitRows(cfg, old(Rows()), old(View(cfg, tracees[slot])), ret, now)
    {
      ghost var before := tracees[..];
      ghost var ph := View(cfg, tracees[slot]);
      var pid := tracees[slot].pid;
      assert Coherent(cfg, before[slot]);
      if !tracees[slot].suppressed {
        PrintOwed(slot);
        assert tracees[slot] == tracees[..][slot];
        FinishCall(pid, tracees[slot].currentName, ret, now - tracees[slot].entryTime);
      }
      tracees[slot] := tracees[slot].(inSyscall := false);
      assert tracees[slot] == Left(before[slot]);
      LeftView(cfg, before[slot]);
      Restand(slot, before);
    }

    /** A tracee exited or was killed. */
    method OnGone(pid: Pid)
      requires Valid() && !halted
      modifies this, tracees
      ensures Valid()
      ensures Abstract() == Gone(old(Abstract()), pid)
    {
      RemoveTracee(pid);
      activeCount := activeCount - 1;
      if activeCount <= 0 {
        halted := true;
      }
    }

    /** A fork, vfork or clone event of pid. */
    method OnFork(pid: Pid, child: Option<Pid>)
      requires Valid()
      modifies this, tracees
      ensures Valid()
      ensures Abstract() == ForkStop(old(Abstract()), pid, child)
    {
      if child.Some? {
        var slot := AddTracee(child.value);
        if slot != -1 {
          activeCount := activeCount + 1;
        }
      }
      resumes := resumes + [Resume(pid, 0)];
    }

    /** Any other stop that is not a syscall stop. */
    method OnSignal(pid: Pid, sig: int)
      requires Valid()
      modifies this, tracees
      ensures Valid()
      ensures Abstract() == SignalStop(old(Abstract()), pid, sig)
    {
      var deliver := if sig != SIGTRAP then sig else 0;
      if deliver != 0 {
        log := log + [Sig(pid, deliver)];
      }
      var slot := AddTracee(pid);
      resumes := resumes + [Resume(pid, deliver)];
    }

    /** The entry or the exit half of a syscall stop, as the toggle says. */
    method Toggle(slot: nat, r: Regs, now: int)
      requires Valid() && slot < tracees.Length && tracees[slot].active
      modifies tracees, summary, `summaryCount, `phases, `log, `callCount
      ensures Valid()
      ensures var pid, ph := old(tracees[slot].pid), old(View(cfg, tracees[slot]));
              if ph.Idle? then
                && phases == old(phases)[pid := EntryPhase(cfg, r, now)] && callCount == old(callCount) + 1
                && log == old(log) + EntryItems(cfg, pid, r) && Rows() == old(Rows())
              else
                && phases == old(phases)[pid := Idle] && callCount == old(callCount)
                && log == old(log) + ExitItems(cfg, pid, ph, r.ret, now)
                && Rows() == ExitRows(cfg, old(Rows()), ph, r.ret, now)
    {
      if !tracees[slot].inSyscall {
        EntryStop(slot, r, now);
      } else {
        ExitStop(slot, r.ret, now);
      }
    }

    /** A syscall stop. */
    method OnCall(pid: Pid, regs: Option<Regs>, now: int)
      requires Valid()
      modifies this, tracees, summary
      ensures Valid()
      ensures Abstract() == CallStop(cfg, old(Abstract()), pid, regs, now)
    {
      var slot := AddTracee(pid);
      if slot == -1 || regs.None? {
        resumes := resumes + [Resume(pid, 0)];
        return;
      }
      assert tracees[..][slot] == tracees[slot];
      assert phases[pid] == View(cfg, tracees[slot]);
      Toggle(slot, regs.value, now);
      resumes := resumes + [Resume(pid, 0)];
    }

    /** One turn of the loop of run_tracer. */
    method Step(e: Wait)
      requires Valid() && !halted
      modifies this, tracees, summary
      ensures Valid()
      ensures Abstract() == Next(cfg, old(Abstract()), e)
    {
      if e.NoTracees? {
        halted := true;
      } else if e.Report? {
        if e.status.Exited? || e.status.Signaled? {
          OnGone(e.pid);
        } else if e.status.Stopped? {
          var sig, event := e.status.sig, e.status.event;
          if cfg.followForks && sig == SIGTRAP &&
             (event == EVENT_FORK || event == EVENT_VFORK || event == EVENT_CLONE) {
            OnFork(e.pid, e.child);
          } else if sig != SYSCALL_STOP {
            OnSignal(e.pid, sig);
          } else {
            OnCall(e.pid, e.regs, e.now);
          }
        }
      }
    }

    /** The loop: takes events until it is left or, here, until they run out. */
    method Trace(events: seq<Wait>)
      requires Valid()
      modifies this, tracees, summary
      ensures Valid()
      ensures Abstract() == Run(cfg, old(Abstract()), events)
    {
      var i := 0;
      ghost var w := Abstract();
      assert events[..0] == [];
      while i < |events| && !halted
        invariant 0 <= i <= |events|
        invariant Valid()
        invariant Abstract() == Run(cfg, w, events[..i])
      {
        RunLast(cfg, w, events[..i], events[i]);
        assert events[..i + 1] == events[..i] + [events[i]];
        Step(events[i]);
        i := i + 1;
      }
      assert events == events[..i] + events[i..];
      RunSplit(cfg, w, events[..i], events[i..]);
      if halted {
        RunHalted(cfg, Abstract(), events[i..]);
      }
    }
  }

  /** run_tracer over a whole sequence of events: what it prints, and with -c the table shown at
      the end, which is the grouping by name of the calls that -T would have printed. */
  method RunTracer(cfg: Config, root: Pid, events: seq<Wait>)
    returns (log: seq<Item>, rows: seq<Row>, grand: Totals)
    ensures log == Run(cfg, Start(root), events).log
    ensures !cfg.summaryMode ==> rows == []
    ensures cfg.summaryMode ==>
              && SlowestFirst(rows)
              && multiset(rows) == multiset(GroupBy(CallsIn(Run(PerCall(cfg), Start(root), events).log)))
              && grand == Totals(CallsOf(rows), ErrorsOf(rows), TimeOf(rows))
    ensures cfg.summaryMode ==>
              var ds := CallsIn(Run(PerCall(cfg), Start(root), events).log);
              |Distinct(ds)| <= MAX_SUMMARY_ENTRIES ==> grand == Totals(|ds|, Failed(ds), TimeTaken(ds))
  {
    var t := new Tracer(cfg, root);
    t.Trace(events);
    log := t.log;
    rows, grand := [], Totals(0, 0, 0);
    if cfg.summaryMode {
      SummaryAgreesWithTrace(cfg, root, events);
      assert Summary(cfg) == cfg;
      assert t.summary[..t.summaryCount] == Run(cfg, Start(root), events).rows;
      rows, grand := PrintSummary(t.summary, t.summaryCount);
      ghost var ds := CallsIn(Run(PerCall(cfg), Start(root), events).log);
      if |Distinct(ds)| <= MAX_SUMMARY_ENTRIES {
        TallyIsGroupBy(ds);
        GrandTotalsAreComplete(ds);
      }
    }
  }
}
