/**
 The tracer loop of run_tracer (src/mini_strace.c) as a state machine over the results of
 waitpid, on abstract values: a bounded map from pid to the phase of the call in flight.
 The class in Tracer.dfy works on the 64-slot array and is proved against `Next` and `Run`.
 */
module TraceModel {
  import opened Options
  import opened SummaryRows

  type Pid = int
  type Args = seq<nat>

  const MAX_TRACEES := 64
  const SIGTRAP := 5
  // SIGTRAP | 0x80, reported for syscall stops under PTRACE_O_TRACESYSGOOD
  const SYSCALL_STOP := 133
  const EVENT_FORK := 1
  const EVENT_VFORK := 2
  const EVENT_CLONE := 3

  // ----- What the kernel reports -----

  datatype Regs = Regs(name: string, args: Args, ret: int)

  datatype Status =
    | Exited(code: int)
    | Signaled(termsig: int)
    | Stopped(sig: int, event: int)
    | Continued

  /** One return of waitpid, with everything the loop may then ask about that pid:
      the child of a fork event, the registers, and the clock. None is a failed request. */
  datatype Wait =
    | Report(pid: Pid, status: Status, child: Option<Pid>, regs: Option<Regs>, now: int)
    | NoTracees
    | Interrupted

  // ----- Deferral -----

  datatype BufferArg = BufferArg(buf: nat, len: nat)

  /** The 14 pending_* fields of tracee_state. A pointer is an Option; an index is -1 for none. */
  datatype Pending = Pending(
    read: Option<BufferArg>, sockaddr: Option<BufferArg>,
    waitStatus: int, msghdr: int, stat: int, getdents: int, sigaction: int,
    timespecOut: int, rusage: int, epollEvents: int,
    pollfds: Option<BufferArg>, statx: int, iovec: Option<BufferArg>, rlimit: int)

  const NO_PENDING :=
    Pending(None, None, -1, -1, -1, -1, -1, -1, -1, -1, None, -1, None, -1)

  /** The condition that sends a call down the deferred path, on what the tables returned. */
  predicate EntryDefers(p: Pending) {
    || p.read.Some? || p.sockaddr.Some? || p.waitStatus >= 0
    || p.msghdr >= 0 || p.stat >= 0 || p.getdents >= 0
    || p.sigaction >= 0 || p.timespecOut >= 0 || p.rusage >= 0
    || p.epollEvents >= 0 || p.pollfds.Some? || p.statx >= 0
    || p.iovec.Some? || p.rlimit >= 0
  }

  /** The condition that prints the head at the exit stop, on the stored fields. */
  predicate ExitPrints(p: Pending) {
    || p.read.Some? || p.sockaddr.Some?
    || p.waitStatus >= 0 || p.msghdr >= 0
    || p.stat >= 0 || p.getdents >= 0
    || p.sigaction >= 0 || p.timespecOut >= 0
    || p.rusage >= 0 || p.epollEvents >= 0
    || p.pollfds.Some? || p.statx >= 0
    || p.iovec.Some? || p.rlimit >= 0
  }

  // ----- Options and output -----

  /** `filter` says which names -e trace=SET lets through, and may be any predicate; `route`
      gives the 14 table lookups of a name, and may be any tables at all. */
  datatype Config = Config(
    followForks: bool, showTiming: bool, summaryMode: bool,
    filter: string -> bool, route: string -> Pending)
  {
    predicate Allows(name: string) { filter(name) }
    predicate Defers(name: string) { EntryDefers(route(name)) }
    predicate Timed() { showTiming || summaryMode }
  }

  /** What goes to trace_out. The code prints no pid on a tail; it is carried here to say
      whose tail it is. */
  datatype Item =
    | Head(pid: Pid, name: string, args: Args)
    | Tail(pid: Pid, ret: int, took: Option<int>)
    | Sig(pid: Pid, sig: int)

  /** ptrace(PTRACE_SYSCALL, pid, NULL, sig). */
  datatype Resume = Resume(pid: Pid, sig: int)

  // ----- The specification -----

  /** Where a tracee is: outside a call; in a filtered call; in a call whose head is printed;
      in a call whose head is owed at the exit stop. */
  datatype Phase =
    | Idle
    | Hidden(name: string)
    | Shown(name: string, since: int)
    | Owed(name: string, args: Args, since: int)

  function EntryPhase(cfg: Config, regs: Regs, now: int): Phase {
    var since := if cfg.Timed() then now else 0;
    if !cfg.Allows(regs.name) then Hidden(regs.name)
    else if cfg.Defers(regs.name) then Owed(regs.name, regs.args, since)
    else Shown(regs.name, since)
  }

  function EntryItems(cfg: Config, pid: Pid, regs: Regs): seq<Item> {
    if !cfg.summaryMode && cfg.Allows(regs.name) && !cfg.Defers(regs.name)
    then [Head(pid, regs.name, regs.args)] else []
  }

  function Took(cfg: Config, since: int, now: int): Option<int> {
    if cfg.showTiming then Some(now - since) else None
  }

  function ExitItems(cfg: Config, pid: Pid, ph: Phase, ret: int, now: int): seq<Item>
    requires !ph.Idle?
  {
    if cfg.summaryMode || ph.Hidden? then []
    else (if ph.Owed? then [Head(pid, ph.name, ph.args)] else []) + [Tail(pid, ret, Took(cfg, ph.since, now))]
  }

  function ExitRows(cfg: Config, rows: seq<Row>, ph: Phase, ret: int, now: int): seq<Row>
    requires !ph.Idle?
  {
    if cfg.summaryMode && !ph.Hidden? then AddCall(rows, Done(ph.name, ret, now - ph.since)) else rows
  }

  datatype World = World(
    phases: map<Pid, Phase>,
    active: int,
    calls: int,
    rows: seq<Row>,
    log: seq<Item>,
    resumes: seq<Resume>,
    halted: bool)

  /** The first wait, add_tracee of the child, and its first resume. */
  function Start(root: Pid): World {
    World(map[root := Idle], 1, 0, [], [], [Resume(root, 0)], false)
  }

  /** The phase of a pid; one without an entry is as good as idle. */
  function PhaseOf(m: map<Pid, Phase>, p: Pid): Phase {
    if p in m then m[p] else Idle
  }

  predicate HasRoom(m: map<Pid, Phase>, pid: Pid) { pid in m || |m| < MAX_TRACEES }

  /** add_tracee on the map: known pids stay, new ones start idle, a full table drops them. */
  function Register(m: map<Pid, Phase>, pid: Pid): map<Pid, Phase> {
    if pid !in m && |m| < MAX_TRACEES then m[pid := Idle] else m
  }

  predicate IsGone(s: Status) { s.Exited? || s.Signaled? }

  predicate IsForkStop(cfg: Config, s: Status) {
    && s.Stopped? && cfg.followForks && s.sig == SIGTRAP
    && (s.event == EVENT_FORK || s.event == EVENT_VFORK || s.event == EVENT_CLONE)
  }

  predicate IsSignalStop(cfg: Config, s: Status) {
    s.Stopped? && !IsForkStop(cfg, s) && s.sig != SYSCALL_STOP
  }

  predicate IsCallStop(cfg: Config, s: Status) {
    s.Stopped? && !IsForkStop(cfg, s) && s.sig == SYSCALL_STOP
  }

  /** A fork event of a parent that names its child. */
  predicate Announces(cfg: Config, e: Wait, child: Pid) {
    e.Report? && IsForkStop(cfg, e.status) && e.child == Some(child)
  }

  function Gone(w: World, pid: Pid): World {
    w.(phases := w.phases - {pid}, active := w.active - 1, halted := w.active - 1 <= 0)
  }

  function ForkStop(w: World, pid: Pid, child: Option<Pid>): World {
    var v := w.(resumes := w.resumes + [Resume(pid, 0)]);
    if child.Some? && HasRoom(w.phases, child.value)
    then v.(phases := Register(w.phases, child.value), active := w.active + 1) else v
  }

  function Delivered(sig: int): int { if sig != SIGTRAP then sig else 0 }

  function SigItems(pid: Pid, sig: int): seq<Item> {
    if Delivered(sig) != 0 then [Sig(pid, sig)] else []
  }

  function SignalStop(w: World, pid: Pid, sig: int): World {
    w.(phases := Register(w.phases, pid),
       log := w.log + SigItems(pid, sig),
       resumes := w.resumes + [Resume(pid, Delivered(sig))])
  }

  /** The phases after a syscall stop: idle pids enter a call, the others leave theirs. */
  function CallPhases(cfg: Config, m: map<Pid, Phase>, pid: Pid, regs: Option<Regs>, now: int): map<Pid, Phase> {
    var n := Register(m, pid);
    if pid !in n || regs.None? then n
    else n[pid := if n[pid].Idle? then EntryPhase(cfg, regs.value, now) else Idle]
  }

  function CallStop(cfg: Config, w: World, pid: Pid, regs: Option<Regs>, now: int): World {
    var v := w.(phases := CallPhases(cfg, w.phases, pid, regs, now),
                resumes := w.resumes + [Resume(pid, 0)]);
    if !HasRoom(w.phases, pid) || regs.None? then v
    else
      var r := regs.value;
      if pid !in w.phases || w.phases[pid].Idle? then
        v.(calls := w.calls + 1, log := w.log + EntryItems(cfg, pid, r))
      else
        v.(log := w.log + ExitItems(cfg, pid, w.phases[pid], r.ret, now),
           rows := ExitRows(cfg, w.rows, w.phases[pid], r.ret, now))
  }

  /** One turn of the loop. A halted loop has been left: nothing more happens. */
  function Next(cfg: Config, w: World, e: Wait): World {
    if w.halted then w
    else match e
      case NoTracees => w.(halted := true)
      case Interrupted => w
      case Report(pid, s, child, regs, now) =>
        if IsGone(s) then Gone(w, pid)
        else if IsForkStop(cfg, s) then ForkStop(w, pid, child)
        else if IsSignalStop(cfg, s) then SignalStop(w, pid, s.sig)
        else if IsCallStop(cfg, s) then CallStop(cfg, w, pid, regs, now)
        else w
  }

  function Run(cfg: Config, w: World, es: seq<Wait>): World
    decreases |es|
  {
    if es == [] then w else Run(cfg, Next(cfg, w, es[0]), es[1..])
  }

  lemma {:induction false} RunSplit(cfg: Config, w: World, a: seq<Wait>, b: seq<Wait>)
    ensures Run(cfg, w, a + b) == Run(cfg, Run(cfg, w, a), b)
    decreases |a|
  {
    if a == [] {
      assert a + b == b;
    } else {
      assert (a + b)[1..] == a[1..] + b;
      RunSplit(cfg, Next(cfg, w, a[0]), a[1..], b);
    }
  }

  lemma {:induction false} RunLast(cfg: Config, w: World, es: seq<Wait>, e: Wait)
    ensures Run(cfg, w, es + [e]) == Next(cfg, Run(cfg, w, es), e)
  {
    RunSplit(cfg, w, es, [e]);
    assert [e][1..] == [];
    assert Run(cfg, Run(cfg, w, es), [e]) == Run(cfg, Next(cfg, Run(cfg, w, es), e), []);
  }

  /** Once left, the loop does nothing. */
  lemma {:induction false} RunHalted(cfg: Config, w: World, es: seq<Wait>)
    requires w.halted
    ensures Run(cfg, w, es) == w
  {
    if es != [] {
      RunHalted(cfg, w, es[1..]);
    }
  }

  /** The loop takes every one of the events. */
  ghost predicate TakesAll(cfg: Config, w: World, es: seq<Wait>)
    decreases |es|
  {
    es == [] || (!w.halted && TakesAll(cfg, Next(cfg, w, es[0]), es[1..]))
  }
}
