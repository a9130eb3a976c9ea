/**
 The processes that share a Fiber environment as a transition system: starters
 (foreground, daemon child, `node --fiber`), daemon launchers, stoppers and
 cleaners over the lock file, the runtime record, the daemon's PID file, the
 FNN children and their stores, with crashes and signals.
 */
module FiberProtocol {
  import opened EnvLock
  import opened Options

  type NodeId = nat
  type FnnId = nat

  datatype Pc =
    | Idle
    // a starter holding the lock
    | StartLocked | StartChecked | Spawning | Waiting | Rollback
    // a manager, lock released
    | Supervising | Stopping
    // a launcher of `fiber start --daemon`, which never takes the lock
    | Reserved | Launching(child: Pid)
    // `fiber stop`, holding the lock
    | StopLocked | StopWaiting(target: Pid, viaFile: bool)
    // the clean commands, holding the lock; `final` once no prompt is left
    | CleanLocked(final: bool)
    | CleanProbing(final: bool, cleared: set<NodeId>)
    | CleanPrompt
    | CleanDeleting(wholeTree: bool)
    // nothing left to do; the process may linger or be gone
    | Done

  datatype Kind = Interrupt | Terminate

  const BOTH: set<Kind> := {Interrupt, Terminate}

  /**
   `cleanup` is set while a startup signal handler runs beside the main flow,
   `handlers` are the kinds of signal that still have a handler (each fires
   once), `daemon` marks the child of a launcher.
   */
  datatype Proc = Proc(alive: bool, pc: Pc, cleanup: bool, handlers: set<Kind>, daemon: bool)

  datatype Fnn = Fnn(owner: Pid, node: NodeId, alive: bool)

  datatype Runtime = NoRecord | Managed(pid: Pid, running: bool)

  /** `Expired` is a starting record older than the startup window. */
  datatype Status = Starting | Expired | Running

  /** The fiber daemon's PID file. */
  datatype PidFile = NoPidFile | Daemon(pid: Pid, launcher: Pid, status: Status)

  datatype State = State(
    lock: LockContent,
    runtime: Runtime,
    daemon: PidFile,
    procs: map<Pid, Proc>,
    fnns: map<FnnId, Fnn>,
    stores: set<NodeId>)

  datatype Event =
    | Launch(p: Pid, daemon: bool)
    | Crash(p: Pid)
    | Signal(p: Pid, kind: Kind)
    | FnnExit(f: FnnId)
    | Reserve(p: Pid, probe: Probe)
    | Adopt(p: Pid, child: Pid)
    | LaunchReady(p: Pid)
    | LaunchGaveUp(p: Pid, probe: Probe)
    | WindowOver
    | Acquire(p: Pid, probe: Probe, next: Pc)
    | TornAcquire(p: Pid, probe: Probe, left: LockContent)
    | Refuse(p: Pid)
    | ReturnLocked(p: Pid)
    | CheckManager(p: Pid, probe: Probe, reprobe: Probe)
    | Spawn(p: Pid, f: FnnId, n: NodeId)
    | SpawnFailed(p: Pid)
    | WriteStarting(p: Pid)
    | Ready(p: Pid)
    | StartupFailed(p: Pid)
    | RolledBack(p: Pid)
    | SignalCleanupDone(p: Pid)
    | BeginStop(p: Pid)
    | StopDone(p: Pid, exits: bool)
    | DropStaleRecord(p: Pid, probe: Probe)
    | DropStalePidFile(p: Pid, probe: Probe)
    | Target(p: Pid, q: Pid, viaFile: bool)
    | TargetGone(p: Pid, probe: Probe)
    | CheckStopped(p: Pid, probe: Probe, daemonProbe: Probe)
    | ProbeStore(p: Pid, n: NodeId)
    | Prompt(p: Pid)
    | Confirm(p: Pid)
    | StartDeleting(p: Pid, wholeTree: bool)
    | DeleteStore(p: Pid, n: NodeId)
    | DeleteRecord(p: Pid)

  // ---- vocabulary ----

  predicate AliveIn(s: State, p: Pid) {
    p in s.procs && s.procs[p].alive
  }

  predicate At(s: State, p: Pid, pc: Pc) {
    AliveIn(s, p) && s.procs[p].pc == pc
  }

  predicate InLock(pc: Pc) {
    match pc
    case Idle | Supervising | Stopping | Done | Reserved | Launching(_) => false
    case _ => true
  }

  function Actor(ev: Event): Option<Pid> {
    match ev
    case FnnExit(_) => None
    case WindowOver => None
    case _ => Some(ev.p)
  }

  /** The event is a step of process `p`, or happens to it. */
  predicate By(ev: Event, p: Pid) {
    Actor(ev) == Some(p)
  }

  predicate MayHaveChildren(pc: Pc) {
    pc.Spawning? || pc.Waiting? || pc.Rollback? || pc.Supervising? || pc.Stopping?
  }

  predicate LiveChild(s: State, f: FnnId, p: Pid) {
    f in s.fnns && s.fnns[f].alive && s.fnns[f].owner == p
  }

  predicate StoreOpen(s: State, n: NodeId) {
    exists f :: f in s.fnns && s.fnns[f].alive && s.fnns[f].node == n
  }

  /** A liveness answer about `p` that the code may have received: only "dead" is definite. */
  predicate Honest(s: State, p: Pid, probe: Probe) {
    probe == Dead ==> !AliveIn(s, p)
  }

  predicate HonestRecord(s: State, probe: Probe) {
    s.runtime.Managed? ==> Honest(s, s.runtime.pid, probe)
  }

  predicate HonestDaemon(s: State, probe: Probe) {
    s.daemon.Daemon? ==> Honest(s, s.daemon.pid, probe)
  }

  /** The record names a manager that is still alive. */
  predicate LiveRecord(s: State) {
    s.runtime.Managed? && AliveIn(s, s.runtime.pid)
  }

  predicate Mentions(s: State, p: Pid) {
    || p in s.procs
    || s.lock == Record(p)
    || (s.runtime.Managed? && s.runtime.pid == p)
    || (s.daemon.Daemon? && (s.daemon.pid == p || s.daemon.launcher == p))
    || exists f :: f in s.fnns && s.fnns[f].owner == p
  }

  // ---- transitions ----

  predicate Enabled(s: State, ev: Event) {
    match ev
    case Launch(p, _) => !Mentions(s, p)
    case Crash(p) => AliveIn(s, p)
    // spawning is one synchronous stretch: a signal is handled after it
    case Signal(p, _) => AliveIn(s, p) && !s.procs[p].pc.Spawning?
    case FnnExit(f) => f in s.fnns
    case Reserve(p, probe) =>
      At(s, p, Idle) && !s.procs[p].daemon && HonestDaemon(s, probe) && (s.daemon.Daemon? ==> probe == Dead)
    case Adopt(p, child) => At(s, p, Reserved) && child in s.procs && s.procs[child].daemon
    case LaunchReady(p) =>
      AliveIn(s, p) && s.procs[p].pc.Launching? && s.runtime == Managed(s.procs[p].pc.child, true)
    case LaunchGaveUp(p, probe) =>
      && AliveIn(s, p) && (s.procs[p].pc.Reserved? || s.procs[p].pc.Launching?)
      && (s.procs[p].pc.Launching? ==> Honest(s, s.procs[p].pc.child, probe))
    // a launcher is done before the window ends, and the child has reached the lock by then
    case WindowOver =>
      && s.daemon.Daemon? && s.daemon.status == Starting
      && (AliveIn(s, s.daemon.launcher) ==> s.procs[s.daemon.launcher].pc == Done)
      && (AliveIn(s, s.daemon.pid) ==> s.procs[s.daemon.pid].pc != Idle)
    case Acquire(p, probe, next) =>
      && At(s, p, Idle) && (next.StartLocked? || next.StopLocked? || next.CleanLocked?)
      && (s.procs[p].daemon ==> next.StartLocked?)
      && (s.lock.Record? ==> Honest(s, s.lock.pid, probe)) && MayTake(s.lock, probe)
    case TornAcquire(p, probe, left) =>
      && At(s, p, Idle) && (left == Unreadable || left == Absent)
      && (s.lock.Record? ==> Honest(s, s.lock.pid, probe)) && MayTake(s.lock, probe)
    case Refuse(p) =>
      && AliveIn(s, p)
      && var pc := s.procs[p].pc;
         pc.Idle? || (InLock(pc) && !MayHaveChildren(pc))
    case ReturnLocked(p) => At(s, p, StartLocked)
    case CheckManager(p, probe, reprobe) =>
      && At(s, p, StartLocked) && HonestRecord(s, probe) && HonestRecord(s, reprobe)
      && (s.runtime.Managed? ==> probe == Dead)
    case Spawn(p, f, n) => (At(s, p, StartChecked) || At(s, p, Spawning)) && f !in s.fnns
    case SpawnFailed(p) => At(s, p, StartChecked) || At(s, p, Spawning)
    case WriteStarting(p) => At(s, p, Spawning)
    case Ready(p) => At(s, p, Waiting)
    case StartupFailed(p) => At(s, p, Waiting)
    case RolledBack(p) => At(s, p, Rollback)
    case SignalCleanupDone(p) => AliveIn(s, p) && s.procs[p].cleanup
    case BeginStop(p) => At(s, p, Supervising)
    case StopDone(p, exits) => At(s, p, Stopping) && (s.procs[p].daemon ==> exits)
    case DropStaleRecord(p, probe) =>
      && (At(s, p, StopLocked) || At(s, p, CleanDeleting(false)))
      && s.runtime.Managed? && HonestRecord(s, probe) && probe == Dead
    case DropStalePidFile(p, probe) => At(s, p, StopLocked) && HonestDaemon(s, probe) && probe == Dead
    // the daemon of the PID file past its startup, or the recorded manager as the node's daemon
    case Target(p, q, viaFile) =>
      && At(s, p, StopLocked) && AliveIn(s, q) && q != p
      && if viaFile then s.daemon.Daemon? && s.daemon.pid == q && s.daemon.status != Starting
         else s.runtime.Managed? && s.runtime.pid == q
    case TargetGone(p, probe) =>
      AliveIn(s, p) && s.procs[p].pc.StopWaiting? && Honest(s, s.procs[p].pc.target, probe) && probe == Dead
    case CheckStopped(p, probe, daemonProbe) =>
      && AliveIn(s, p) && s.procs[p].pc.CleanLocked?
      && HonestRecord(s, probe) && (s.runtime.Managed? ==> probe == Dead)
      && HonestDaemon(s, daemonProbe) && (s.daemon.Daemon? ==> daemonProbe == Dead)
    case ProbeStore(p, n) => AliveIn(s, p) && s.procs[p].pc.CleanProbing? && !StoreOpen(s, n)
    case Prompt(p) =>
      && AliveIn(s, p) && s.procs[p].pc.CleanProbing?
      && !s.procs[p].pc.final && s.stores <= s.procs[p].pc.cleared
    case Confirm(p) => At(s, p, CleanPrompt)
    case StartDeleting(p, _) =>
      && AliveIn(s, p) && s.procs[p].pc.CleanProbing?
      && s.procs[p].pc.final && s.stores <= s.procs[p].pc.cleared
    case DeleteStore(p, n) => AliveIn(s, p) && s.procs[p].pc.CleanDeleting?
    case DeleteRecord(p) => At(s, p, CleanDeleting(true))
  }

  /**
   A signal. Without a handler it ends the process. The startup handlers begin
   one cleanup between them, the manager's begin to stop it, and a signal that
   finds this under way only uses its handler up. What has nothing left to do exits.
   */
  function Signalled(proc: Proc, kind: Kind): Proc {
    var used := proc.(handlers := proc.handlers - {kind});
    if kind !in proc.handlers then proc.(alive := false)
    else match proc.pc
      case Waiting | Rollback => used.(cleanup := true)
      case Supervising | Stopping => used.(pc := Stopping)
      case _ => proc.(alive := false)
  }

  /** The handlers are installed before the first FNN is spawned. */
  function Armed(proc: Proc): Proc {
    if proc.pc.StartChecked? then proc.(handlers := BOTH) else proc
  }

  /** The process that the event is about, afterwards. */
  function ProcAfter(s: State, ev: Event): Proc
    requires Enabled(s, ev) && Actor(ev).Some?
  {
    if ev.Launch? then Proc(true, Idle, false, {}, ev.daemon) else
    var proc := s.procs[ev.p];
    match ev
    case Crash(_) => proc.(alive := false)
    case Signal(_, kind) => Signalled(proc, kind)
    case Reserve(_, _) => proc.(pc := Reserved)
    case Adopt(_, child) => proc.(pc := Launching(child))
    case LaunchReady(_) => proc.(pc := Done)
    case LaunchGaveUp(_, _) => proc.(pc := Done)
    case Acquire(_, _, next) => proc.(pc := next)
    case TornAcquire(_, _, _) => proc.(alive := false)
    case Refuse(_) => proc.(pc := Done)
    case ReturnLocked(_) => proc.(pc := Done)
    case CheckManager(_, _, _) => proc.(pc := StartChecked)
    case Spawn(_, _, _) => Armed(proc).(pc := Spawning)
    case SpawnFailed(_) => Armed(proc).(pc := Rollback)
    case WriteStarting(_) => proc.(pc := Waiting)
    case Ready(_) => proc.(pc := Supervising, handlers := BOTH)
    case StartupFailed(_) => proc.(pc := Rollback)
    case RolledBack(_) => proc.(pc := Done, handlers := {})
    case SignalCleanupDone(_) => proc.(pc := Done, alive := false)
    case BeginStop(_) => proc.(pc := Stopping)
    case StopDone(_, exits) => proc.(pc := Done, alive := !exits)
    case Target(_, q, viaFile) => proc.(pc := StopWaiting(q, viaFile))
    case TargetGone(_, _) => proc.(pc := Done)
    case CheckStopped(_, _, _) => proc.(pc := CleanProbing(proc.pc.final, {}))
    case ProbeStore(_, n) => proc.(pc := CleanProbing(proc.pc.final, proc.pc.cleared + {n}))
    case Prompt(_) => proc.(pc := CleanPrompt)
    case Confirm(_) => proc.(pc := CleanLocked(true))
    case StartDeleting(_, wholeTree) => proc.(pc := CleanDeleting(wholeTree))
    case _ => proc
  }

  /** The lock file afterwards. */
  function LockAfter(s: State, ev: Event): LockContent
    requires Enabled(s, ev)
  {
    match ev
    case Acquire(p, _, _) => Record(p)
    case TornAcquire(_, _, left) => left
    case Refuse(p) => if s.procs[p].pc.Idle? then s.lock else Released(s.lock, p)
    case Ready(p) => Released(s.lock, p)
    case RolledBack(p) => Released(s.lock, p)
    case TargetGone(p, _) => Released(s.lock, p)
    case _ => s.lock
  }

  /** `stopFiberNodes` takes every child of the process down and drops the record if it is its own. */
  predicate StopsNodes(ev: Event) {
    ev.RolledBack? || ev.SignalCleanupDone? || ev.StopDone?
  }

  /** The runtime record afterwards. */
  function RuntimeAfter(s: State, ev: Event): Runtime
    requires Enabled(s, ev)
  {
    match ev
    case CheckManager(_, _, reprobe) => if reprobe == Dead then NoRecord else s.runtime
    case WriteStarting(p) => Managed(p, false)
    case Ready(p) => Managed(p, true)
    case DropStaleRecord(_, _) => NoRecord
    case TargetGone(_, _) => NoRecord
    case DeleteRecord(_) => NoRecord
    case _ => if StopsNodes(ev) && s.runtime.Managed? && s.runtime.pid == ev.p then NoRecord else s.runtime
  }

  /** The daemon's PID file afterwards. */
  function DaemonAfter(s: State, ev: Event): PidFile
    requires Enabled(s, ev)
  {
    match ev
    case Reserve(p, _) => Daemon(p, p, Starting)
    case Adopt(p, child) => Daemon(child, p, Starting)
    case LaunchReady(p) => Daemon(s.procs[p].pc.child, p, Running)
    case LaunchGaveUp(p, probe) => if s.procs[p].pc.Reserved? || probe == Dead then NoPidFile else s.daemon
    case WindowOver => s.daemon.(status := Expired)
    case DropStalePidFile(_, _) => NoPidFile
    case TargetGone(p, _) => if s.procs[p].pc.viaFile then NoPidFile else s.daemon
    case StopDone(p, _) => if s.procs[p].daemon then NoPidFile else s.daemon
    case _ => s.daemon
  }

  function FnnsAfter(s: State, ev: Event): map<FnnId, Fnn>
    requires Enabled(s, ev)
  {
    match ev
    case FnnExit(f) => s.fnns[f := s.fnns[f].(alive := false)]
    case Spawn(p, f, n) => s.fnns[f := Fnn(p, n, true)]
    case _ =>
      if StopsNodes(ev)
      then map f | f in s.fnns :: if s.fnns[f].owner == ev.p then s.fnns[f].(alive := false) else s.fnns[f]
      else s.fnns
  }

  function StoresAfter(s: State, ev: Event): set<NodeId>
    requires Enabled(s, ev)
  {
    match ev
    case Spawn(_, _, n) => s.stores + {n}
    case DeleteStore(_, n) => s.stores - {n}
    case _ => s.stores
  }

  function ProcsAfter(s: State, ev: Event): map<Pid, Proc>
    requires Enabled(s, ev)
  {
    if Actor(ev).Some? then s.procs[Actor(ev).value := ProcAfter(s, ev)] else s.procs
  }

  function Apply(s: State, ev: Event): State
    requires Enabled(s, ev)
  {
    State(LockAfter(s, ev), RuntimeAfter(s, ev), DaemonAfter(s, ev), ProcsAfter(s, ev), FnnsAfter(s, ev), StoresAfter(s, ev))
  }

  /** The target is the recorded manager, or no live one is recorded. */
  predicate TargetIsManager(s: State, q: Pid) {
    LiveRecord(s) ==> s.runtime.pid == q
  }

  /** A process that has finished without exiting. */
  predicate Lingers(s: State, q: Pid) {
    At(s, q, Done)
  }

  /** What `fiber stop` could check before it signals: no live manager is recorded beside a lingering target. */
  predicate Guarded(s: State, ev: Event) {
    ev.Target? && Lingers(s, ev.q) ==> !LiveRecord(s)
  }

  // ---- invariants ----

  ghost predicate LockInv(s: State) {
    forall p :: p in s.procs && s.procs[p].alive && InLock(s.procs[p].pc) ==> s.lock == Record(p)
  }

  ghost predicate ChildrenInv(s: State) {
    forall f :: f in s.fnns && s.fnns[f].alive ==>
      var p := s.fnns[f].owner;
      p in s.procs && (s.procs[p].alive || s.procs[p].pc == Done) ==> MayHaveChildren(s.procs[p].pc)
  }

  /** What a process knows about the runtime record at each point of its flow. */
  ghost predicate RecordKnown(s: State, p: Pid)
    requires p in s.procs
  {
    var mine := s.runtime.Managed? && s.runtime.pid == p;
    match s.procs[p].pc
    case Waiting | Supervising | Stopping => mine
    case StartChecked | Spawning => !LiveRecord(s)
    case Rollback => mine || !LiveRecord(s)
    case StopWaiting(q, _) => LiveRecord(s) ==> s.runtime.pid == q
    case CleanProbing(_, _) | CleanDeleting(_) => !LiveRecord(s)
    case _ => true
  }

  predicate OwnerPc(pc: Pc, running: bool) {
    pc.Supervising? || pc.Stopping? || (!running && (pc.Waiting? || pc.Rollback?))
  }

  /** Only a starter that has written the record, or a manager, is ever named by it while in the session. */
  ghost predicate OwnerInv(s: State) {
    s.runtime.Managed? && s.runtime.pid in s.procs ==>
      OwnerPc(s.procs[s.runtime.pid].pc, s.runtime.running)
  }

  ghost predicate RecordInv(s: State) {
    forall p :: p in s.procs && s.procs[p].alive ==> RecordKnown(s, p)
  }

  predicate CleanupOk(proc: Proc) {
    proc.alive && proc.cleanup ==>
      proc.pc.Waiting? || proc.pc.Rollback? || proc.pc.Supervising? || proc.pc.Stopping? || proc.pc.Done?
  }

  ghost predicate CleanupInv(s: State) {
    forall p :: p in s.procs ==> CleanupOk(s.procs[p])
  }

  /** A daemon child only ever starts and manages, and a launcher's child is one. */
  ghost predicate DaemonsInv(s: State) {
    forall p :: p in s.procs ==> DaemonOk(s, s.procs[p])
  }

  predicate DaemonOk(s: State, proc: Proc) {
    proc.alive ==>
      && (proc.daemon ==> StarterPc(proc.pc))
      && (proc.pc.Launching? ==> proc.pc.child in s.procs && s.procs[proc.pc.child].daemon)
  }

  predicate StarterPc(pc: Pc) {
    match pc
    case Idle | StartLocked | StartChecked | Spawning | Waiting | Rollback | Supervising | Stopping | Done => true
    case _ => false
  }

  /** What the PID file may say of the process it names. */
  predicate NamedOk(file: PidFile, proc: Proc)
    requires file.Daemon?
  {
    proc.alive ==>
      && (!proc.daemon ==> file.status == Starting && file.launcher == file.pid && proc.pc == Reserved)
      && (file.status == Expired ==> proc.pc != Idle)
      && (file.status == Running ==> proc.pc.Supervising? || proc.pc.Stopping?)
  }

  /** What the PID file says of a process that is alive. */
  ghost predicate PidFileInv(s: State) {
    s.daemon.Daemon? && s.daemon.pid in s.procs ==> NamedOk(s.daemon, s.procs[s.daemon.pid])
  }

  /** Every live FNN's store is still there. */
  ghost predicate StoresInv(s: State) {
    forall f :: f in s.fnns && s.fnns[f].alive ==> s.fnns[f].node in s.stores
  }

  ghost predicate NoLiveFnn(s: State) {
    forall f :: f in s.fnns ==> !s.fnns[f].alive
  }

  ghost predicate ClearKnown(s: State, p: Pid)
    requires p in s.procs
  {
    match s.procs[p].pc
    case CleanProbing(_, cleared) => forall n :: n in cleared ==> !StoreOpen(s, n)
    case CleanDeleting(_) => NoLiveFnn(s)
    case _ => true
  }

  ghost predicate CleanInv(s: State) {
    forall p :: p in s.procs && s.procs[p].alive ==> ClearKnown(s, p)
  }

  /** The part that the clean commands rely on; it needs no assumption about `fiber stop`. */
  ghost predicate StoreSafe(s: State) {
    LockInv(s) && StoresInv(s) && CleanInv(s)
  }

  ghost predicate Inv(s: State) {
    StoreSafe(s) && TeardownInv(s) && RecordInv(s) && DaemonsInv(s) && PidFileInv(s)
  }

  /** The part that tearing down relies on; it needs no assumption about `fiber stop` either. */
  ghost predicate TeardownInv(s: State) {
    ChildrenInv(s) && OwnerInv(s) && CleanupInv(s)
  }

  /** A session starts with no process; files and orphaned FNNs may be left from earlier ones. */
  ghost predicate Init(s: State) {
    s.procs == map[] && StoresInv(s)
  }

  /** A step moves one process at most. */
  lemma OthersKeep(s: State, ev: Event, q: Pid)
    requires Enabled(s, ev) && !By(ev, q)
    ensures q in Apply(s, ev).procs <==> q in s.procs
    ensures q in s.procs ==> Apply(s, ev).procs[q] == s.procs[q]
  {
    hide Enabled, ProcAfter, LockAfter, RuntimeAfter, DaemonAfter, FnnsAfter, StoresAfter;
  }

  lemma ActorMoves(s: State, ev: Event, p: Pid)
    requires Enabled(s, ev) && By(ev, p)
    ensures p in Apply(s, ev).procs && Apply(s, ev).procs[p] == ProcAfter(s, ev)
  {
    hide Enabled, ProcAfter, LockAfter, RuntimeAfter, DaemonAfter, FnnsAfter, StoresAfter;
  }

  lemma StepLockOther(s: State, ev: Event, q: Pid)
    requires LockInv(s) && Enabled(s, ev) && !By(ev, q)
    requires AliveIn(s, q) && InLock(s.procs[q].pc)
    ensures LockAfter(s, ev) == Record(q)
  {
  }

  lemma StepLock(s: State, ev: Event)
    requires LockInv(s) && Enabled(s, ev)
    ensures LockInv(Apply(s, ev))
  {
    var s' := Apply(s, ev);
    assert s'.lock == LockAfter(s, ev);
    hide Enabled, Apply, InLock, LockAfter, ProcAfter, By;
    forall q | q in s'.procs && s'.procs[q].alive && InLock(s'.procs[q].pc) ensures s'.lock == Record(q) {
      if By(ev, q) {
        ActorMoves(s, ev, q);
      } else {
        OthersKeep(s, ev, q);
        StepLockOther(s, ev, q);
      }
    }
  }

  /** A live FNN was alive before, or has just been spawned. */
  lemma FnnStep(s: State, ev: Event, f: FnnId)
    requires Enabled(s, ev) && f in FnnsAfter(s, ev) && FnnsAfter(s, ev)[f].alive
    ensures || (ev.Spawn? && ev.f == f && FnnsAfter(s, ev)[f].owner == ev.p && FnnsAfter(s, ev)[f].node == ev.n)
            || (f in s.fnns && FnnsAfter(s, ev)[f] == s.fnns[f] && !(StopsNodes(ev) && ev.p == s.fnns[f].owner))
  {
  }

  lemma ActorAlive(s: State, ev: Event, p: Pid)
    requires Enabled(s, ev) && By(ev, p) && !ev.Launch?
    ensures AliveIn(s, p)
  {
  }

  lemma FreshHasNoChild(s: State, ev: Event, f: FnnId)
    requires Enabled(s, ev) && ev.Launch? && f in s.fnns
    ensures s.fnns[f].owner != ev.p
  {
  }

  lemma StepChild(s: State, ev: Event, f: FnnId)
    requires ChildrenInv(s) && Enabled(s, ev) && f in FnnsAfter(s, ev) && FnnsAfter(s, ev)[f].alive
    ensures var p := FnnsAfter(s, ev)[f].owner; var s' := Apply(s, ev);
            p in s'.procs && (s'.procs[p].alive || s'.procs[p].pc == Done) ==> MayHaveChildren(s'.procs[p].pc)
  {
    var p := FnnsAfter(s, ev)[f].owner;
    FnnStep(s, ev, f);
    if ev.Spawn? && ev.f == f {
      ActorMoves(s, ev, p);
    } else if By(ev, p) {
      ActorMoves(s, ev, p);
      if ev.Launch? { FreshHasNoChild(s, ev, f); }
      ActorAlive(s, ev, p);
    } else {
      OthersKeep(s, ev, p);
    }
  }

  lemma StepChildren(s: State, ev: Event)
    requires ChildrenInv(s) && Enabled(s, ev)
    ensures ChildrenInv(Apply(s, ev))
  {
    var s' := Apply(s, ev);
    assert s'.fnns == FnnsAfter(s, ev);
    hide Enabled, Apply, FnnsAfter, MayHaveChildren;
    forall f | f in s'.fnns && s'.fnns[f].alive
      ensures var p := s'.fnns[f].owner;
              p in s'.procs && (s'.procs[p].alive || s'.procs[p].pc == Done) ==> MayHaveChildren(s'.procs[p].pc)
    {
      StepChild(s, ev, f);
    }
  }

  /** The record changes by being removed, or by its process writing it. */
  lemma RuntimeStep(s: State, ev: Event)
    requires Enabled(s, ev) && RuntimeAfter(s, ev).Managed?
    ensures || (RuntimeAfter(s, ev) == s.runtime && !(StopsNodes(ev) && ev.p == s.runtime.pid))
            || (By(ev, RuntimeAfter(s, ev).pid) && (ev.WriteStarting? || ev.Ready?)
                && RuntimeAfter(s, ev).running == ev.Ready?)
  {
  }

  lemma WriterMoves(s: State, ev: Event, p: Pid)
    requires Enabled(s, ev) && By(ev, p) && (ev.WriteStarting? || ev.Ready?)
    ensures OwnerPc(ProcAfter(s, ev).pc, ev.Ready?)
  {
  }

  lemma FreshIsNotRecorded(s: State, ev: Event)
    requires Enabled(s, ev) && ev.Launch? && s.runtime.Managed?
    ensures s.runtime.pid != ev.p
  {
  }

  lemma StepOwner(s: State, ev: Event)
    requires OwnerInv(s) && Enabled(s, ev)
    ensures OwnerInv(Apply(s, ev))
  {
    var s' := Apply(s, ev);
    assert s'.runtime == RuntimeAfter(s, ev);
    if s'.runtime.Managed? && s'.runtime.pid in s'.procs {
      var p := s'.runtime.pid;
      RuntimeStep(s, ev);
      if By(ev, p) { ActorMoves(s, ev, p); } else { OthersKeep(s, ev, p); }
      if ev.Launch? && s.runtime.Managed? { FreshIsNotRecorded(s, ev); }
      hide Enabled, Apply, ProcAfter, RuntimeAfter;
      if By(ev, p) {
        if ev.WriteStarting? || ev.Ready? {
          WriterMoves(s, ev, p);
        } else {
          ActorAlive(s, ev, p);
        }
      }
    }
  }

  /** A live record only ever appears when its own manager writes it. */
  lemma LiveRecordStep(s: State, ev: Event)
    requires RecordInv(s) && Enabled(s, ev)
    ensures LiveRecord(Apply(s, ev)) ==>
              || (ev.WriteStarting? && Apply(s, ev).runtime.pid == ev.p)
              || (LiveRecord(s) && Apply(s, ev).runtime.pid == s.runtime.pid)
  {
    var s' := Apply(s, ev);
    if LiveRecord(s') {
      var p := s'.runtime.pid;
      RuntimeStep(s, ev);
      if By(ev, p) {
        if ev.Launch? && s.runtime.Managed? { FreshIsNotRecorded(s, ev); }
        if !ev.Launch? { ActorAlive(s, ev, p); }
        if ev.Ready? { assert RecordKnown(s, p); }
      } else {
        OthersKeep(s, ev, p);
      }
    }
  }

  /** No step but the manager's own removes or replaces a live manager's record. */
  lemma LiveRecordKept(s: State, ev: Event)
    requires Inv(s) && Enabled(s, ev)
    requires LiveRecord(s) && !By(ev, s.runtime.pid)
    ensures Apply(s, ev).runtime == s.runtime
  {
    hide ProcAfter, LockAfter, DaemonAfter, FnnsAfter, StoresAfter;
  }

  /** While a process is in its locked part nobody else spawns or writes the record. */
  lemma AloneInLock(s: State, ev: Event, q: Pid)
    requires LockInv(s) && Enabled(s, ev) && AliveIn(s, q) && InLock(s.procs[q].pc)
    ensures ev.Spawn? || ev.WriteStarting? ==> ev.p == q
  {
    if ev.Spawn? || ev.WriteStarting? {
      assert s.lock == Record(ev.p);
    }
  }

  lemma StepRecordOther(s: State, ev: Event, q: Pid)
    requires Inv(s) && Enabled(s, ev) && !By(ev, q)
    requires AliveIn(s, q)
    ensures q in Apply(s, ev).procs && RecordKnown(Apply(s, ev), q)
  {
    hide Enabled, Apply;
    OthersKeep(s, ev, q);
    LiveRecordStep(s, ev);
    if LiveRecord(s) && s.runtime.pid == q {
      LiveRecordKept(s, ev);
    }
    if InLock(s.procs[q].pc) {
      AloneInLock(s, ev, q);
    }
  }

  /** The steps of a starter and of the manager it becomes. */
  predicate StarterEvent(ev: Event) {
    || ev.CheckManager? || ev.Spawn? || ev.SpawnFailed? || ev.WriteStarting? || ev.Ready? || ev.StartupFailed?
    || ev.RolledBack? || ev.Signal? || ev.SignalCleanupDone? || ev.BeginStop? || ev.StopDone?
  }

  /** Those of them that end a process or begin to. */
  predicate EndingEvent(ev: Event) {
    ev.RolledBack? || ev.Signal? || ev.SignalCleanupDone? || ev.BeginStop? || ev.StopDone?
  }

  lemma StepRecordStarter(s: State, ev: Event)
    requires RecordInv(s) && Enabled(s, ev) && StarterEvent(ev) && !EndingEvent(ev)
    requires AliveIn(Apply(s, ev), ev.p)
    ensures RecordKnown(Apply(s, ev), ev.p)
  {
    hide DaemonAfter, LockAfter, StoresAfter, FnnsAfter;
  }

  lemma StepRecordEnding(s: State, ev: Event)
    requires RecordInv(s) && Enabled(s, ev) && EndingEvent(ev)
    requires AliveIn(Apply(s, ev), ev.p)
    ensures RecordKnown(Apply(s, ev), ev.p)
  {
    hide DaemonAfter, LockAfter, StoresAfter, FnnsAfter;
  }

  /**
   The process that `fiber stop` may target is the recorded manager, or no live
   one is recorded; the one exception is a lingering process named by a PID
   record that never got past `starting`.
   */
  lemma TargetOrLingers(s: State, p: Pid, q: Pid, viaFile: bool)
    requires Inv(s) && Enabled(s, Target(p, q, viaFile))
    ensures TargetIsManager(s, q) <==> !(Lingers(s, q) && LiveRecord(s))
    ensures Lingers(s, q) ==> viaFile && s.daemon.pid == q && s.daemon.status == Expired && s.procs[q].daemon
  {
    assert s.lock == Record(p);
    assert InLock(s.procs[q].pc) ==> s.lock == Record(q);
    assert RecordKnown(s, q);
  }

  lemma StepRecordActor(s: State, ev: Event, p: Pid)
    requires RecordInv(s) && Enabled(s, ev) && By(ev, p) && !StarterEvent(ev)
    requires ev.Target? ==> TargetIsManager(s, ev.q)
    requires AliveIn(Apply(s, ev), p)
    ensures RecordKnown(Apply(s, ev), p)
  {
    hide DaemonAfter, LockAfter, StoresAfter, FnnsAfter;
  }

  lemma StepRecord(s: State, ev: Event)
    requires Inv(s) && Enabled(s, ev) && Guarded(s, ev)
    ensures RecordInv(Apply(s, ev))
  {
    hide Enabled, Apply;
    var s' := Apply(s, ev);
    forall q | q in s'.procs && s'.procs[q].alive ensures RecordKnown(s', q) {
      if By(ev, q) {
        if EndingEvent(ev) {
          StepRecordEnding(s, ev);
        } else if StarterEvent(ev) {
          StepRecordStarter(s, ev);
        } else {
          if ev.Target? { TargetOrLingers(s, ev.p, ev.q, ev.viaFile); }
          StepRecordActor(s, ev, q);
        }
      } else {
        OthersKeep(s, ev, q);
        StepRecordOther(s, ev, q);
      }
    }
  }

  lemma StepCleanup(s: State, ev: Event)
    requires CleanupInv(s) && Enabled(s, ev)
    ensures CleanupInv(Apply(s, ev))
  {
    var s' := Apply(s, ev);
    hide Apply, ProcAfter, By;
    forall p | p in s'.procs ensures CleanupOk(s'.procs[p]) {
      if By(ev, p) {
        ActorMoves(s, ev, p);
        if !ev.Launch? { ActorAlive(s, ev, p); }
      } else {
        OthersKeep(s, ev, p);
      }
    }
  }

  lemma StepTeardown(s: State, ev: Event)
    requires TeardownInv(s) && Enabled(s, ev)
    ensures TeardownInv(Apply(s, ev))
  {
    StepChildren(s, ev);
    StepOwner(s, ev);
    StepCleanup(s, ev);
  }

  lemma DaemonMoves(s: State, ev: Event, p: Pid)
    requires Enabled(s, ev) && By(ev, p) && (!ev.Launch? ==> DaemonOk(s, s.procs[p]))
    ensures DaemonOk(s, ProcAfter(s, ev))
  {
  }

  /** Being a daemon child is for life. */
  lemma DaemonStays(s: State, ev: Event, q: Pid)
    requires Enabled(s, ev) && q in s.procs
    ensures q in Apply(s, ev).procs && Apply(s, ev).procs[q].daemon == s.procs[q].daemon
  {
    hide LockAfter, RuntimeAfter, DaemonAfter, FnnsAfter, StoresAfter;
  }

  lemma StepDaemons(s: State, ev: Event)
    requires DaemonsInv(s) && Enabled(s, ev)
    ensures DaemonsInv(Apply(s, ev))
  {
    var s' := Apply(s, ev);
    hide Enabled, Apply, ProcAfter, By, StarterPc;
    forall p | p in s'.procs ensures DaemonOk(s', s'.procs[p]) {
      if By(ev, p) {
        ActorMoves(s, ev, p);
        if !ev.Launch? { ActorAlive(s, ev, p); }
        DaemonMoves(s, ev, p);
      } else {
        OthersKeep(s, ev, p);
      }
      var proc := s'.procs[p];
      if proc.alive && proc.pc.Launching? { DaemonStays(s, ev, proc.pc.child); }
    }
  }

  /** The file is written. */
  lemma FileWritten(s: State, ev: Event)
    requires Enabled(s, ev) && DaemonsInv(s) && OwnerInv(s) && PidFileInv(s)
    requires DaemonAfter(s, ev).Daemon? && DaemonAfter(s, ev) != s.daemon && AliveIn(Apply(s, ev), DaemonAfter(s, ev).pid)
    ensures NamedOk(DaemonAfter(s, ev), Apply(s, ev).procs[DaemonAfter(s, ev).pid])
  {
    hide LockAfter, RuntimeAfter, FnnsAfter, StoresAfter;
    assert ev.Reserve? || ev.Adopt? || ev.LaunchReady? || ev.WindowOver?;
  }

  lemma FreshIsNotNamed(s: State, ev: Event)
    requires Enabled(s, ev) && ev.Launch? && s.daemon.Daemon?
    ensures s.daemon.pid != ev.p
  {
  }

  lemma StepPidFile(s: State, ev: Event)
    requires PidFileInv(s) && DaemonsInv(s) && OwnerInv(s) && Enabled(s, ev)
    ensures PidFileInv(Apply(s, ev))
  {
    var s' := Apply(s, ev);
    assert s'.daemon == DaemonAfter(s, ev);
    if s'.daemon.Daemon? && AliveIn(s', s'.daemon.pid) {
      var p := s'.daemon.pid;
      if s'.daemon != s.daemon {
        FileWritten(s, ev);
      } else if By(ev, p) {
        if ev.Launch? { FreshIsNotNamed(s, ev); }
        ActorMoves(s, ev, p);
        ActorAlive(s, ev, p);
      } else {
        OthersKeep(s, ev, p);
      }
    }
  }

  lemma StepStores(s: State, ev: Event)
    requires StoreSafe(s) && Enabled(s, ev)
    ensures StoresInv(Apply(s, ev))
  {
    hide ProcAfter, LockAfter, RuntimeAfter, DaemonAfter;
    var s' := Apply(s, ev);
    forall f | f in s'.fnns && s'.fnns[f].alive ensures s'.fnns[f].node in s'.stores {
      FnnStep(s, ev, f);
    }
  }

  /** Only a spawn opens a store. */
  lemma ClosedStaysClosed(s: State, ev: Event, n: NodeId)
    requires Enabled(s, ev) && !StoreOpen(s, n)
    ensures StoreOpen(Apply(s, ev), n) ==> ev.Spawn? && ev.n == n
  {
    hide ProcAfter, LockAfter, RuntimeAfter, DaemonAfter, StoresAfter;
    if StoreOpen(Apply(s, ev), n) {
      var s' := Apply(s, ev);
      var f :| f in s'.fnns && s'.fnns[f].alive && s'.fnns[f].node == n;
      assert s'.fnns == FnnsAfter(s, ev);
      FnnStep(s, ev, f);
    }
  }

  lemma AllClosed(s: State, cleared: set<NodeId>)
    requires StoresInv(s) && s.stores <= cleared && forall n :: n in cleared ==> !StoreOpen(s, n)
    ensures NoLiveFnn(s)
  {
    if f :| f in s.fnns && s.fnns[f].alive {
      assert StoreOpen(s, s.fnns[f].node);
      assert false;
    }
  }

  lemma NoneSpawned(s: State, ev: Event)
    requires Enabled(s, ev) && !ev.Spawn?
    ensures forall n :: !StoreOpen(s, n) ==> !StoreOpen(Apply(s, ev), n)
    ensures NoLiveFnn(s) ==> NoLiveFnn(Apply(s, ev))
  {
    forall n | !StoreOpen(s, n) ensures !StoreOpen(Apply(s, ev), n) {
      ClosedStaysClosed(s, ev, n);
    }
    var s' := Apply(s, ev);
    assert s'.fnns == FnnsAfter(s, ev);
    hide Enabled, Apply, FnnsAfter;
    if NoLiveFnn(s) {
      forall f | f in s'.fnns ensures !s'.fnns[f].alive {
        if s'.fnns[f].alive { FnnStep(s, ev, f); }
      }
    }
  }

  ghost predicate Cleaning(pc: Pc) {
    pc.CleanProbing? || pc.CleanDeleting?
  }

  /** How a cleaner gets to its present knowledge by a step of its own. */
  lemma CleanerMoves(s: State, ev: Event, p: Pid)
    requires Enabled(s, ev) && By(ev, p) && ProcAfter(s, ev).alive && Cleaning(ProcAfter(s, ev).pc)
    ensures !ev.Spawn? && p in s.procs && s.procs[p].alive
    ensures || ProcAfter(s, ev).pc == s.procs[p].pc
            || (ev.CheckStopped? && ProcAfter(s, ev).pc.CleanProbing? && ProcAfter(s, ev).pc.cleared == {})
            || (ev.ProbeStore? && s.procs[p].pc.CleanProbing? && ProcAfter(s, ev).pc.CleanProbing?
                && !StoreOpen(s, ev.n) && ProcAfter(s, ev).pc.cleared == s.procs[p].pc.cleared + {ev.n})
            || (ev.StartDeleting? && s.procs[p].pc.CleanProbing? && s.stores <= s.procs[p].pc.cleared
                && ProcAfter(s, ev).pc.CleanDeleting?)
  {
  }

  /** What a cleaner has found closed stays closed: it holds the lock, and only a holder spawns. */
  lemma StepClear(s: State, ev: Event, p: Pid)
    requires StoreSafe(s) && Enabled(s, ev)
    requires AliveIn(Apply(s, ev), p)
    ensures ClearKnown(Apply(s, ev), p)
  {
    var s' := Apply(s, ev);
    hide Enabled, Apply, ProcAfter, By, StoreOpen, NoLiveFnn, LockInv, StoresInv, InLock;
    if Cleaning(s'.procs[p].pc) {
      if By(ev, p) {
        ActorMoves(s, ev, p);
        CleanerMoves(s, ev, p);
        if ev.StartDeleting? && s.procs[p].pc.CleanProbing? { AllClosed(s, s.procs[p].pc.cleared); }
      } else {
        OthersKeep(s, ev, p);
        CleanerIsAlone(s, ev, p);
      }
      NoneSpawned(s, ev);
      assert ClearKnown(s, p);
    }
  }

  lemma CleanerIsAlone(s: State, ev: Event, p: Pid)
    requires LockInv(s) && Enabled(s, ev) && !By(ev, p) && AliveIn(s, p) && Cleaning(s.procs[p].pc)
    ensures !ev.Spawn?
  {
    AloneInLock(s, ev, p);
  }

  lemma StepClean(s: State, ev: Event)
    requires StoreSafe(s) && Enabled(s, ev)
    ensures CleanInv(Apply(s, ev))
  {
    var s' := Apply(s, ev);
    hide Enabled, Apply, ClearKnown, StoreSafe;
    forall p | p in s'.procs && s'.procs[p].alive ensures ClearKnown(s', p) {
      StepClear(s, ev, p);
    }
  }

  lemma StepInv(s: State, ev: Event)
    requires Inv(s) && Enabled(s, ev) && Guarded(s, ev)
    ensures Inv(Apply(s, ev))
  {
    StepLock(s, ev);
    StepTeardown(s, ev);
    StepRecord(s, ev);
    StepStores(s, ev);
    StepClean(s, ev);
    StepDaemons(s, ev);
    StepPidFile(s, ev);
  }

  // ---- runs ----

  ghost predicate Runs(s: State, evs: seq<Event>)
    decreases evs
  {
    evs == [] || (Enabled(s, evs[0]) && Runs(Apply(s, evs[0]), evs[1..]))
  }

  ghost function After(s: State, evs: seq<Event>): State
    requires Runs(s, evs)
    decreases evs
  {
    if evs == [] then s else After(Apply(s, evs[0]), evs[1..])
  }

  ghost predicate RunGuarded(s: State, evs: seq<Event>)
    requires Runs(s, evs)
    decreases evs
  {
    evs == [] || (Guarded(s, evs[0]) && RunGuarded(Apply(s, evs[0]), evs[1..]))
  }

  lemma {:induction false} StoreSafeAfter(s: State, evs: seq<Event>)
    requires StoreSafe(s) && Runs(s, evs)
    ensures StoreSafe(After(s, evs))
    decreases evs
  {
    if evs != [] {
      StepLock(s, evs[0]);
      StepStores(s, evs[0]);
      StepClean(s, evs[0]);
      StoreSafeAfter(Apply(s, evs[0]), evs[1..]);
    }
  }

  lemma {:induction false} InvAfter(s: State, evs: seq<Event>)
    requires Inv(s) && Runs(s, evs) && RunGuarded(s, evs)
    ensures Inv(After(s, evs))
    decreases evs
  {
    if evs != [] {
      StepInv(s, evs[0]);
      InvAfter(Apply(s, evs[0]), evs[1..]);
    }
  }

  /** In no interleaving does a clean delete a store that a live FNN has open, nor anything while one lives. */
  lemma CleanNeverDeletesAnOpenStore(s: State, evs: seq<Event>, ev: Event)
    requires Init(s) && Runs(s, evs) && Enabled(After(s, evs), ev)
    ensures ev.DeleteStore? || ev.DeleteRecord? ==> NoLiveFnn(After(s, evs))
    ensures forall f :: f in After(s, evs).fnns && After(s, evs).fnns[f].alive ==>
              After(s, evs).fnns[f].node in Apply(After(s, evs), ev).stores
  {
    StoreSafeAfter(s, evs);
    DeleterSeesNone(After(s, evs), ev);
  }

  lemma DeleterSeesNone(s: State, ev: Event)
    requires StoreSafe(s) && Enabled(s, ev)
    ensures ev.DeleteStore? || ev.DeleteRecord? ==> NoLiveFnn(s)
    ensures forall f :: f in s.fnns && s.fnns[f].alive ==> s.fnns[f].node in Apply(s, ev).stores
  {
    hide ProcAfter, LockAfter, RuntimeAfter, DaemonAfter, FnnsAfter;
    if ev.DeleteStore? || ev.DeleteRecord? {
      assert ClearKnown(s, ev.p);
    }
  }

  /** At most one live process holds the lock: its record is then the holder's. */
  lemma OneLockHolder(s: State, evs: seq<Event>, p: Pid, q: Pid)
    requires Init(s) && Runs(s, evs)
    requires var t := After(s, evs);
             && AliveIn(t, p) && InLock(t.procs[p].pc)
             && AliveIn(t, q) && InLock(t.procs[q].pc)
    ensures p == q && After(s, evs).lock == Record(p)
  {
    StoreSafeAfter(s, evs);
  }

  ghost predicate HasChildren(s: State, p: Pid) {
    exists f :: LiveChild(s, f, p)
  }

  lemma OwnerState(s: State, p: Pid)
    requires Inv(s) && AliveIn(s, p) && HasChildren(s, p)
    ensures MayHaveChildren(s.procs[p].pc) && RecordKnown(s, p)
  {
    var f :| LiveChild(s, f, p);
    assert f in s.fnns;
  }

  /** One live process at most has live FNNs, and it holds the lock or is the recorded manager. */
  lemma SingleOwnership(s: State, evs: seq<Event>, p: Pid, q: Pid)
    requires Init(s) && Runs(s, evs) && RunGuarded(s, evs)
    requires var t := After(s, evs); AliveIn(t, p) && HasChildren(t, p) && AliveIn(t, q) && HasChildren(t, q)
    ensures p == q
    ensures var t := After(s, evs); t.lock == Record(p) || (t.runtime.Managed? && t.runtime.pid == p)
  {
    InvAfter(s, evs);
    var t := After(s, evs);
    OwnerState(t, p);
    OwnerState(t, q);
    hide Runs, After, HasChildren;
    assert InLock(t.procs[p].pc) ==> t.lock == Record(p);
    assert InLock(t.procs[q].pc) ==> t.lock == Record(q);
  }

  /** Nobody but a live manager itself removes or replaces its record. */
  lemma LiveManagerKeepsItsRecord(s: State, evs: seq<Event>, ev: Event)
    requires Init(s) && Runs(s, evs) && RunGuarded(s, evs)
    requires Enabled(After(s, evs), ev) && LiveRecord(After(s, evs))
    requires !By(ev, After(s, evs).runtime.pid)
    ensures Apply(After(s, evs), ev).runtime == After(s, evs).runtime
  {
    InvAfter(s, evs);
    LiveRecordKept(After(s, evs), ev);
  }
}
