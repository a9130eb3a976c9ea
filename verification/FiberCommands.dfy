/**
 The commands that act on a Fiber environment from outside: the clean commands
 under the environment lock, and `fiber stop`. What other processes and the
 operating system answer is a parameter, given anew for each moment.
 */
module FiberCommands {
  import opened Options
  import opened EnvLock
  import opened FiberManager

  /** A PID file; `pid` is zero when its text names no process, `settling` is a startup still in its window. */
  datatype PidRecord = PidRecord(pid: Pid, settling: bool)

  /** Whether a process has the store's LOCK file open. */
  datatype StoreLock = Held | Free | Unclear

  datatype World = World(probe: Pid -> Probe, store: nat -> StoreLock)

  datatype Refusal = LiveManager(pid: Pid) | LiveDaemon(pid: Pid) | LivenessUnknown(pid: Pid) | StoreNotFree(id: nat)

  datatype CleanResult = LockTaken | NothingToClean | NotStopped(why: Refusal) | Aborted | Cleaned

  /** The manager that may still be running: only a confirmed death makes a record stale. */
  function LiveManagerOf(record: Option<Entry>, world: World): Option<Pid> {
    if record.Some? && world.probe(record.value.managerPid) != Dead then Some(record.value.managerPid) else None
  }

  /** The PID file's process is not there, for certain. */
  predicate DaemonGone(daemon: Option<PidRecord>, world: World) {
    daemon.Some? && daemon.value.pid > 0 ==> world.probe(daemon.value.pid) == Dead
  }

  predicate AllFree(stores: seq<nat>, world: World) {
    forall i :: 0 <= i < |stores| ==> world.store(stores[i]) == Free
  }

  predicate FullyStopped(record: Option<Entry>, daemon: Option<PidRecord>, stores: seq<nat>, world: World) {
    && LiveManagerOf(record, world).None?
    && DaemonGone(daemon, world)
    && AllFree(stores, world)
  }

  // ---- waiting ----

  /**
   Polls until the process is gone; `seen` is the world at each look, the first
   one taken before any waiting. A look that fails ends the wait with an error.
   `now` counts the looks taken.
   */
  method WaitForProcessExit(pid: Pid, seen: nat -> World, from: nat, rounds: nat) returns (exited: Option<bool>, now: nat)
    ensures from < now <= from + rounds + 1
    ensures forall t :: from <= t < now - 1 ==> seen(t).probe(pid) == Alive
    ensures exited == match seen(now - 1).probe(pid)
                      case Dead => Some(true)
                      case CannotTell => None
                      case Alive => Some(false)
    ensures exited == Some(false) ==> now == from + rounds + 1
  {
    now := from;
    while true
      invariant from <= now <= from + rounds
      invariant forall t :: from <= t < now ==> seen(t).probe(pid) == Alive
      decreases from + rounds - now
    {
      var look := seen(now).probe(pid);
      now := now + 1;
      if look == Dead { return Some(true), now; }
      if look == CannotTell { return None, now; }
      if now > from + rounds { return Some(false), now; }
    }
  }

  /** Polls until one look finds every LOCK file free; a check that cannot be performed counts as held. */
  method WaitForStoreLocksReleased(stores: seq<nat>, seen: nat -> World, from: nat, rounds: nat) returns (released: bool, now: nat)
    ensures from <= now <= from + rounds
    ensures released <==> exists t :: from <= t < from + rounds && AllFree(stores, seen(t))
    ensures released ==> from < now && AllFree(stores, seen(now - 1)) && forall t :: from <= t < now - 1 ==> !AllFree(stores, seen(t))
  {
    now := from;
    while now < from + rounds
      invariant from <= now <= from + rounds
      invariant forall t :: from <= t < now ==> !AllFree(stores, seen(t))
    {
      var allReleased := true;
      var i := 0;
      while i < |stores|
        invariant 0 <= i <= |stores| && allReleased
        invariant forall k :: 0 <= k < i ==> seen(now).store(stores[k]) == Free
      {
        if seen(now).store(stores[i]) != Free {
          allReleased := false;
          break;
        }
        i := i + 1;
      }
      now := now + 1;
      if allReleased {
        assert AllFree(stores, seen(now - 1));
        return true, now;
      }
      assert !AllFree(stores, seen(now - 1));
    }
    return false, now;
  }

  /** How many looks fit into each wait: for the process and the stores, and again after SIGKILL. */
  datatype Patience = Patience(exit: nat, stores: nat, killedExit: nat, killedStores: nat)

  datatype StopEnd = Stopped | Unconfirmed | Errored

  predicate SeenDead(pid: Pid, seen: nat -> World, before: nat) {
    exists t :: 0 <= t < before && seen(t).probe(pid) == Dead
  }

  predicate SeenFree(stores: seq<nat>, seen: nat -> World, before: nat) {
    exists t :: 0 <= t < before && AllFree(stores, seen(t))
  }

  predicate NeverFree(stores: seq<nat>, seen: nat -> World, from: nat, rounds: nat) {
    forall t :: from <= t < from + rounds ==> !AllFree(stores, seen(t))
  }

  /** From the `k`-th look on the process is gone and its stores are free; before that it is there. */
  ghost predicate GoesDown(pid: Pid, stores: seq<nat>, seen: nat -> World, k: nat) {
    && (forall t :: 0 <= t < k ==> seen(t).probe(pid) == Alive)
    && (forall t :: t >= k ==> seen(t).probe(pid) == Dead && AllFree(stores, seen(t)))
  }

  /** A daemon that may be signalled: alive, past its startup window, and verified to be ours. */
  predicate Signallable(daemon: Option<PidRecord>, world: World, identityOk: Pid -> bool) {
    && daemon.Some? && daemon.value.pid > 0
    && world.probe(daemon.value.pid) == Alive && !daemon.value.settling && identityOk(daemon.value.pid)
  }

  /** The node daemon that may be signalled: it is the live recorded manager, alive and verified to be ours. */
  predicate StoppableNode(node: Option<PidRecord>, record: Option<Entry>, world: World, identityOk: Pid -> bool) {
    && node.Some? && node.value.pid > 0 && LiveManagerOf(record, world) == Some(node.value.pid)
    && world.probe(node.value.pid) == Alive && identityOk(node.value.pid)
  }

  class Environment {
    const lockFile: LockFile
    const runtime: RuntimeFile
    var fiberDaemon: Option<PidRecord>
    var nodeDaemon: Option<PidRecord>
    var rootPresent: bool
    var chainData: bool
    /** The nodes that have a store. */
    var stores: seq<nat>

    constructor (lockFile: LockFile, runtime: RuntimeFile, stores: seq<nat>)
      ensures this.lockFile == lockFile && this.runtime == runtime && this.stores == stores
      ensures rootPresent && chainData && fiberDaemon == None && nodeDaemon == None
    {
      this.lockFile, this.runtime, this.stores := lockFile, runtime, stores;
      rootPresent, chainData, fiberDaemon, nodeDaemon := true, true, None, None;
    }

    /** The refusal, in the order of the checks, or nothing when everything is confirmed stopped. */
    method AssertFiberFullyStopped(world: World) returns (refusal: Option<Refusal>)
      ensures refusal.None? <==> FullyStopped(runtime.record, fiberDaemon, stores, world)
      ensures refusal.Some? && refusal.value.LiveManager? ==> LiveManagerOf(runtime.record, world) == Some(refusal.value.pid)
      ensures refusal.Some? && (refusal.value.LiveDaemon? || refusal.value.LivenessUnknown?) ==>
                && fiberDaemon.Some? && fiberDaemon.value.pid == refusal.value.pid
                && world.probe(refusal.value.pid) == if refusal.value.LiveDaemon? then Alive else CannotTell
      ensures refusal.Some? && refusal.value.StoreNotFree? ==>
                refusal.value.id in stores && world.store(refusal.value.id) != Free
    {
      var live := LiveManagerOf(runtime.record, world);
      if live.Some? { return Some(LiveManager(live.value)); }
      if fiberDaemon.Some? && fiberDaemon.value.pid > 0 {
        var pid := fiberDaemon.value.pid;
        match world.probe(pid)
        case Alive => return Some(LiveDaemon(pid));
        case CannotTell => return Some(LivenessUnknown(pid));
        case Dead =>
      }
      var i := 0;
      while i < |stores|
        invariant 0 <= i <= |stores|
        invariant forall k :: 0 <= k < i ==> world.store(stores[k]) == Free
      {
        if world.store(stores[i]) != Free { return Some(StoreNotFree(stores[i])); }
        i := i + 1;
      }
      return None;
    }

    method DeleteStores()
      modifies `stores
      ensures stores == []
    {
      while stores != []
        decreases |stores|
      {
        stores := stores[1..];
      }
    }

    /**
     `fiber clean`: check, ask, check again, delete, all under the lock. It
     deletes exactly when both checks pass and the answer is yes; on every other
     path nothing but the lock file is touched, and the lock is given back on all.
     */
    method FiberClean(me: Holder, owner: Probe, createFails: seq<bool>, unlinkFails: bool,
                      dataOnly: bool, first: World, confirmed: bool, second: World)
      returns (r: CleanResult)
      requires !me.held && |createFails| == 2
      modifies me, lockFile, runtime, `stores, `rootPresent
      ensures !me.held
      ensures r == LockTaken <==>
              !(!createFails[0] && MayTake(old(lockFile.content), owner)
                && (old(lockFile.content) == Absent || (!unlinkFails && !createFails[1])))
      ensures r != LockTaken ==> lockFile.content == Absent
      ensures r == Cleaned <==>
              && r != LockTaken && old(rootPresent) && confirmed
              && FullyStopped(old(runtime.record), fiberDaemon, old(stores), first)
              && FullyStopped(old(runtime.record), fiberDaemon, old(stores), second)
      ensures r == Cleaned ==> stores == [] && runtime.record == None && rootPresent == dataOnly
      ensures r != Cleaned ==>
              stores == old(stores) && runtime.record == old(runtime.record) && rootPresent == old(rootPresent)
    {
      var lock := me.Acquire(lockFile, owner, createFails, unlinkFails);
      if lock != Acquired { return LockTaken; }
      r := CleanUnderLock(dataOnly, first, confirmed, second);
      me.Release(lockFile);
    }

    method CleanUnderLock(dataOnly: bool, first: World, confirmed: bool, second: World) returns (r: CleanResult)
      modifies runtime, `stores, `rootPresent
      ensures r != LockTaken
      ensures r == Cleaned <==>
              && old(rootPresent) && confirmed
              && FullyStopped(old(runtime.record), fiberDaemon, old(stores), first)
              && FullyStopped(old(runtime.record), fiberDaemon, old(stores), second)
      ensures r == Cleaned ==> stores == [] && runtime.record == None && rootPresent == dataOnly
      ensures r != Cleaned ==>
              stores == old(stores) && runtime.record == old(runtime.record) && rootPresent == old(rootPresent)
    {
      if !rootPresent { return NothingToClean; }
      var refusal := AssertFiberFullyStopped(first);
      if refusal.Some? { return NotStopped(refusal.value); }
      if !confirmed { return Aborted; }
      refusal := AssertFiberFullyStopped(second);
      if refusal.Some? { return NotStopped(refusal.value); }
      if dataOnly {
        if LiveManagerOf(runtime.record, second).None? { runtime.record := None; }
        DeleteStores();
      } else {
        rootPresent, runtime.record, stores := false, None, [];
      }
      return Cleaned;
    }

    /** `clean`: the same check once, with the CKB daemon's before it, then the chain data with the stores or the whole tree. */
    method Clean(me: Holder, owner: Probe, createFails: seq<bool>, unlinkFails: bool, dataOnly: bool, world: World)
      returns (cleaned: bool)
      requires !me.held && |createFails| == 2
      modifies me, lockFile, runtime, `stores, `rootPresent, `chainData
      ensures !me.held
      ensures cleaned <==>
              && !createFails[0] && MayTake(old(lockFile.content), owner)
              && (old(lockFile.content) == Absent || (!unlinkFails && !createFails[1]))
              && DaemonGone(nodeDaemon, world)
              && FullyStopped(old(runtime.record), fiberDaemon, old(stores), world)
      ensures cleaned ==>
              && stores == [] && runtime.record == None && !chainData && lockFile.content == Absent
              && rootPresent == (dataOnly && old(rootPresent))
      ensures !cleaned ==>
              && stores == old(stores) && runtime.record == old(runtime.record)
              && rootPresent == old(rootPresent) && chainData == old(chainData)
    {
      var lock := me.Acquire(lockFile, owner, createFails, unlinkFails);
      if lock != Acquired { return false; }
      cleaned := false;
      if !(nodeDaemon.Some? && nodeDaemon.value.pid > 0 && world.probe(nodeDaemon.value.pid) != Dead) {
        var refusal := AssertFiberFullyStopped(world);
        if refusal.None? {
          cleaned := true;
          chainData := false;
          if dataOnly {
            if LiveManagerOf(runtime.record, world).None? { runtime.record := None; }
            DeleteStores();
          } else {
            rootPresent, runtime.record, stores := false, None, [];
          }
        }
      }
      me.Release(lockFile);
    }

    // ---- stopping ----

    /** The nodes of the recorded environment, whose stores the manager's children hold. */
    function RecordedNodes(): seq<nat>
      reads runtime
    {
      if runtime.record.Some? then runtime.record.value.ids else []
    }

    /**
     SIGTERM, a wait for the process and one for the stores, SIGKILL if either
     was not enough, the waits again, and a last look. The PID file and the
     record go exactly when that look finds the process gone; a signal that
     cannot be sent or a look that fails ends it before.
     */
    method StopManagerAndCleanup(pid: Pid, isNode: bool, termFails: bool, seen: nat -> World, patience: Patience)
      returns (end: StopEnd, killed: bool, now: nat)
      modifies runtime, `fiberDaemon, `nodeDaemon
      ensures end == Stopped ==>
                && seen(now).probe(pid) == Dead && runtime.record == None
                && (if isNode then nodeDaemon == None && fiberDaemon == old(fiberDaemon)
                    else fiberDaemon == None && nodeDaemon == old(nodeDaemon))
      ensures end != Stopped ==>
                && (termFails || seen(now).probe(pid) != Dead)
                && runtime.record == old(runtime.record) && fiberDaemon == old(fiberDaemon) && nodeDaemon == old(nodeDaemon)
      ensures termFails ==> end == Errored
      ensures end == Errored && !termFails ==> seen(now).probe(pid) == CannotTell
      ensures end == Stopped && !killed ==>
                SeenDead(pid, seen, now) && SeenFree(old(RecordedNodes()), seen, now)
      ensures killed ==>
                || !SeenDead(pid, seen, patience.exit + 1)
                || exists from :: 0 <= from <= patience.exit + 1 && NeverFree(old(RecordedNodes()), seen, from, patience.stores)
      ensures !termFails && patience.stores > 0 ==>
                forall k: nat :: GoesDown(pid, old(RecordedNodes()), seen, k) && k <= patience.exit ==> end == Stopped && !killed
    {
      var stores := RecordedNodes();
      killed, now := false, 0;
      if termFails { return Errored, killed, now; }
      var exited, released;
      exited, now := WaitForProcessExit(pid, seen, now, patience.exit);
      if exited.None? { return Errored, killed, now - 1; }
      ghost var first := now;
      assert forall k: nat :: GoesDown(pid, stores, seen, k) && k <= patience.exit ==>
          exited == Some(true) && k < first && AllFree(stores, seen(first));
      released, now := WaitForStoreLocksReleased(stores, seen, now, patience.stores);
      if exited.value && released {
        assert seen(first - 1).probe(pid) == Dead && AllFree(stores, seen(now - 1));
      }
      if !exited.value || !released {
        killed := true;
        assert exited == Some(false) ==> !SeenDead(pid, seen, patience.exit + 1);
        assert !released ==> NeverFree(stores, seen, first, patience.stores);
        exited, now := WaitForProcessExit(pid, seen, now, patience.killedExit);
        if exited.None? { return Errored, killed, now - 1; }
        released, now := WaitForStoreLocksReleased(stores, seen, now, patience.killedStores);
      }
      if seen(now).probe(pid) != Dead { return Unconfirmed, killed, now; }
      if isNode { nodeDaemon := None; } else { fiberDaemon := None; }
      runtime.record := None;
      return Stopped, killed, now;
    }

    /**
     `fiber stop`. Only a process recorded in a daemon's PID file is ever
     signalled: the fiber daemon's first, else the node daemon's when it is the
     live manager. A foreground manager is left alone. What names a process that
     is gone is removed, before the signal or, when the process is seen to go,
     after it.
     */
    method StopFiber(world: World, identityOk: Pid -> bool, termFails: bool, seen: nat -> World, patience: Patience)
      returns (signalled: Option<Pid>, stopped: bool)
      modifies runtime, `fiberDaemon, `nodeDaemon
      ensures signalled ==
              if Signallable(old(fiberDaemon), world, identityOk) then Some(old(fiberDaemon).value.pid)
              else if DaemonGone(old(fiberDaemon), world) && StoppableNode(old(nodeDaemon), old(runtime.record), world, identityOk)
              then Some(old(nodeDaemon).value.pid)
              else None
      ensures fiberDaemon == if stopped || DaemonGone(old(fiberDaemon), world) then None else old(fiberDaemon)
      ensures nodeDaemon == if stopped && DaemonGone(old(fiberDaemon), world) then None else old(nodeDaemon)
      ensures runtime.record ==
              if stopped || (DaemonGone(old(fiberDaemon), world) && LiveManagerOf(old(runtime.record), world).None?) then None
              else old(runtime.record)
      ensures stopped ==> signalled.Some? && !termFails && exists t :: seen(t).probe(signalled.value) == Dead
      ensures signalled.Some? && !termFails && patience.stores > 0 ==>
                forall k: nat :: GoesDown(signalled.value, old(RecordedNodes()), seen, k) && k <= patience.exit ==> stopped
    {
      if fiberDaemon.Some? && fiberDaemon.value.pid > 0 {
        var pid := fiberDaemon.value.pid;
        var alive := world.probe(pid);
        if alive == CannotTell { return None, false; }
        if alive == Alive {
          if fiberDaemon.value.settling { return None, false; }
          if !identityOk(pid) { return None, false; }
          var end, killed, now := StopManagerAndCleanup(pid, false, termFails, seen, patience);
          return Some(pid), end == Stopped;
        }
        fiberDaemon := None;
      } else {
        fiberDaemon := None;
      }
      var live := LiveManagerOf(runtime.record, world);
      if live.None? {
        runtime.record := None;
        return None, false;
      }
      if nodeDaemon.Some? && nodeDaemon.value.pid > 0 && nodeDaemon.value.pid == live.value {
        if world.probe(live.value) == Alive && identityOk(live.value) {
          assert RecordedNodes() == old(RecordedNodes());
          var end, killed, now := StopManagerAndCleanup(live.value, true, termFails, seen, patience);
          return Some(live.value), end == Stopped;
        }
      }
      return None, false;
    }
  }
}
