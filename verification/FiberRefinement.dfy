/**
 The commands as they are written out, seen as runs of the protocol: what they
 check and leave behind is what its steps allow and do.
 */
module FiberRefinement {
  import opened EnvLock
  import opened FiberProtocol
  import opened FiberRuns
  import opened Options
  import C = FiberCommands
  import M = FiberManager

  // ---- the files as the commands read them ----

  function RuntimeOf(record: Option<M.Entry>): Runtime {
    if record.None? then NoRecord else Managed(record.value.managerPid, record.value.running)
  }

  predicate ShowsDaemon(file: PidFile, record: Option<C.PidRecord>) {
    match file
    case NoPidFile => record.Some? ==> record.value.pid == 0
    case Daemon(pid, _, status) => record == Some(C.PidRecord(pid, status == Starting)) && pid > 0
  }

  predicate Shows(s: State, record: Option<M.Entry>, daemon: Option<C.PidRecord>, stores: seq<nat>) {
    && s.runtime == RuntimeOf(record)
    && ShowsDaemon(s.daemon, daemon)
    && s.stores == set n | n in stores
  }

  /** The operating system does not call a live process dead, nor an open store free. */
  ghost predicate HonestWorld(s: State, world: C.World) {
    && (forall p: Pid :: Honest(s, p, world.probe(p)))
    && (forall n: nat :: world.store(n) == C.Free ==> !StoreOpen(s, n))
  }

  function WithPc(s: State, p: Pid, pc: Pc): State
    requires p in s.procs
  {
    s.(procs := s.procs[p := s.procs[p].(pc := pc)])
  }

  lemma PcTwice(s: State, p: Pid, a: Pc, b: Pc)
    requires p in s.procs
    ensures WithPc(WithPc(s, p, a), p, b) == WithPc(s, p, b)
    ensures s.procs[p].pc == a ==> WithPc(s, p, a) == s
  {
    var proc := s.procs[p];
    assert s.procs[p := proc.(pc := a)][p := proc.(pc := b)] == s.procs[p := proc.(pc := b)];
    assert s.procs[p := proc] == s.procs;
  }

  // ---- the check of the clean commands ----

  lemma ProbeStep(s: State, p: Pid, final: bool, cleared: set<NodeId>, n: NodeId)
    requires At(s, p, CleanProbing(final, cleared)) && !StoreOpen(s, n)
    ensures Enabled(s, ProbeStore(p, n)) && Apply(s, ProbeStore(p, n)) == WithPc(s, p, CleanProbing(final, cleared + {n}))
  {
  }

  lemma OpenSame(s: State, t: State, n: NodeId)
    requires s.fnns == t.fnns
    ensures StoreOpen(s, n) <==> StoreOpen(t, n)
  {
  }

  lemma {:induction false} ProbeAll(s: State, p: Pid, final: bool, cleared: set<NodeId>, stores: seq<nat>)
    returns (run: seq<State>, evs: seq<Event>)
    requires At(s, p, CleanProbing(final, cleared)) && forall n :: n in stores ==> !StoreOpen(s, n)
    ensures Steps(run, evs) && run[0] == s
    ensures run[|evs|] == WithPc(s, p, CleanProbing(final, cleared + set n | n in stores))
    decreases |stores|
  {
    if stores == [] {
      run, evs := [s], [];
      PcTwice(s, p, CleanProbing(final, cleared), CleanProbing(final, cleared));
      assert cleared + (set n | n in stores) == cleared;
    } else {
      var last := |stores| - 1;
      run, evs := ProbeAll(s, p, final, cleared, stores[..last]);
      hide Enabled, Apply, StoreOpen;
      var so := cleared + set n | n in stores[..last];
      OpenSame(s, run[|evs|], stores[last]);
      ProbeStep(run[|evs|], p, final, so, stores[last]);
      PcTwice(s, p, CleanProbing(final, so), CleanProbing(final, so + {stores[last]}));
      run, evs := Extend(run, evs, ProbeStore(p, stores[last]));
      assert so + {stores[last]} == cleared + set n | n in stores;
    }
  }

  lemma CheckStep(s: State, p: Pid, final: bool, record: Option<M.Entry>, daemon: Option<C.PidRecord>,
                  stores: seq<nat>, world: C.World) returns (check: Event)
    requires Shows(s, record, daemon, stores) && HonestWorld(s, world) && At(s, p, CleanLocked(final))
    requires C.FullyStopped(record, daemon, stores, world)
    ensures Enabled(s, check) && Apply(s, check) == WithPc(s, p, CleanProbing(final, {}))
    ensures forall n :: n in stores ==> !StoreOpen(Apply(s, check), n)
  {
    var probe := if record.Some? then world.probe(record.value.managerPid) else Dead;
    var daemonProbe := if s.daemon.Daemon? then world.probe(s.daemon.pid) else Dead;
    check := CheckStopped(p, probe, daemonProbe);
    forall n | n in stores ensures !StoreOpen(s, n) {
      var i :| 0 <= i < |stores| && stores[i] == n;
      assert world.store(stores[i]) == C.Free;
    }
  }

  lemma CheckedMayGoOn(s: State, p: Pid, final: bool)
    requires At(s, p, CleanProbing(final, s.stores))
    ensures if final then forall w :: Enabled(s, StartDeleting(p, w)) else Enabled(s, Prompt(p))
  {
  }

  /**
   Whenever the check passes, it has been a run of the protocol, at whose end
   the command may go on to the prompt or to deleting.
   */
  lemma FullyStoppedIsRun(s: State, p: Pid, final: bool, record: Option<M.Entry>, daemon: Option<C.PidRecord>,
                          stores: seq<nat>, world: C.World)
    returns (run: seq<State>, evs: seq<Event>)
    requires Shows(s, record, daemon, stores) && HonestWorld(s, world) && At(s, p, CleanLocked(final))
    requires C.FullyStopped(record, daemon, stores, world)
    ensures Steps(run, evs) && run[0] == s && run[|evs|] == WithPc(s, p, CleanProbing(final, s.stores))
    ensures if final then forall w :: Enabled(run[|evs|], StartDeleting(p, w)) else Enabled(run[|evs|], Prompt(p))
  {
    hide Enabled, Apply, HonestWorld, StoreOpen;
    var check := CheckStep(s, p, final, record, daemon, stores, world);
    var t := Apply(s, check);
    run, evs := Extend([s], [], check);
    var run2, evs2 := ProbeAll(t, p, final, {}, stores);
    run, evs := Join(run, evs, run2, evs2);
    assert {} + (set n | n in stores) == s.stores;
    PcTwice(s, p, CleanProbing(final, {}), CleanProbing(final, s.stores));
    CheckedMayGoOn(run[|evs|], p, final);
  }

  // ---- starting ----

  function Spawned(fnns: map<FnnId, Fnn>, p: Pid, ids: seq<nat>, fs: seq<FnnId>): map<FnnId, Fnn>
    requires |fs| == |ids|
  {
    if ids == [] then fnns else
    var last := |ids| - 1;
    Spawned(fnns, p, ids[..last], fs[..last])[fs[last] := Fnn(p, ids[last], true)]
  }

  predicate FreshIds(fnns: map<FnnId, Fnn>, fs: seq<FnnId>) {
    && (forall i, j :: 0 <= i < j < |fs| ==> fs[i] != fs[j])
    && (forall i :: 0 <= i < |fs| ==> fs[i] !in fnns)
  }

  lemma {:induction false} SpawnedKeys(fnns: map<FnnId, Fnn>, p: Pid, ids: seq<nat>, fs: seq<FnnId>, f: FnnId)
    requires |fs| == |ids|
    ensures f in Spawned(fnns, p, ids, fs) <==> f in fnns || f in fs
    decreases |ids|
  {
    if ids != [] {
      var last := |ids| - 1;
      SpawnedKeys(fnns, p, ids[..last], fs[..last], f);
      assert fs == fs[..last] + [fs[last]];
    }
  }

  /** What the state is once all nodes are spawned. */
  function AllSpawned(s: State, p: Pid, ids: seq<nat>, fs: seq<FnnId>): State
    requires p in s.procs && |fs| == |ids|
  {
    s.(procs := s.procs[p := s.procs[p].(pc := Spawning, handlers := BOTH)],
       fnns := Spawned(s.fnns, p, ids, fs),
       stores := s.stores + set n | n in ids)
  }

  lemma SpawnStep(s: State, p: Pid, f: FnnId, n: NodeId)
    requires At(s, p, StartChecked) || (At(s, p, Spawning) && s.procs[p].handlers == BOTH)
    requires f !in s.fnns
    ensures Enabled(s, Spawn(p, f, n))
    ensures Apply(s, Spawn(p, f, n)) ==
            s.(procs := s.procs[p := s.procs[p].(pc := Spawning, handlers := BOTH)],
               fnns := s.fnns[f := Fnn(p, n, true)], stores := s.stores + {n})
  {
  }

  lemma OneMore(s: State, p: Pid, ids: seq<nat>, fs: seq<FnnId>)
    requires p in s.procs && ids != [] && |fs| == |ids|
    ensures var last := |ids| - 1;
            var t := if last == 0 then s else AllSpawned(s, p, ids[..last], fs[..last]);
            AllSpawned(s, p, ids, fs) ==
              t.(procs := t.procs[p := t.procs[p].(pc := Spawning, handlers := BOTH)],
                 fnns := t.fnns[fs[last] := Fnn(p, ids[last], true)], stores := t.stores + {ids[last]})
  {
    var last := |ids| - 1;
    var proc := s.procs[p].(pc := Spawning, handlers := BOTH);
    assert ids == ids[..last] + [ids[last]];
    assert s.stores + (set n | n in ids[..last]) + {ids[last]} == s.stores + set n | n in ids;
    assert s.procs[p := proc][p := proc] == s.procs[p := proc];
    if last == 0 {
      assert Spawned(s.fnns, p, ids[..last], fs[..last]) == s.fnns;
      assert (set n | n in ids[..last]) == {};
    }
  }

  lemma {:induction false} SpawnAll(s: State, p: Pid, ids: seq<nat>, fs: seq<FnnId>) returns (run: seq<State>, evs: seq<Event>)
    requires At(s, p, StartChecked) && ids != [] && |fs| == |ids| && FreshIds(s.fnns, fs)
    ensures Steps(run, evs) && run[0] == s && run[|evs|] == AllSpawned(s, p, ids, fs)
    decreases |ids|
  {
    hide Enabled, Apply, Spawned;
    var last := |ids| - 1;
    SpawnedKeys(s.fnns, p, ids[..last], fs[..last], fs[last]);
    run, evs := [s], [];
    if last > 0 { run, evs := SpawnAll(s, p, ids[..last], fs[..last]); }
    SpawnStep(run[|evs|], p, fs[last], ids[last]);
    run, evs := Extend(run, evs, Spawn(p, fs[last], ids[last]));
    OneMore(s, p, ids, fs);
  }

  lemma CheckedStep(s: State, p: Pid, probe: Probe)
    requires At(s, p, StartLocked) && HonestRecord(s, probe) && (s.runtime.Managed? ==> probe == Dead)
    ensures Enabled(s, CheckManager(p, probe, probe))
    ensures Apply(s, CheckManager(p, probe, probe)) == WithPc(s, p, StartChecked).(runtime := NoRecord)
  {
  }

  lemma StartedStep(s: State, p: Pid)
    requires At(s, p, Spawning) && s.lock == Record(p)
    ensures Enabled(s, WriteStarting(p)) && Apply(s, WriteStarting(p)) == WithPc(s, p, Waiting).(runtime := Managed(p, false))
  {
  }

  lemma ReadyStep(s: State, p: Pid)
    requires At(s, p, Waiting) && s.lock == Record(p)
    ensures Enabled(s, Ready(p))
    ensures var t := Apply(s, Ready(p));
            t.lock == Absent && t.runtime == Managed(p, true) && At(t, p, Supervising) && t.fnns == s.fnns
  {
  }

  lemma FailedSteps(s: State, p: Pid)
    requires At(s, p, Waiting) && s.lock == Record(p) && s.runtime == Managed(p, false)
    ensures Enabled(s, StartupFailed(p)) && Enabled(Apply(s, StartupFailed(p)), RolledBack(p))
    ensures var t := Apply(Apply(s, StartupFailed(p)), RolledBack(p));
            && t.lock == Absent && t.runtime == NoRecord && At(t, p, Done)
            && forall f :: f in s.fnns && s.fnns[f].owner == p ==> f in t.fnns && !t.fnns[f].alive
  {
  }

  /** Starting to the point where the RPCs are waited for. */
  lemma StartToWaiting(s: State, p: Pid, probe: Probe, ids: seq<nat>, fs: seq<FnnId>) returns (run: seq<State>, evs: seq<Event>)
    requires At(s, p, StartLocked) && s.lock == Record(p) && HonestRecord(s, probe) && (s.runtime.Managed? ==> probe == Dead)
    requires ids != [] && |fs| == |ids| && FreshIds(s.fnns, fs)
    ensures Steps(run, evs) && run[0] == s
    ensures var t := run[|evs|];
            At(t, p, Waiting) && t.lock == Record(p) && t.runtime == Managed(p, false) && t.fnns == Spawned(s.fnns, p, ids, fs)
  {
    hide Enabled, Apply, Spawned;
    CheckedStep(s, p, probe);
    run, evs := Extend([s], [], CheckManager(p, probe, probe));
    var run2, evs2 := SpawnAll(run[|evs|], p, ids, fs);
    run, evs := Join(run, evs, run2, evs2);
    StartedStep(run[|evs|], p);
    run, evs := Extend(run, evs, WriteStarting(p));
  }

  /** Both ends of `startFiberEnvironment` once its nodes are spawned are runs of the protocol, with what it leaves. */
  lemma StartIsRun(s: State, p: Pid, record: Option<M.Entry>, probe: Probe, ids: seq<nat>, fs: seq<FnnId>, ready: bool)
    returns (run: seq<State>, evs: seq<Event>)
    requires At(s, p, StartLocked) && s.lock == Record(p) && s.runtime == RuntimeOf(record)
    requires HonestRecord(s, probe) && (record.Some? ==> probe == Dead)
    requires ids != [] && |fs| == |ids| && FreshIds(s.fnns, fs)
    ensures Steps(run, evs) && run[0] == s
    ensures var t := run[|evs|];
            && t.lock == Absent && t.runtime == RuntimeOf(if ready then Some(M.Entry(p, true, ids)) else None)
            && At(t, p, if ready then Supervising else Done)
            && (ready ==> t.fnns == Spawned(s.fnns, p, ids, fs))
            && (!ready ==> forall f :: f in fs ==> f in t.fnns && !t.fnns[f].alive)
  {
    hide Enabled, Apply, Spawned;
    run, evs := StartToWaiting(s, p, probe, ids, fs);
    if ready {
      ReadyStep(run[|evs|], p);
      run, evs := Extend(run, evs, Ready(p));
    } else {
      FailedSteps(run[|evs|], p);
      run, evs := Extend(run, evs, StartupFailed(p));
      run, evs := Extend(run, evs, RolledBack(p));
      forall f | f in fs ensures f in run[|evs|].fnns && !run[|evs|].fnns[f].alive {
        SpawnedOwner(s.fnns, p, ids, fs, f);
      }
    }
  }

  lemma SpawnFailedSteps(s: State, p: Pid)
    requires (At(s, p, StartChecked) || At(s, p, Spawning)) && s.lock == Record(p) && s.runtime == NoRecord
    ensures Enabled(s, SpawnFailed(p)) && Enabled(Apply(s, SpawnFailed(p)), RolledBack(p))
    ensures var t := Apply(Apply(s, SpawnFailed(p)), RolledBack(p));
            && t.lock == Absent && t.runtime == NoRecord && At(t, p, Done)
            && forall f :: f in s.fnns && s.fnns[f].owner == p ==> f in t.fnns && !t.fnns[f].alive
  {
    hide DaemonAfter, StoresAfter;
  }

  /** And so is a start in which spawning fails after the nodes `ids`. */
  lemma FailedSpawnIsRun(s: State, p: Pid, probe: Probe, ids: seq<nat>, fs: seq<FnnId>) returns (run: seq<State>, evs: seq<Event>)
    requires At(s, p, StartLocked) && s.lock == Record(p) && HonestRecord(s, probe) && (s.runtime.Managed? ==> probe == Dead)
    requires |fs| == |ids| && FreshIds(s.fnns, fs)
    ensures Steps(run, evs) && run[0] == s
    ensures var t := run[|evs|];
            && t.lock == Absent && t.runtime == NoRecord && At(t, p, Done)
            && forall f :: f in fs ==> f in t.fnns && !t.fnns[f].alive
  {
    hide Enabled, Apply, Spawned;
    CheckedStep(s, p, probe);
    run, evs := Extend([s], [], CheckManager(p, probe, probe));
    if ids != [] {
      var run2, evs2 := SpawnAll(run[|evs|], p, ids, fs);
      run, evs := Join(run, evs, run2, evs2);
    }
    SpawnFailedSteps(run[|evs|], p);
    run, evs := Extend(run, evs, SpawnFailed(p));
    run, evs := Extend(run, evs, RolledBack(p));
    forall f | f in fs ensures f in run[|evs|].fnns && !run[|evs|].fnns[f].alive {
      SpawnedOwner(s.fnns, p, ids, fs, f);
    }
  }

  lemma RefusedStep(s: State, p: Pid)
    requires At(s, p, StartLocked) && s.lock == Record(p)
    ensures Enabled(s, Refuse(p))
    ensures var t := Apply(s, Refuse(p)); t.lock == Absent && t.runtime == s.runtime && At(t, p, Done)
  {
  }

  /**
   Every call of `startFiberEnvironment` by a process holding the lock has been
   a run of the protocol, whatever its outcome: the record it leaves is the
   run's, and its children live or are dead as in the run.
   */
  method StartAsRun<T(==)>(ids: seq<nat>, file: M.RuntimeFile, pid: Pid, probe: Probe, spawnsUntil: nat,
                           heeds: nat -> bool, answers: (nat, nat) -> M.Answer<T>, rounds: nat,
                           checksPass: bool, patience: nat, ghost s: State, ghost fs: seq<FnnId>)
    returns (r: M.Startup, handles: seq<M.Child>, ghost run: seq<State>, ghost evs: seq<Event>)
    requires ids != [] && forall i, j :: 0 <= i < j < |ids| ==> ids[i] != ids[j]
    requires At(s, pid, StartLocked) && s.lock == Record(pid) && s.runtime == RuntimeOf(file.record) && HonestRecord(s, probe)
    requires |fs| == |ids| && FreshIds(s.fnns, fs)
    modifies file
    ensures r == M.Started <==>
              && !(s.runtime.Managed? && probe != Dead)
              && |ids| <= spawnsUntil && checksPass
              && forall id :: id in ids ==> M.AnswersInTime(answers, id, rounds)
    ensures Steps(run, evs) && run[0] == s
    ensures var t := run[|evs|];
            && t.lock == Absent && t.runtime == RuntimeOf(file.record)
            && At(t, pid, if r == M.Started then Supervising else Done)
    ensures |handles| <= |fs| && forall i :: 0 <= i < |handles| ==>
              var fnns := run[|evs|].fnns; fs[i] in fnns && (fnns[fs[i]].alive <==> !handles[i].exited)
  {
    ghost var record := file.record;
    r, handles := M.StartFiberEnvironment(ids, file, pid, probe, spawnsUntil, heeds, answers, rounds, checksPass, patience);
    hide Enabled, Apply, Spawned;
    if r == M.Refused {
      RefusedStep(s, pid);
      run, evs := Extend([s], [], Refuse(pid));
    } else if |handles| == |ids| {
      run, evs := StartIsRun(s, pid, record, probe, ids, fs, r == M.Started);
      forall i | 0 <= i < |handles| ensures fs[i] in run[|evs|].fnns && (run[|evs|].fnns[fs[i]].alive <==> !handles[i].exited) {
        SpawnedOwner(s.fnns, pid, ids, fs, fs[i]);
      }
    } else {
      ghost var n := |handles|;
      assert n > 0 ==> handles[n - 1].id == ids[n - 1];
      run, evs := FailedSpawnIsRun(s, pid, probe, ids[..n], fs[..n]);
      forall i | 0 <= i < n ensures fs[i] in run[|evs|].fnns && !run[|evs|].fnns[fs[i]].alive {
        assert fs[..n][i] == fs[i];
      }
    }
  }

  lemma {:induction false} SpawnedOwner(fnns: map<FnnId, Fnn>, p: Pid, ids: seq<nat>, fs: seq<FnnId>, f: FnnId)
    requires |fs| == |ids| && f in fs
    ensures f in Spawned(fnns, p, ids, fs) && Spawned(fnns, p, ids, fs)[f].owner == p && Spawned(fnns, p, ids, fs)[f].alive
    decreases |ids|
  {
    var last := |ids| - 1;
    if f != fs[last] {
      assert fs == fs[..last] + [fs[last]];
      SpawnedOwner(fnns, p, ids[..last], fs[..last], f);
    }
  }

  // ---- stopping ----

  /** Taking the nodes down leaves the record that `stopFiberNodes` leaves. */
  lemma StopNodesLeaves(s: State, ev: Event, record: Option<M.Entry>)
    requires Enabled(s, ev) && StopsNodes(ev) && s.runtime == RuntimeOf(record)
    ensures Apply(s, ev).runtime == RuntimeOf(M.WithoutOwn(record, ev.p))
    ensures forall f :: f in s.fnns && s.fnns[f].owner == ev.p ==> !Apply(s, ev).fnns[f].alive
  {
  }

  /** A process that `fiber stop` signals is one that it may target in the protocol. */
  lemma SignalledIsTarget(s: State, p: Pid, q: Pid, record: Option<M.Entry>, daemon: Option<C.PidRecord>, stores: seq<nat>,
                          world: C.World, identityOk: Pid -> bool, viaFile: bool)
    requires Shows(s, record, daemon, stores) && At(s, p, StopLocked) && AliveIn(s, q) && q != p
    requires if viaFile then C.Signallable(daemon, world, identityOk) && daemon.value.pid == q
             else C.LiveManagerOf(record, world) == Some(q)
    ensures Enabled(s, Target(p, q, viaFile)) && Apply(s, Target(p, q, viaFile)) == WithPc(s, p, StopWaiting(q, viaFile))
  {
    hide LockAfter, FnnsAfter, RuntimeAfter, DaemonAfter;
    assert Enabled(s, Target(p, q, viaFile));
    TargetKeepsFiles(s, p, q, viaFile);
  }

  lemma TargetKeepsFiles(s: State, p: Pid, q: Pid, viaFile: bool)
    requires Enabled(s, Target(p, q, viaFile))
    ensures var ev := Target(p, q, viaFile);
            && LockAfter(s, ev) == s.lock && RuntimeAfter(s, ev) == s.runtime && DaemonAfter(s, ev) == s.daemon
            && FnnsAfter(s, ev) == s.fnns && StoresAfter(s, ev) == s.stores
  {
  }

  /** What the answers about processes mean when one of ours is asked for: alive and verified, it is there. */
  ghost predicate HonestIdentity(s: State, p: Pid, world: C.World, identityOk: Pid -> bool) {
    forall q: Pid :: world.probe(q) == Alive && identityOk(q) ==> AliveIn(s, q) && q != p
  }

  lemma DroppedFile(s: State, p: Pid, daemon: Option<C.PidRecord>, world: C.World)
    requires ShowsDaemon(s.daemon, daemon) && HonestWorld(s, world) && At(s, p, StopLocked) && C.DaemonGone(daemon, world)
    ensures Enabled(s, DropStalePidFile(p, Dead)) && Apply(s, DropStalePidFile(p, Dead)) == s.(daemon := NoPidFile)
  {
    assert s.daemon.Daemon? ==> Honest(s, s.daemon.pid, world.probe(s.daemon.pid));
    assert s.procs[p := s.procs[p]] == s.procs;
  }

  lemma DroppedRecord(s: State, p: Pid, record: Option<M.Entry>, world: C.World)
    requires s.runtime == RuntimeOf(record) && HonestWorld(s, world) && At(s, p, StopLocked)
    requires record.Some? && C.LiveManagerOf(record, world).None?
    ensures Enabled(s, DropStaleRecord(p, Dead)) && Apply(s, DropStaleRecord(p, Dead)) == s.(runtime := NoRecord)
  {
    assert Honest(s, s.runtime.pid, world.probe(s.runtime.pid));
    assert s.procs[p := s.procs[p]] == s.procs;
  }

  lemma HonestStays(s: State, t: State, p: Pid, world: C.World)
    requires HonestWorld(s, world) && t.procs == s.procs && t.fnns == s.fnns
    ensures HonestWorld(t, world)
  {
    forall q: Pid ensures Honest(t, q, world.probe(q)) {
      assert Honest(s, q, world.probe(q));
    }
    forall n: nat | world.store(n) == C.Free ensures !StoreOpen(t, n) {
      OpenSame(s, t, n);
    }
  }

  /**
   Every call of `stopFiber` under the lock has been a run of the protocol up to
   the signal it sends: the process signalled is then the target of that run,
   and without one the files are as the run leaves them.
   */
  method StopAsRun(env: C.Environment, world: C.World, identityOk: Pid -> bool, termFails: bool, seen: nat -> C.World,
                   patience: C.Patience, p: Pid, ghost s: State)
    returns (signalled: Option<Pid>, ghost run: seq<State>, ghost evs: seq<Event>)
    requires Shows(s, env.runtime.record, env.fiberDaemon, env.stores) && At(s, p, StopLocked)
    requires HonestWorld(s, world) && HonestIdentity(s, p, world, identityOk)
    modifies env.runtime, env`fiberDaemon, env`nodeDaemon
    ensures Steps(run, evs) && run[0] == s
    ensures signalled.Some? ==> exists viaFile :: At(run[|evs|], p, StopWaiting(signalled.value, viaFile))
    ensures signalled.None? ==> At(run[|evs|], p, StopLocked) && Shows(run[|evs|], env.runtime.record, env.fiberDaemon, env.stores)
  {
    ghost var record, daemon, stores := env.runtime.record, env.fiberDaemon, env.stores;
    var stopped;
    signalled, stopped := env.StopFiber(world, identityOk, termFails, seen, patience);
    run, evs := StopRun(s, p, record, daemon, stores, world, identityOk, signalled, env.runtime.record, env.fiberDaemon);
  }

  lemma StopRun(s: State, p: Pid, record: Option<M.Entry>, daemon: Option<C.PidRecord>, stores: seq<nat>, world: C.World,
                identityOk: Pid -> bool, signalled: Option<Pid>, record': Option<M.Entry>, daemon': Option<C.PidRecord>)
    returns (run: seq<State>, evs: seq<Event>)
    requires Shows(s, record, daemon, stores) && At(s, p, StopLocked)
    requires HonestWorld(s, world) && HonestIdentity(s, p, world, identityOk)
    requires signalled.Some? ==>
               || (C.Signallable(daemon, world, identityOk) && signalled.value == daemon.value.pid)
               || (world.probe(signalled.value) == Alive && identityOk(signalled.value) && C.LiveManagerOf(record, world) == signalled)
    requires signalled.None? ==>
               && (daemon' == daemon || (daemon' == None && C.DaemonGone(daemon, world)))
               && (record' == record || (record' == None && C.LiveManagerOf(record, world).None?))
    ensures Steps(run, evs) && run[0] == s
    ensures signalled.Some? ==> exists viaFile :: At(run[|evs|], p, StopWaiting(signalled.value, viaFile))
    ensures signalled.None? ==> At(run[|evs|], p, StopLocked) && Shows(run[|evs|], record', daemon', stores)
  {
    hide Enabled, Apply, HonestWorld;
    run, evs := [s], [];
    if signalled.Some? {
      var viaFile := C.Signallable(daemon, world, identityOk) && signalled.value == daemon.value.pid;
      SignalledIsTarget(s, p, signalled.value, record, daemon, stores, world, identityOk, viaFile);
      run, evs := Extend(run, evs, Target(p, signalled.value, viaFile));
      assert At(run[|evs|], p, StopWaiting(signalled.value, viaFile));
    } else {
      if daemon' != daemon {
        DroppedFile(s, p, daemon, world);
        run, evs := Extend(run, evs, DropStalePidFile(p, Dead));
        HonestStays(s, run[|evs|], p, world);
      }
      if record' != record {
        DroppedRecord(run[|evs|], p, record, world);
        run, evs := Extend(run, evs, DropStaleRecord(p, Dead));
      }
    }
  }
}
