/**
 Concrete runs of the Fiber protocol: what `fiber stop` does to the record of
 a manager it did not target, and what a repeated signal does to a manager.
 */
module FiberRuns {
  import opened EnvLock
  import opened FiberProtocol

  /** A run listed state by state. */
  ghost predicate Steps(run: seq<State>, evs: seq<Event>) {
    && |run| == |evs| + 1
    && forall k :: 0 <= k < |evs| ==> Enabled(run[k], evs[k]) && run[k + 1] == Apply(run[k], evs[k])
  }

  lemma Extend(run: seq<State>, evs: seq<Event>, ev: Event) returns (run': seq<State>, evs': seq<Event>)
    requires Steps(run, evs) && Enabled(run[|evs|], ev)
    ensures Steps(run', evs') && run'[0] == run[0] && evs' == evs + [ev]
    ensures |run'| == |evs'| + 1 && run'[|evs'|] == Apply(run[|evs|], ev)
  {
    hide Enabled, Apply;
    run', evs' := run + [Apply(run[|evs|], ev)], evs + [ev];
  }

  lemma Join(run: seq<State>, evs: seq<Event>, run2: seq<State>, evs2: seq<Event>)
    returns (run': seq<State>, evs': seq<Event>)
    requires Steps(run, evs) && Steps(run2, evs2) && run[|evs|] == run2[0]
    ensures Steps(run', evs') && run'[0] == run[0]
    ensures |run'| == |evs'| + 1 && run'[|evs'|] == run2[|evs2|]
    ensures evs' == evs + evs2
  {
    hide Enabled, Apply;
    run', evs' := run + run2[1..], evs + evs2;
    forall k | 0 <= k < |evs'| ensures Enabled(run'[k], evs'[k]) && run'[k + 1] == Apply(run'[k], evs'[k]) {
      if k >= |evs| {
        assert run'[k] == run2[k - |evs|];
      }
    }
  }

  // ---- managers and stoppers ----

  lemma Launched(s: State, p: Pid)
    requires !Mentions(s, p)
    ensures Enabled(s, Launch(p, false))
    ensures Apply(s, Launch(p, false)) == s.(procs := s.procs[p := Proc(true, Idle, false, {}, false)])
  {
  }

  lemma LockedAndChecked(s: State, p: Pid)
    requires At(s, p, Idle) && s.procs[p] == Proc(true, Idle, false, {}, false) && s.lock == Absent && s.runtime == NoRecord
    ensures Enabled(s, Acquire(p, CannotTell, StartLocked))
    ensures var t := Apply(s, Acquire(p, CannotTell, StartLocked));
            && t == s.(lock := Record(p), procs := s.procs[p := Proc(true, StartLocked, false, {}, false)])
            && Enabled(t, CheckManager(p, CannotTell, CannotTell))
            && Apply(t, CheckManager(p, CannotTell, CannotTell)) ==
                 s.(lock := Record(p), procs := s.procs[p := Proc(true, StartChecked, false, {}, false)])
  {
    var one, two := Proc(true, StartLocked, false, {}, false), Proc(true, StartChecked, false, {}, false);
    assert s.procs[p := one][p := two] == s.procs[p := two];
  }

  lemma StarterChecks(s: State, p: Pid) returns (run: seq<State>, evs: seq<Event>)
    requires !Mentions(s, p) && s.lock == Absent && s.runtime == NoRecord
    ensures Steps(run, evs) && run[0] == s && Crash(p) !in evs
    ensures run[|evs|] == s.(lock := Record(p), procs := s.procs[p := Proc(true, StartChecked, false, {}, false)])
  {
    hide Enabled, Apply, Mentions;
    Launched(s, p);
    run, evs := Extend([s], [], Launch(p, false));
    var idle, checked := Proc(true, Idle, false, {}, false), Proc(true, StartChecked, false, {}, false);
    LockedAndChecked(run[|evs|], p);
    run, evs := Extend(run, evs, Acquire(p, CannotTell, StartLocked));
    run, evs := Extend(run, evs, CheckManager(p, CannotTell, CannotTell));
    assert s.procs[p := idle][p := checked] == s.procs[p := checked];
  }

  lemma StarterWaits(s: State, p: Pid, f: FnnId, n: NodeId) returns (run: seq<State>, evs: seq<Event>)
    requires !Mentions(s, p) && s.lock == Absent && f !in s.fnns && s.runtime == NoRecord
    ensures Steps(run, evs) && run[0] == s && Crash(p) !in evs
    ensures run[|evs|] == s.(lock := Record(p),
                             procs := s.procs[p := Proc(true, Waiting, false, BOTH, false)],
                             runtime := Managed(p, false),
                             fnns := s.fnns[f := Fnn(p, n, true)],
                             stores := s.stores + {n})
  {
    run, evs := StarterChecks(s, p);
    assert |run| == |evs| + 1;
    hide Enabled, Apply, Steps;
    run, evs := Extend(run, evs, Spawn(p, f, n));
    Records(run[|evs|], p);
    run, evs := Extend(run, evs, WriteStarting(p));
    assert s.procs[p := Proc(true, StartChecked, false, {}, false)][p := Proc(true, Spawning, false, BOTH, false)]
                  [p := Proc(true, Waiting, false, BOTH, false)] == s.procs[p := Proc(true, Waiting, false, BOTH, false)];
  }

  lemma Records(s: State, p: Pid)
    requires p in s.procs && s.procs[p] == Proc(true, Spawning, false, BOTH, false)
    ensures Enabled(s, WriteStarting(p))
    ensures Apply(s, WriteStarting(p)) == s.(procs := s.procs[p := Proc(true, Waiting, false, BOTH, false)], runtime := Managed(p, false))
  {
  }

  /** A manager comes up: lock, check, one FNN, record, ready. */
  lemma ManagerComesUp(s: State, p: Pid, f: FnnId, n: NodeId) returns (run: seq<State>, evs: seq<Event>)
    requires !Mentions(s, p) && s.lock == Absent && f !in s.fnns && s.runtime == NoRecord
    ensures Steps(run, evs) && run[0] == s
    ensures run[|evs|] == s.(procs := s.procs[p := Proc(true, Supervising, false, BOTH, false)],
                             runtime := Managed(p, true),
                             fnns := s.fnns[f := Fnn(p, n, true)],
                             stores := s.stores + {n})
  {
    run, evs := StarterWaits(s, p, f, n);
    run, evs := Extend(run, evs, Ready(p));
  }

  lemma LauncherReserves(s: State, p: Pid) returns (run: seq<State>, evs: seq<Event>)
    requires !Mentions(s, p) && s.daemon == NoPidFile
    ensures Steps(run, evs) && run[0] == s
    ensures run[|evs|] == s.(daemon := Daemon(p, p, Starting), procs := s.procs[p := Proc(true, Reserved, false, {}, false)])
  {
    run, evs := [s], [];
    run, evs := Extend(run, evs, Launch(p, false));
    run, evs := Extend(run, evs, Reserve(p, CannotTell));
  }

  lemma LauncherAdopts(s: State, p: Pid, child: Pid) returns (run: seq<State>, evs: seq<Event>)
    requires At(s, p, Reserved) && !Mentions(s, child)
    ensures Steps(run, evs) && run[0] == s
    ensures run[|evs|] == s.(daemon := Daemon(child, p, Starting),
                             procs := s.procs[child := Proc(true, Idle, false, {}, true)]
                                             [p := s.procs[p].(pc := Launching(child), alive := false)])
  {
    run, evs := [s], [];
    run, evs := Extend(run, evs, Launch(child, true));
    run, evs := Extend(run, evs, Adopt(p, child));
    run, evs := Extend(run, evs, Crash(p));
  }

  /** A launcher dies after recording its child. */
  lemma LauncherDies(s: State, p: Pid, child: Pid) returns (run: seq<State>, evs: seq<Event>)
    requires !Mentions(s, p) && !Mentions(s, child) && p != child && s.daemon == NoPidFile
    ensures Steps(run, evs) && run[0] == s
    ensures run[|evs|] == s.(daemon := Daemon(child, p, Starting),
                             procs := s.procs[child := Proc(true, Idle, false, {}, true)]
                                             [p := Proc(false, Launching(child), false, {}, false)])
  {
    run, evs := LauncherReserves(s, p);
    assert |run| == |evs| + 1;
    var more, moreEvs := LauncherAdopts(run[|evs|], p, child);
    hide Enabled, Apply, Steps;
    run, evs := Join(run, evs, more, moreEvs);
  }

  lemma StartRefused(s: State, p: Pid)
    requires At(s, p, Idle) && s.lock == Absent
    ensures Enabled(s, Acquire(p, CannotTell, StartLocked))
    ensures var t := Apply(s, Acquire(p, CannotTell, StartLocked));
            Enabled(t, Refuse(p)) && Apply(t, Refuse(p)) == s.(procs := s.procs[p := s.procs[p].(pc := Done)])
  {
    var locked, done := s.procs[p].(pc := StartLocked), s.procs[p].(pc := Done);
    assert s.procs[p := locked][p := done] == s.procs[p := done];
  }

  lemma WindowPasses(s: State, launcher: Pid, p: Pid)
    requires s.daemon == Daemon(p, launcher, Starting) && !AliveIn(s, launcher) && At(s, p, Done)
    ensures Enabled(s, WindowOver) && Apply(s, WindowOver) == s.(daemon := Daemon(p, launcher, Expired))
  {
  }

  /** Its child fails to start without exiting, and the startup window passes. */
  lemma ChildLingers(s: State, launcher: Pid, p: Pid) returns (run: seq<State>, evs: seq<Event>)
    requires s.daemon == Daemon(p, launcher, Starting) && s.lock == Absent && p != launcher
    requires At(s, p, Idle) && s.procs[p].daemon && !AliveIn(s, launcher)
    ensures Steps(run, evs) && run[0] == s
    ensures run[|evs|] == s.(daemon := Daemon(p, launcher, Expired), procs := s.procs[p := s.procs[p].(pc := Done)])
  {
    hide Enabled, Apply;
    StartRefused(s, p);
    run, evs := Extend([s], [], Acquire(p, CannotTell, StartLocked));
    run, evs := Extend(run, evs, Refuse(p));
    WindowPasses(run[|evs|], launcher, p);
    run, evs := Extend(run, evs, WindowOver);
  }

  lemma StopComesUp(s: State, p: Pid) returns (run: seq<State>, evs: seq<Event>)
    requires !Mentions(s, p) && s.lock == Absent
    ensures Steps(run, evs) && run[0] == s
    ensures run[|evs|] == s.(lock := Record(p), procs := s.procs[p := Proc(true, StopLocked, false, {}, false)])
  {
    run, evs := [s], [];
    run, evs := Extend(run, evs, Launch(p, false));
    run, evs := Extend(run, evs, Acquire(p, CannotTell, StopLocked));
  }

  /** `fiber stop` kills its target and drops the record and, for a PID file's process, that file. */
  lemma TargetStopped(s: State, p: Pid, q: Pid, viaFile: bool) returns (run: seq<State>, evs: seq<Event>)
    requires Enabled(s, Target(p, q, viaFile)) && s.lock == Record(p)
    ensures Steps(run, evs) && run[0] == s && evs == [Target(p, q, viaFile), Crash(q), TargetGone(p, Dead)]
    ensures run[3] == s.(lock := Absent, runtime := NoRecord,
                         daemon := if viaFile then NoPidFile else s.daemon,
                         procs := s.procs[q := s.procs[q].(alive := false)][p := s.procs[p].(pc := Done)])
  {
    run, evs := [s], [];
    run, evs := Extend(run, evs, Target(p, q, viaFile));
    run, evs := Extend(run, evs, Crash(q));
    run, evs := Extend(run, evs, TargetGone(p, Dead));
  }

  /** The record is lost; it was a live manager's exactly when the target was a lingering process beside one. */
  lemma StopLosesTheRecord(s: State, p: Pid, q: Pid, viaFile: bool) returns (run: seq<State>, evs: seq<Event>)
    requires Inv(s) && Enabled(s, Target(p, q, viaFile))
    ensures Steps(run, evs) && run[0] == s && evs == [Target(p, q, viaFile), Crash(q), TargetGone(p, Dead)]
    ensures run[3].runtime == NoRecord
    ensures (LiveRecord(s) && AliveIn(run[3], s.runtime.pid)) <==> (Lingers(s, q) && LiveRecord(s))
  {
    assert s.lock == Record(p);
    run, evs := TargetStopped(s, p, q, viaFile);
    TargetOrLingers(s, p, q, viaFile);
    if LiveRecord(s) { StopperIsNotRecorded(s, p); }
  }

  lemma StopperIsNotRecorded(s: State, p: Pid)
    requires Inv(s) && LiveRecord(s) && At(s, p, StopLocked)
    ensures s.runtime.pid != p
  {
  }

  /** From there `fiber stop`, sent after the lingerer, removes the manager's record, and the next start goes ahead. */
  lemma RecordGone(s: State) returns (run: seq<State>, evs: seq<Event>)
    requires s.lock == Absent && s.runtime == Managed(2, true) && s.daemon == Daemon(1, 0, Expired)
    requires !Mentions(s, 3) && At(s, 1, Done) && AliveIn(s, 2) && LiveChild(s, 0, 2)
    ensures Steps(run, evs) && run[0] == s
    ensures var t := run[|evs|];
            t.lock == Absent && t.runtime == NoRecord && t.fnns == s.fnns && t.daemon == NoPidFile
            && t.procs.Keys == s.procs.Keys + {3} && AliveIn(t, 2)
  {
    hide Enabled, Apply, Steps, Mentions;
    run, evs := StopComesUp(s, 3);
    var more, moreEvs := TargetStopped(run[|evs|], 3, 1, true);
    run, evs := Join(run, evs, more, moreEvs);
  }

  /**
   Where the condition fails, so does single ownership: a launcher dies, its
   child fails and lingers past the startup window, a manager comes up, and
   `fiber stop`, sent after the child, removes that manager's record.
   */
  lemma LingeringTargetBreaksOwnership(s: State) returns (run: seq<State>, evs: seq<Event>)
    requires s == State(Absent, NoRecord, NoPidFile, map[], map[], {})
    ensures Init(s) && Steps(run, evs) && run[0] == s
    ensures var t := run[|evs|];
            AliveIn(t, 2) && HasChildren(t, 2) && AliveIn(t, 4) && HasChildren(t, 4)
  {
    run, evs := LingererBesideManager(s);
    assert |run| == |evs| + 1;
    hide Enabled, Apply, Steps;
    var more, moreEvs := RecordGone(run[|evs|]);
    run, evs := Join(run, evs, more, moreEvs);
    more, moreEvs := ManagerComesUp(run[|evs|], 4, 1, 2);
    run, evs := Join(run, evs, more, moreEvs);
    assert LiveChild(run[|evs|], 0, 2) && LiveChild(run[|evs|], 1, 4);
  }

  lemma LingererBesideManager(s: State) returns (run: seq<State>, evs: seq<Event>)
    requires s == State(Absent, NoRecord, NoPidFile, map[], map[], {})
    ensures Init(s) && Steps(run, evs) && run[0] == s
    ensures run[|evs|] == State(Absent, Managed(2, true), Daemon(1, 0, Expired),
                                map[0 := Proc(false, Launching(1), false, {}, false),
                                    1 := Proc(true, Done, false, {}, true),
                                    2 := Proc(true, Supervising, false, BOTH, false)],
                                map[0 := Fnn(2, 1, true)], {1})
  {
    run, evs := LauncherDies(s, 0, 1);
    assert |run| == |evs| + 1;
    hide Enabled, Apply, Steps;
    var more, moreEvs := ChildLingers(run[|evs|], 0, 1);
    run, evs := Join(run, evs, more, moreEvs);
    more, moreEvs := ManagerComesUp(run[|evs|], 2, 0, 1);
    run, evs := Join(run, evs, more, moreEvs);
  }

  // ---- repeated signals ----

  /** During startup a second signal of one kind kills the process in its cleanup, and the FNNs outlive it. */
  lemma SecondSignalOrphans(s: State, kind: Kind) returns (run: seq<State>, evs: seq<Event>)
    requires s == State(Absent, NoRecord, NoPidFile, map[], map[], {})
    ensures Init(s) && Steps(run, evs) && run[0] == s
    ensures |evs| >= 2 && evs[|evs| - 2] == Signal(1, kind) && evs[|evs| - 1] == Signal(1, kind) && Crash(1) !in evs
    ensures var t := run[|evs|]; !AliveIn(t, 1) && HasChildren(t, 1) && t.runtime == Managed(1, false)
  {
    run, evs := StarterWaits(s, 1, 0, 1);
    hide Steps;
    ghost var before := evs;
    run, evs := Extend(run, evs, Signal(1, kind));
    run, evs := Extend(run, evs, Signal(1, kind));
    assert evs == before + [Signal(1, kind)] + [Signal(1, kind)];
    assert LiveChild(run[|evs|], 0, 1);
  }

  /** The same while a manager is stopping. */
  lemma SecondSignalOrphansManaged(s: State, kind: Kind) returns (run: seq<State>, evs: seq<Event>)
    requires s == State(Absent, NoRecord, NoPidFile, map[], map[], {})
    ensures Init(s) && Steps(run, evs) && run[0] == s
    ensures |evs| >= 2 && evs[|evs| - 2] == Signal(1, kind) && evs[|evs| - 1] == Signal(1, kind)
    ensures var t := run[|evs|]; !AliveIn(t, 1) && HasChildren(t, 1) && t.runtime == Managed(1, true)
  {
    run, evs := ManagerComesUp(s, 1, 0, 1);
    hide Steps;
    ghost var before := evs;
    run, evs := Extend(run, evs, Signal(1, kind));
    run, evs := Extend(run, evs, Signal(1, kind));
    assert evs == before + [Signal(1, kind)] + [Signal(1, kind)];
    assert LiveChild(run[|evs|], 0, 1);
  }

  // ---- a start that keeps the lock ----

  /** The ends of a locked part, but for dying in it. */
  lemma WhoLeaves(s: State, ev: Event, p: Pid)
    requires Enabled(s, ev) && By(ev, p) && AliveIn(s, p) && InLock(s.procs[p].pc)
    requires ProcAfter(s, ev).alive && !InLock(ProcAfter(s, ev).pc)
    ensures ev.ReturnLocked? || ev.Refuse? || ev.Ready? || ev.RolledBack? || ev.TargetGone?
  {
  }

  lemma WhoDies(s: State, ev: Event, p: Pid)
    requires Enabled(s, ev) && By(ev, p) && AliveIn(s, p) && InLock(s.procs[p].pc) && !ProcAfter(s, ev).alive
    ensures LockAfter(s, ev) == s.lock
  {
  }

  /** The process leaves its locked part with this step, by ending it or by ending altogether. */
  predicate Leaves(s: State, ev: Event, p: Pid) {
    && Enabled(s, ev) && By(ev, p) && AliveIn(s, p) && InLock(s.procs[p].pc)
    && !(ProcAfter(s, ev).alive && InLock(ProcAfter(s, ev).pc))
  }

  /**
   The lock file still names a process that has left its locked part exactly if
   the process is dead, killed or by its own signal cleanup, or found the
   contracts missing.
   */
  lemma LockKeptAtEnd(s: State, ev: Event, p: Pid)
    requires LockInv(s) && Leaves(s, ev, p)
    ensures Apply(s, ev).lock == if !ProcAfter(s, ev).alive || ev.ReturnLocked? then Record(p) else Absent
  {
    assert s.lock == Record(p);
    if ProcAfter(s, ev).alive {
      WhoLeaves(s, ev, p);
    } else {
      WhoDies(s, ev, p);
    }
    hide Enabled, ProcAfter, RuntimeAfter, DaemonAfter, FnnsAfter, StoresAfter, ProcsAfter;
  }

  /** Of all these ends only that one keeps others out: after any other the next start may take the lock. */
  lemma OnlyMissingContractsShutOut(s: State, ev: Event, p: Pid, q: Pid)
    requires LockInv(s) && Leaves(s, ev, p) && q != p && At(s, q, Idle)
    ensures (exists probe :: Enabled(Apply(s, ev), Acquire(q, probe, StartLocked))) <==> !ev.ReturnLocked?
  {
    LockKeptAtEnd(s, ev, p);
    ActorMoves(s, ev, p);
    OthersKeep(s, ev, q);
    if ev.ReturnLocked? { ReturnerLives(s, ev); }
    var t := Apply(s, ev);
    hide Apply, ProcAfter, LockAfter;
    assert !ev.ReturnLocked? ==> Enabled(t, Acquire(q, Dead, StartLocked));
  }

  lemma ReturnerLives(s: State, ev: Event)
    requires Enabled(s, ev) && ev.ReturnLocked?
    ensures ProcAfter(s, ev).alive && ProcAfter(s, ev).pc == Done
  {
  }

  lemma DoneOnlyEnds(s: State, ev: Event, p: Pid)
    requires p in s.procs && s.procs[p].pc == Done && Enabled(s, ev) && By(ev, p)
    ensures ProcAfter(s, ev).pc == Done && LockAfter(s, ev) == s.lock
  {
    assert ev.Crash? || ev.Signal? || ev.SignalCleanupDone?;
  }

  lemma OthersLeaveLock(s: State, ev: Event, p: Pid)
    requires s.lock == Record(p) && AliveIn(s, p) && Enabled(s, ev) && !By(ev, p)
    ensures LockAfter(s, ev) == Record(p)
  {
  }

  lemma ShutStep(s: State, ev: Event, p: Pid)
    requires s.lock == Record(p) && p in s.procs && s.procs[p].pc == Done && Enabled(s, ev)
    ensures p in Apply(s, ev).procs && Apply(s, ev).procs[p].pc == Done
    ensures s.procs[p].alive ==> Apply(s, ev).lock == Record(p)
  {
    if By(ev, p) {
      DoneOnlyEnds(s, ev, p);
      ActorMoves(s, ev, p);
    } else {
      if s.procs[p].alive { OthersLeaveLock(s, ev, p); }
      OthersKeep(s, ev, p);
    }
    hide Enabled, ProcAfter, LockAfter, RuntimeAfter, DaemonAfter, FnnsAfter, StoresAfter;
  }

  /** That end shuts everybody out for as long as the process lingers, over every run. */
  lemma {:induction false} ShutOutWhileLingering(s: State, evs: seq<Event>, p: Pid, q: Pid, probe: Probe, next: Pc)
    requires s.lock == Record(p) && p in s.procs && s.procs[p].pc == Done && Runs(s, evs)
    requires AliveIn(After(s, evs), p)
    ensures AliveIn(s, p) && After(s, evs).lock == Record(p)
    ensures !Enabled(After(s, evs), Acquire(q, probe, next))
    decreases evs
  {
    if evs != [] {
      ShutStep(s, evs[0], p);
      var t := Apply(s, evs[0]);
      hide Enabled, Apply;
      if s.procs[p].alive {
        ShutOutWhileLingering(t, evs[1..], p, q, probe, next);
      } else {
        DeadStaysDead(t, evs[1..], p);
        assert false;
      }
    }
  }

  lemma {:induction false} DeadStaysDead(s: State, evs: seq<Event>, p: Pid)
    requires p in s.procs && !s.procs[p].alive && Runs(s, evs)
    ensures p in After(s, evs).procs && !After(s, evs).procs[p].alive
    decreases evs
  {
    if evs != [] {
      NobodyRevives(s, evs[0], p);
      DeadStaysDead(Apply(s, evs[0]), evs[1..], p);
    }
  }

  lemma NobodyRevives(s: State, ev: Event, p: Pid)
    requires p in s.procs && !s.procs[p].alive && Enabled(s, ev)
    ensures p in Apply(s, ev).procs && !Apply(s, ev).procs[p].alive
  {
    assert !By(ev, p);
    OthersKeep(s, ev, p);
  }

  /** Nobody takes a lock whose recorded process lives, and once that is gone everybody can. */
  lemma KeptUntilGone(s: State, p: Pid, q: Pid, probe: Probe, next: Pc)
    requires s.lock == Record(p) && AliveIn(s, p)
    ensures !Enabled(s, Acquire(q, probe, next))
    ensures q != p && At(s, q, Idle) && probe == Dead && next.StartLocked? ==> Enabled(Apply(s, Crash(p)), Acquire(q, probe, next))
  {
    hide FnnsAfter, RuntimeAfter, DaemonAfter, StoresAfter;
  }

  lemma ReturnsLocked(s: State, p: Pid)
    requires At(s, p, StartLocked)
    ensures Enabled(s, ReturnLocked(p)) && Apply(s, ReturnLocked(p)) == s.(procs := s.procs[p := s.procs[p].(pc := Done)])
  {
  }

  /** A start that finds the contracts missing, and the next one, which cannot take the lock. */
  lemma ShutOutHappens(s: State) returns (run: seq<State>, evs: seq<Event>)
    requires s == State(Absent, NoRecord, NoPidFile, map[], map[], {})
    ensures Init(s) && Steps(run, evs) && run[0] == s && ReturnLocked(1) in evs
    ensures At(run[|evs|], 2, Idle) && forall probe, next :: !Enabled(run[|evs|], Acquire(2, probe, next))
  {
    assert Init(s) && !Mentions(s, 1);
    hide Enabled, Apply, Init;
    Launched(s, 1);
    run, evs := Extend([s], [], Launch(1, false));
    LockedAndChecked(run[|evs|], 1);
    run, evs := Extend(run, evs, Acquire(1, CannotTell, StartLocked));
    ReturnsLocked(run[|evs|], 1);
    run, evs := Extend(run, evs, ReturnLocked(1));
    Launched(run[|evs|], 2);
    run, evs := Extend(run, evs, Launch(2, false));
    forall probe, next ensures !Enabled(run[|evs|], Acquire(2, probe, next)) {
      KeptUntilGone(run[|evs|], 1, 2, probe, next);
    }
  }
}
