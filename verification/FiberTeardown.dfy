/**
 Failed and signalled startups and stopping managers: what a process leaves
 behind when it ends, in any interleaving of its main flow, its signal
 handlers and the other processes.
 */
module FiberTeardown {
  import opened EnvLock
  import opened FiberProtocol

  /** Nothing of the process is left behind. */
  ghost predicate Tidy(s: State, p: Pid) {
    !HasChildren(s, p) && !(s.runtime.Managed? && s.runtime.pid == p)
  }

  ghost predicate Ended(s: State, p: Pid) {
    p in s.procs && (!s.procs[p].alive || s.procs[p].pc == Done)
  }

  lemma DoneIsTidy(s: State, p: Pid)
    requires TeardownInv(s) && p in s.procs && s.procs[p].pc == Done
    ensures Tidy(s, p)
  {
    forall f ensures !LiveChild(s, f, p) {
    }
  }

  // ---- repeated signals ----

  /** Which kinds of signal have arrived since the handlers were last installed. */
  function Heard(ev: Event, p: Pid, heard: set<Kind>): set<Kind> {
    if ev == Ready(p) then {}
    else if ev.Signal? && ev.p == p then heard + {ev.kind}
    else heard
  }

  /** A kind of signal arrives again while the process still has something to take down. */
  ghost predicate Repeats(s: State, evs: seq<Event>, p: Pid, heard: set<Kind>)
    requires Runs(s, evs)
    decreases |evs|
  {
    evs != [] &&
    (|| (evs[0].Signal? && evs[0].p == p && evs[0].kind in heard && !Tidy(s, p))
     || Repeats(Apply(s, evs[0]), evs[1..], p, Heard(evs[0], p, heard)))
  }

  /** The process has FNNs to look after, and handlers for the kinds not heard. */
  predicate Minding(s: State, p: Pid, heard: set<Kind>) {
    AliveIn(s, p) && MayHaveChildren(s.procs[p].pc) && s.procs[p].handlers == BOTH - heard
  }

  /** The state in which the process has ended, or the last one of the run. */
  ghost function EndOf(s: State, evs: seq<Event>, p: Pid): State
    requires Runs(s, evs)
    decreases |evs|
  {
    if evs == [] || Ended(s, p) then s else EndOf(Apply(s, evs[0]), evs[1..], p)
  }

  lemma ArmedForBoth(kind: Kind)
    ensures kind in BOTH
  {
  }

  /** A step of the process keeps its handlers to the kinds not heard, unless it ends. */
  lemma MindingMoves(s: State, ev: Event, p: Pid, heard: set<Kind>)
    requires Minding(s, p, heard) && Enabled(s, ev) && By(ev, p) && !ev.Crash? && !ev.Launch?
    requires !(ev.Signal? && ev.kind in heard)
    ensures ProcAfter(s, ev).pc == Done || (ProcAfter(s, ev).alive && MayHaveChildren(ProcAfter(s, ev).pc))
    ensures ProcAfter(s, ev).pc != Done ==> ProcAfter(s, ev).handlers == BOTH - Heard(ev, p, heard)
  {
    if ev.Signal? {
      ArmedForBoth(ev.kind);
      assert (BOTH - heard) - {ev.kind} == BOTH - (heard + {ev.kind});
    }
    assert BOTH - {} == BOTH;
  }

  lemma TidyOfSame(s: State, s': State, p: Pid)
    requires s'.fnns == s.fnns && s'.runtime == s.runtime
    ensures Tidy(s', p) <==> Tidy(s, p)
  {
    assert forall f :: LiveChild(s', f, p) <==> LiveChild(s, f, p);
  }

  /** A process that has ended does nothing but exit. */
  lemma EndedStays(s: State, ev: Event, p: Pid)
    requires TeardownInv(s) && Enabled(s, ev) && Ended(s, p)
    ensures Ended(Apply(s, ev), p)
    ensures Tidy(s, p) ==> Tidy(Apply(s, ev), p)
  {
    StepTeardown(s, ev);
    if s.procs[p].pc == Done {
      DoneIsTidy(Apply(s, ev), p);
    } else {
      DeadDoesNothing(s, ev, p);
      OthersKeep(s, ev, p);
      if Tidy(s, p) { NothingAdded(s, ev, p); }
    }
  }

  lemma DeadDoesNothing(s: State, ev: Event, p: Pid)
    requires Enabled(s, ev) && p in s.procs && !s.procs[p].alive
    ensures !By(ev, p)
  {
  }

  lemma NothingAdded(s: State, ev: Event, p: Pid)
    requires Enabled(s, ev) && !By(ev, p) && Tidy(s, p)
    ensures Tidy(Apply(s, ev), p)
  {
    var s' := Apply(s, ev);
    assert s'.fnns == FnnsAfter(s, ev) && s'.runtime == RuntimeAfter(s, ev);
    hide Enabled, Apply, FnnsAfter, RuntimeAfter;
    forall f ensures !LiveChild(s', f, p) {
      assert !LiveChild(s, f, p);
      if LiveChild(s', f, p) { FnnStep(s, ev, f); }
    }
    if s'.runtime.Managed? && s'.runtime.pid == p { RuntimeStep(s, ev); }
  }

  lemma {:induction false} TidyForGood(s: State, evs: seq<Event>, p: Pid, heard: set<Kind>)
    requires TeardownInv(s) && Runs(s, evs) && Ended(s, p)
    ensures Ended(After(s, evs), p)
    ensures Tidy(s, p) ==> Tidy(After(s, evs), p)
    ensures !Repeats(s, evs, p, heard)
    decreases |evs|
  {
    if evs != [] {
      EndedStays(s, evs[0], p);
      StepTeardown(s, evs[0]);
      if s.procs[p].pc == Done { DoneIsTidy(s, p); }
      if !s.procs[p].alive { DeadDoesNothing(s, evs[0], p); }
      hide Enabled, Apply, Tidy;
      TidyForGood(Apply(s, evs[0]), evs[1..], p, Heard(evs[0], p, heard));
    }
  }

  /**
   What a process leaves behind when it ends, given that it does not crash:
   nothing, if and only if no kind of signal arrives twice before its FNNs are
   dead and its record gone. From any point after it began to spawn.
   */
  lemma {:induction false} TeardownExact(s: State, evs: seq<Event>, p: Pid, heard: set<Kind>)
    requires TeardownInv(s) && Runs(s, evs) && Minding(s, p, heard)
    requires Crash(p) !in evs && Ended(After(s, evs), p)
    ensures Ended(EndOf(s, evs, p), p)
    ensures Tidy(EndOf(s, evs, p), p) <==> !Repeats(s, evs, p, heard)
    ensures !Repeats(s, evs, p, heard) ==> Tidy(After(s, evs), p)
    decreases |evs|
  {
    assert evs != [];
    var ev := evs[0];
    var s' := Apply(s, ev);
    var heard' := Heard(ev, p, heard);
    StepTeardown(s, ev);
    assert Crash(p) !in evs[1..];
    if ev.Signal? && ev.p == p && ev.kind in heard {
      TidyOfSame(s, s', p);
      hide Enabled, Apply, Tidy;
      TidyForGood(s', evs[1..], p, heard');
    } else {
      StepsOn(s, ev, p, heard);
      hide Enabled, Apply, Tidy;
      if Ended(s', p) {
        DoneIsTidy(s', p);
        TidyForGood(s', evs[1..], p, heard');
      } else {
        TeardownExact(s', evs[1..], p, heard');
      }
    }
  }

  lemma StepsOn(s: State, ev: Event, p: Pid, heard: set<Kind>)
    requires Minding(s, p, heard) && Enabled(s, ev) && ev != Crash(p)
    requires !(ev.Signal? && ev.p == p && ev.kind in heard)
    ensures var s' := Apply(s, ev);
            p in s'.procs && (s'.procs[p].pc == Done || Minding(s', p, Heard(ev, p, heard)))
  {
    if By(ev, p) {
      FreshOnly(s, ev, p);
      ActorMoves(s, ev, p);
      MindingMoves(s, ev, p, heard);
    } else {
      OthersKeep(s, ev, p);
    }
  }

  lemma FreshOnly(s: State, ev: Event, p: Pid)
    requires Enabled(s, ev) && By(ev, p) && p in s.procs
    ensures !ev.Launch?
  {
  }

  // ---- and it does end ----

  /** The process has failed to start, received a signal, or begun to stop. */
  predicate Committed(s: State, p: Pid) {
    && p in s.procs
    && var proc := s.procs[p];
       proc.pc.Rollback? || proc.pc.Stopping? || proc.pc.Done? || proc.cleanup
  }

  function StepsLeft(pc: Pc): nat {
    match pc
    case Waiting => 3
    case Supervising => 2
    case Rollback => 1
    case Stopping => 1
    case _ => 0
  }

  /** Steps of the process itself, not what others do to it. */
  function OwnSteps(evs: seq<Event>, p: Pid): nat {
    if evs == [] then 0
    else (if By(evs[0], p) && !evs[0].Signal? then 1 else 0) + OwnSteps(evs[1..], p)
  }

  /** A step of a committed process, or a signal it still handles, leaves it committed and no further from its end. */
  lemma CommittedMoves(s: State, ev: Event, p: Pid, heard: set<Kind>)
    requires CleanupInv(s) && Enabled(s, ev) && By(ev, p) && !ev.Crash?
    requires Committed(s, p) && Minding(s, p, heard) && !(ev.Signal? && ev.kind in heard)
    ensures Committed(Apply(s, ev), p)
    ensures StepsLeft(Apply(s, ev).procs[p].pc) <= StepsLeft(s.procs[p].pc)
    ensures !ev.Signal? ==> StepsLeft(Apply(s, ev).procs[p].pc) < StepsLeft(s.procs[p].pc)
  {
    ActorMoves(s, ev, p);
    FreshOnly(s, ev, p);
    hide LockAfter, RuntimeAfter, DaemonAfter, FnnsAfter, StoresAfter, ProcsAfter, Apply;
    var pc := s.procs[p].pc;
    assert pc.Waiting? || pc.Rollback? || pc.Supervising? || pc.Stopping?;
  }

  /** Teardown never blocks: some finishing step of the process itself is always possible. */
  lemma TeardownCanFinish(s: State, p: Pid, heard: set<Kind>) returns (ev: Event)
    requires CleanupInv(s) && Committed(s, p) && Minding(s, p, heard)
    ensures Enabled(s, ev) && By(ev, p) && !ev.Signal? && !ev.Crash?
    ensures p in Apply(s, ev).procs && Apply(s, ev).procs[p].pc == Done
  {
    ev := if s.procs[p].cleanup then SignalCleanupDone(p)
          else if s.procs[p].pc.Rollback? then RolledBack(p)
          else StopDone(p, true);
    ActorMoves(s, ev, p);
  }

  lemma {:induction false} EndsInTime(s: State, evs: seq<Event>, p: Pid, heard: set<Kind>)
    requires TeardownInv(s) && Runs(s, evs) && Committed(s, p) && Minding(s, p, heard)
    requires Crash(p) !in evs && OwnSteps(evs, p) >= StepsLeft(s.procs[p].pc)
    ensures Ended(After(s, evs), p)
    decreases |evs|
  {
    assert evs != [];
    var ev := evs[0];
    var s' := Apply(s, ev);
    var heard' := Heard(ev, p, heard);
    StepTeardown(s, ev);
    assert Crash(p) !in evs[1..];
    if ev.Signal? && ev.p == p && ev.kind in heard {
      TidyForGood(s', evs[1..], p, heard');
    } else {
      StepsOn(s, ev, p, heard);
      if By(ev, p) {
        assert ev != Crash(p);
        CommittedMoves(s, ev, p, heard);
      } else {
        OthersKeep(s, ev, p);
      }
      hide Enabled, Apply, StepsLeft;
      if Ended(s', p) {
        TidyForGood(s', evs[1..], p, heard');
      } else {
        EndsInTime(s', evs[1..], p, heard');
      }
    }
  }

  /**
   From any point where startup failed, a signal arrived or stopping began, in
   any interleaving: after at most `StepsLeft` further steps of its own the
   process has ended, and unless a signal repeated its FNNs are dead and the
   record does not name it.
   */
  lemma TeardownFinishes(s: State, evs: seq<Event>, p: Pid, heard: set<Kind>)
    requires TeardownInv(s) && Runs(s, evs) && Committed(s, p) && Minding(s, p, heard)
    requires Crash(p) !in evs && OwnSteps(evs, p) >= StepsLeft(s.procs[p].pc)
    ensures Ended(After(s, evs), p)
    ensures !Repeats(s, evs, p, heard) ==> Tidy(After(s, evs), p)
  {
    EndsInTime(s, evs, p, heard);
    TeardownExact(s, evs, p, heard);
  }
}
