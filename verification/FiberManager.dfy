/**
 One manager process: spawning the FNNs, waiting for their RPCs, recording the
 environment, and stopping what was started.
 */
module FiberManager {
  import opened EnvLock
  import opened Options

  /** An FNN child. `heeds` is whether it exits on SIGTERM within the grace period. */
  class Child {
    const id: nat
    const heeds: bool
    var exited: bool
    var terminated: bool
    var forced: bool

    constructor (id: nat, heeds: bool)
      ensures this.id == id && this.heeds == heeds && !exited && !terminated && !forced
    {
      this.id, this.heeds := id, heeds;
      exited, terminated, forced := false, false, false;
    }
  }

  datatype Entry = Entry(managerPid: Pid, running: bool, ids: seq<nat>)

  class RuntimeFile {
    var record: Option<Entry>

    constructor ()
      ensures record == None
    {
      record := None;
    }
  }

  predicate Names(record: Option<Entry>, pid: Pid) {
    record.Some? && record.value.managerPid == pid
  }

  function WithoutOwn(record: Option<Entry>, pid: Pid): (r: Option<Entry>)
    ensures !Names(r, pid)
    ensures !Names(record, pid) ==> r == record
  {
    if Names(record, pid) then None else record
  }

  /**
   One SIGTERM each, a wait for each in turn until the grace period is over
   (`patience` waits fit into it), then SIGKILL for whoever is left.
   */
  method StopFiberNodes(nodes: seq<Child>, file: RuntimeFile, pid: Pid, patience: nat)
    modifies nodes, file
    ensures forall i :: 0 <= i < |nodes| ==> nodes[i].exited
    ensures forall i :: 0 <= i < |nodes| && old(nodes[i].exited) ==>
              nodes[i].terminated == old(nodes[i].terminated) && nodes[i].forced == old(nodes[i].forced)
    ensures forall i :: 0 <= i < |nodes| && nodes[i].forced && !old(nodes[i].forced) ==>
              nodes[i].terminated && (!nodes[i].heeds || i >= patience)
    ensures forall i :: 0 <= i < |nodes| && !old(nodes[i].exited) ==>
              nodes[i].terminated && (!nodes[i].heeds ==> nodes[i].forced)
    ensures file.record == WithoutOwn(old(file.record), pid)
  {
    var i := 0;
    while i < |nodes|
      invariant 0 <= i <= |nodes|
      invariant forall k :: 0 <= k < |nodes| ==> nodes[k].exited == old(nodes[k].exited) && nodes[k].forced == old(nodes[k].forced)
      invariant forall k :: 0 <= k < |nodes| && old(nodes[k].exited) ==> nodes[k].terminated == old(nodes[k].terminated)
      invariant forall k :: 0 <= k < i && !nodes[k].exited ==> nodes[k].terminated
      invariant file.record == old(file.record)
    {
      if !nodes[i].exited && !nodes[i].terminated {
        nodes[i].terminated := true;
      }
      i := i + 1;
    }
    i := 0;
    while i < |nodes|
      invariant 0 <= i <= |nodes| && i <= patience
      invariant forall k :: 0 <= k < |nodes| ==> nodes[k].forced == old(nodes[k].forced)
      invariant forall k :: 0 <= k < |nodes| && old(nodes[k].exited) ==> nodes[k].exited && nodes[k].terminated == old(nodes[k].terminated)
      invariant forall k :: 0 <= k < |nodes| && !old(nodes[k].exited) ==> nodes[k].terminated
      invariant forall k :: 0 <= k < i && nodes[k].heeds ==> nodes[k].exited
      invariant forall k :: 0 <= k < |nodes| && !old(nodes[k].exited) && !nodes[k].heeds ==> !nodes[k].exited
      invariant file.record == old(file.record)
    {
      if i >= patience { break; }
      if !nodes[i].exited && nodes[i].heeds {
        nodes[i].exited := true;
      }
      i := i + 1;
    }
    var reached := i;
    assert reached == |nodes| || reached == patience;
    i := 0;
    while i < |nodes|
      invariant 0 <= i <= |nodes|
      invariant forall k :: 0 <= k < i ==> nodes[k].exited
      invariant forall k :: 0 <= k < |nodes| && old(nodes[k].exited) ==>
          nodes[k].exited && nodes[k].terminated == old(nodes[k].terminated) && nodes[k].forced == old(nodes[k].forced)
      invariant forall k :: 0 <= k < |nodes| && !old(nodes[k].exited) ==> nodes[k].terminated
      invariant forall k :: 0 <= k < reached && nodes[k].heeds ==> nodes[k].exited
      invariant forall k :: 0 <= k < |nodes| && !old(nodes[k].exited) && !nodes[k].heeds && nodes[k].exited ==> nodes[k].forced
      invariant forall k :: 0 <= k < |nodes| && nodes[k].forced && !old(nodes[k].forced) ==> !nodes[k].heeds || k >= patience
      invariant file.record == old(file.record)
    {
      if !nodes[i].exited {
        nodes[i].forced := true;
        nodes[i].exited := true;
      }
      i := i + 1;
    }
    file.record := WithoutOwn(file.record, pid);
  }

  // ---- waiting for the RPCs ----

  /** What polling node `id` in a given round shows. */
  datatype Answer<T> = Silent | Exited | Info(info: T)

  datatype Wait<T> = AllReady(infos: map<nat, T>) | ExitedEarly(id: nat) | TimedOut(pending: seq<nat>)

  predicate SilentBefore<T(==)>(answers: (nat, nat) -> Answer<T>, id: nat, round: nat) {
    forall r :: 0 <= r < round ==> answers(r, id) == Silent
  }

  /** The first thing the node does within the timeout is to answer. */
  predicate AnswersInTime<T(==)>(answers: (nat, nat) -> Answer<T>, id: nat, rounds: nat) {
    exists r :: 0 <= r < rounds && SilentBefore(answers, id, r) && answers(r, id).Info?
  }

  /**
   Polls every pending node once per round, at most `rounds` times. Each node
   is judged by the first thing it does: answering settles it, exiting fails
   the startup.
   */
  method WaitForAllNodeInfo<T(==)>(ids: seq<nat>, answers: (nat, nat) -> Answer<T>, rounds: nat) returns (w: Wait<T>)
    requires forall i, j :: 0 <= i < j < |ids| ==> ids[i] != ids[j]
    ensures w.AllReady? <==> forall id :: id in ids ==> AnswersInTime(answers, id, rounds)
    ensures w.AllReady? ==> w.infos.Keys == set id | id in ids
    ensures w.AllReady? ==> forall id :: id in w.infos ==>
              exists r :: 0 <= r < rounds && SilentBefore(answers, id, r) && answers(r, id) == Info(w.infos[id])
    ensures w.ExitedEarly? ==>
              && w.id in ids
              && exists r :: 0 <= r < rounds && SilentBefore(answers, w.id, r) && answers(r, w.id) == Exited
    ensures w.TimedOut? ==>
              && w.pending != []
              && forall id :: id in w.pending <==> id in ids && SilentBefore(answers, id, rounds)
  {
    var infos: map<nat, T> := map[];
    var pending := ids;
    var round := 0;
    while pending != [] && round < rounds
      invariant 0 <= round <= rounds
      invariant forall i, j :: 0 <= i < j < |pending| ==> pending[i] != pending[j]
      invariant forall id :: id in ids <==> id in pending || id in infos
      invariant forall id :: id in pending ==> id !in infos && SilentBefore(answers, id, round)
      invariant forall id :: id in infos ==>
          exists r :: 0 <= r < round && SilentBefore(answers, id, r) && answers(r, id) == Info(infos[id])
      decreases rounds - round
    {
      var k := 0;
      var still: seq<nat> := [];
      ghost var before := infos;
      while k < |pending|
        invariant 0 <= k <= |pending|
        invariant forall id :: id in still <==> id in pending[..k] && id !in infos
        invariant forall i, j :: 0 <= i < j < |still| ==> still[i] != still[j]
        invariant forall id :: id in infos <==> id in before || (id in pending[..k] && id !in still)
        invariant forall id :: id in before ==> infos[id] == before[id]
        invariant forall id :: id in still ==> answers(round, id) == Silent
        invariant forall id :: id in infos && id !in before ==> id in pending && answers(round, id) == Info(infos[id])
      {
        var id := pending[k];
        assert id !in pending[..k];
        var answer := answers(round, id);
        if answer == Exited {
          assert SilentBefore(answers, id, round) && !AnswersInTime(answers, id, rounds);
          return ExitedEarly(id);
        }
        if answer.Info? {
          infos := infos[id := answer.info];
        } else {
          still := still + [id];
        }
        k := k + 1;
      }
      assert pending[..k] == pending;
      pending := still;
      round := round + 1;
      forall id | id in infos
        ensures exists r :: 0 <= r < round && SilentBefore(answers, id, r) && answers(r, id) == Info(infos[id])
      {
        if id !in before {
          assert SilentBefore(answers, id, round - 1) && answers(round - 1, id) == Info(infos[id]);
        }
      }
    }
    forall id | id in ids && id in infos ensures AnswersInTime(answers, id, rounds) && !SilentBefore(answers, id, rounds) {
      var r :| 0 <= r < round && SilentBefore(answers, id, r) && answers(r, id) == Info(infos[id]);
    }
    if pending != [] {
      assert pending[0] in ids && !AnswersInTime(answers, pending[0], rounds);
      return TimedOut(pending);
    }
    return AllReady(infos);
  }

  // ---- the shared startup flow ----

  datatype Startup = Refused | Failed | Started

  /**
   `spawnsUntil` is how many spawns succeed; `checksPass` stands for the chain,
   identity, balance and peer checks after the RPC wait.
   */
  method StartFiberEnvironment<T(==)>(ids: seq<nat>, file: RuntimeFile, pid: Pid, probe: Probe, spawnsUntil: nat,
                                     heeds: nat -> bool, answers: (nat, nat) -> Answer<T>, rounds: nat,
                                     checksPass: bool, patience: nat)
    returns (r: Startup, handles: seq<Child>)
    requires forall i, j :: 0 <= i < j < |ids| ==> ids[i] != ids[j]
    modifies file
    ensures forall i :: 0 <= i < |handles| ==> fresh(handles[i]) && i < |ids| && handles[i].id == ids[i]
    ensures r == Refused <==> old(file.record).Some? && probe != Dead
    ensures r == Refused ==> handles == [] && file.record == old(file.record)
    ensures r != Refused ==> |handles| == if |ids| <= spawnsUntil then |ids| else spawnsUntil
    ensures r == Failed ==>
              && (forall i :: 0 <= i < |handles| ==> handles[i].exited && handles[i].terminated) && file.record == None
    ensures r == Started <==>
              && !(old(file.record).Some? && probe != Dead)
              && |ids| <= spawnsUntil && checksPass
              && forall id :: id in ids ==> AnswersInTime(answers, id, rounds)
    ensures r == Started ==>
              && |handles| == |ids|
              && file.record == Some(Entry(pid, true, ids))
              && forall i :: 0 <= i < |handles| ==> !handles[i].exited && !handles[i].terminated && !handles[i].forced
  {
    handles := [];
    if file.record.Some? && probe != Dead {
      return Refused, [];
    }
    file.record := None;
    var i := 0;
    while i < |ids| && i < spawnsUntil
      invariant 0 <= i <= |ids| && i <= spawnsUntil && |handles| == i
      invariant forall k :: 0 <= k < i ==>
          fresh(handles[k]) && handles[k].id == ids[k] && !handles[k].exited && !handles[k].terminated && !handles[k].forced
      invariant file.record == None
    {
      var child := new Child(ids[i], heeds(ids[i]));
      handles := handles + [child];
      i := i + 1;
    }
    if i < |ids| {
      StopFiberNodes(handles, file, pid, patience);
      return Failed, handles;
    }
    file.record := Some(Entry(pid, false, ids));
    var wait := WaitForAllNodeInfo(ids, answers, rounds);
    if !wait.AllReady? || !checksPass {
      StopFiberNodes(handles, file, pid, patience);
      return Failed, handles;
    }
    file.record := Some(Entry(pid, true, ids));
    return Started, handles;
  }
}
