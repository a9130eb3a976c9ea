/**
 The devnet environment lock: a file holding the owner's process id, broken
 only when its recorded owner is confirmed dead.
 */
module EnvLock {

  type Pid = nat

  datatype LockContent = Absent | Unreadable | Record(pid: Pid)

  /** Answers of a liveness check; a check that cannot be performed proves nothing. */
  datatype Probe = Alive | Dead | CannotTell

  datatype AcquireResult = Acquired | HeldBy(pid: Pid) | CreateFailed | UnlinkFailed | Exhausted

  /** Whether a process may take the lock over, given what it learns about the recorded owner. */
  predicate MayTake(content: LockContent, probe: Probe) {
    content.Record? ==> probe == Dead
  }

  /** The lock file after its owner `pid` has let go: another process's record is never touched. */
  function Released(content: LockContent, pid: Pid): LockContent {
    if content.Unreadable? || content == Record(pid) then Absent else content
  }

  class LockFile {
    var content: LockContent

    constructor (content: LockContent)
      ensures this.content == content
    {
      this.content := content;
    }
  }

  /** A process with its own note of whether it holds the lock. */
  class Holder {
    const pid: Pid
    var held: bool

    constructor (pid: Pid)
      ensures this.pid == pid && !held
    {
      this.pid := pid;
      held := false;
    }

    /**
     Two attempts, the second after removing a dead owner's file. `probe` is
     the answer about the recorded owner; `createFails` and `unlinkFails` are
     file-system errors other than the file existing already.
     */
    method Acquire(file: LockFile, probe: Probe, createFails: seq<bool>, unlinkFails: bool) returns (r: AcquireResult)
      requires |createFails| == 2
      modifies this, file
      ensures r == Acquired <==>
              && !createFails[0] && MayTake(old(file.content), probe)
              && (old(file.content) == Absent || (!unlinkFails && !createFails[1]))
      ensures r == Acquired ==> held && file.content == Record(pid)
      ensures r != Acquired ==> held == old(held)
      ensures r != Acquired ==>
              file.content == if r == CreateFailed && !createFails[0] then Absent else old(file.content)
      ensures r.HeldBy? <==> !createFails[0] && old(file.content).Record? && probe != Dead
      ensures r.HeldBy? ==> old(file.content) == Record(r.pid)
      ensures r != Exhausted
    {
      var attempt := 0;
      while attempt < 2
        invariant 0 <= attempt <= 1
        invariant held == old(held)
        invariant attempt == 0 ==> file.content == old(file.content)
        invariant attempt == 1 ==>
            && file.content == Absent && !createFails[0] && !unlinkFails
            && old(file.content) != Absent && MayTake(old(file.content), probe)
        decreases 2 - attempt
      {
        if createFails[attempt] { return CreateFailed; }
        if file.content == Absent {
          file.content := Record(pid);
          held := true;
          return Acquired;
        }
        if file.content.Record? && probe != Dead { return HeldBy(file.content.pid); }
        if unlinkFails { return UnlinkFailed; }
        file.content := Absent;
        attempt := attempt + 1;
      }
      return Exhausted;
    }

    method Release(file: LockFile)
      modifies this, file
      ensures !held
      ensures file.content == if old(held) then Released(old(file.content), pid) else old(file.content)
      ensures file.content != old(file.content) <==> old(held) && old(file.content) in {Unreadable, Record(pid)}
      ensures file.content != old(file.content) ==> file.content == Absent
    {
      if !held { return; }
      held := false;
      if file.content.Unreadable? || file.content == Record(pid) {
        file.content := Absent;
      }
    }
  }
}
