/**
 The environment lock with every file operation a step of its own: creating
 the file, writing the record, reading, checking the owner, unlinking. Which
 interleavings let two processes in.
 */
module EnvLockSteps {
  import opened EnvLock
  import opened Options

  /** What the path names: a file from before with its record, or the one that process `maker` created. */
  datatype File = Nothing | Old(owner: Option<Pid>) | New(maker: Pid, written: bool)

  /** `again` is the second attempt. */
  datatype Pc =
    | Trying(again: bool)
    | Found(again: bool)
    | Suspecting(again: bool, owner: Pid)
    | Condemning(again: bool)
    | Created
    | Holding
    | Releasing
    | GaveUp
    | Exited

  /** Process `i` has the process id `i`; all others are gone. */
  datatype State = State(file: File, pcs: seq<Pc>)

  /** What reading the file shows. */
  function Content(file: File): LockContent {
    match file
    case Nothing => Absent
    case Old(owner) => if owner.Some? then Record(owner.value) else Unreadable
    case New(maker, written) => if written then Record(maker) else Unreadable
  }

  predicate Gone(s: State, p: Pid) {
    p >= |s.pcs| || s.pcs[p].Exited?
  }

  /** Process `i` takes its next step, fails in it, or ends. */
  predicate Step(s: State, s': State, i: nat) {
    && i < |s.pcs| && |s'.pcs| == |s.pcs| && s'.pcs == s.pcs[i := s'.pcs[i]]
    && (Proceeds(s, s', i) || (s'.file == s.file && (s'.pcs[i].Exited? || (s'.pcs[i].GaveUp? && MayFail(s.pcs[i])))))
  }

  /** Steps that may throw or refuse, leaving the file as it is. */
  predicate MayFail(pc: Pc) {
    pc.Trying? || pc.Suspecting? || pc.Condemning? || pc.Created? || pc.Releasing?
  }

  predicate Proceeds(s: State, s': State, i: nat)
    requires i < |s.pcs| == |s'.pcs|
  {
    var next := s'.pcs[i];
    match s.pcs[i]
    case Trying(again) =>
      if s.file.Nothing? then s'.file == New(i, false) && next == Created else s'.file == s.file && next == Found(again)
    case Found(again) =>
      && s'.file == s.file
      && next == (if Content(s.file).Record? then Suspecting(again, Content(s.file).pid) else Condemning(again))
    case Suspecting(again, owner) => s'.file == s.file && Gone(s, owner) && next == Condemning(again)
    case Condemning(again) => Unlinked(s, s') && next == if again then GaveUp else Trying(true)
    // the record goes into the file created, wherever that is by now
    case Created => s'.file == (if s.file == New(i, false) then New(i, true) else s.file) && next == Holding
    case Holding =>
      && s'.file == s.file
      && next == if Content(s.file).Record? && Content(s.file).pid != i then GaveUp else Releasing
    case Releasing => Unlinked(s, s') && next == GaveUp
    case _ => false
  }

  predicate Unlinked(s: State, s': State) {
    !s.file.Nothing? && s'.file.Nothing?
  }

  /** From creating the file to giving the lock back. */
  predicate Inside(pc: Pc) {
    pc.Created? || pc.Holding?
  }

  predicate InsideAt(s: State, i: nat) {
    i < |s.pcs| && Inside(s.pcs[i])
  }

  // ---- exactly when a process keeps its file ----

  /** The path names the file of every process inside, with its record once that is written. */
  ghost predicate FilesKept(s: State) {
    forall i: nat :: InsideAt(s, i) ==> s.file == New(i, s.pcs[i].Holding?)
  }

  /** While files are kept, one process at most is inside, and the file shows a holder's record. */
  lemma KeptExcludes(s: State, i: nat, j: nat)
    requires FilesKept(s) && InsideAt(s, i) && InsideAt(s, j)
    ensures i == j && (s.pcs[i].Holding? ==> Content(s.file) == Record(i))
  {
  }

  /** Process `i` unlinks the file while another process is inside. */
  ghost predicate UnlinksUnder(s: State, s': State, i: nat) {
    Unlinked(s, s') && exists j: nat :: j != i && InsideAt(s, j)
  }

  lemma StepExactly(s: State, s': State, i: nat)
    requires FilesKept(s) && Step(s, s', i)
    ensures FilesKept(s') <==> !UnlinksUnder(s, s', i)
  {
    if UnlinksUnder(s, s', i) {
      var j: nat :| j != i && InsideAt(s, j);
      assert InsideAt(s', j);
    } else {
      forall j: nat | InsideAt(s', j) ensures s'.file == New(j, s'.pcs[j].Holding?) {
        if j != i { assert InsideAt(s, j); }
        if InsideAt(s, i) { assert s.file == New(i, s.pcs[i].Holding?); }
      }
    }
  }

  ghost predicate Run(run: seq<State>, who: seq<nat>) {
    |run| == |who| + 1 && forall k :: 0 <= k < |who| ==> Step(run[k], run[k + 1], who[k])
  }

  /**
   Over any run of any number of processes: every process has its file from
   creating it to giving the lock back, if and only if nobody unlinks it while
   another process is inside.
   */
  lemma {:induction false} RunExactly(run: seq<State>, who: seq<nat>)
    requires Run(run, who) && FilesKept(run[0])
    ensures (forall k :: 0 <= k <= |who| ==> FilesKept(run[k])) <==>
            (forall k :: 0 <= k < |who| ==> !UnlinksUnder(run[k], run[k + 1], who[k]))
    decreases |who|
  {
    hide FilesKept, UnlinksUnder, Step;
    if who != [] {
      var n := |who| - 1;
      assert run[..|who|][0] == run[0];
      RunExactly(run[..|who|], who[..n]);
      if forall k :: 0 <= k < n ==> !UnlinksUnder(run[k], run[k + 1], who[k]) {
        assert forall k :: 0 <= k <= n ==> FilesKept(run[..|who|][k]);
        StepExactly(run[n], run[n + 1], who[n]);
      } else {
        var k :| 0 <= k < n && UnlinksUnder(run[k], run[k + 1], who[k]);
        assert UnlinksUnder(run[..|who|][k], run[..|who|][k + 1], who[..n][k]);
      }
    }
  }

  /**
   What such an unlink goes back to: a look at the file before the other
   process had written its record. A later look shows that record, and its
   owner lives.
   */
  lemma WrittenIsSafe(s: State, s': State, i: nat, j: nat)
    requires FilesKept(s) && Step(s, s', i) && i != j && InsideAt(s, j) && s.pcs[j].Holding?
    ensures s.pcs[i].Found? ==> s'.pcs[i].Exited? || s'.pcs[i] == Suspecting(s.pcs[i].again, j)
    ensures s.pcs[i].Suspecting? && s.pcs[i].owner == j ==> s'.pcs[i].Exited? || s'.pcs[i].GaveUp?
  {
    assert s.file == New(j, true);
  }

  /** After it, whoever tries next gets in beside the process that is still inside. */
  lemma NextGetsIn(s: State, s': State, i: nat, k: nat) returns (t: State, u: State)
    requires UnlinksUnder(s, s', i) && Step(s, s', i) && k < |s'.pcs| && s'.pcs[k].Trying?
    ensures Step(s', t, k) && Step(t, u, k) && u.pcs[k].Holding?
    ensures exists j: nat :: j != k && InsideAt(u, j)
  {
    var j: nat :| j != i && InsideAt(s, j);
    t := State(New(k, false), s'.pcs[k := Created]);
    u := State(New(k, true), s'.pcs[k := Holding]);
    assert u.pcs == t.pcs[k := u.pcs[k]];
    assert InsideAt(u, j) && j != k;
  }

  // ---- the ways it happens ----

  lemma Begin(s: State) returns (run: seq<State>, who: seq<nat>)
    ensures Run(run, who) && run == [s] && who == []
  {
    run, who := [s], [];
  }

  lemma Then(run: seq<State>, who: seq<nat>, i: nat, file: File, pc: Pc) returns (run': seq<State>, who': seq<nat>)
    requires Run(run, who) && |run| == |who| + 1 && i < |run[|who|].pcs|
    requires var s := run[|who|];
             var t := State(file, s.pcs[i := pc]);
             Proceeds(s, t, i) || (file == s.file && pc.Exited?)
    ensures Run(run', who') && run'[0] == run[0] && |run'| == |who'| + 1
    ensures run'[|who'|] == State(file, run[|who|].pcs[i := pc])
  {
    var t := State(file, run[|who|].pcs[i := pc]);
    assert Step(run[|who|], t, i);
    hide Step;
    run', who' := run + [t], who + [i];
  }

  /** Two processes read a dead owner's record, and the slower one unlinks what the faster one made. */
  lemma DeadOwnerRace() returns (run: seq<State>, who: seq<nat>)
    ensures Run(run, who) && run[0] == State(Old(Some(7)), [Trying(false), Trying(false)]) && FilesKept(run[0])
    ensures run[|who|].pcs == [Holding, Holding]
  {
    hide Step, Run;
    run, who := Begin(State(Old(Some(7)), [Trying(false), Trying(false)]));
    run, who := Then(run, who, 0, Old(Some(7)), Found(false));
    run, who := Then(run, who, 0, Old(Some(7)), Suspecting(false, 7));
    run, who := Then(run, who, 0, Old(Some(7)), Condemning(false));
    run, who := Then(run, who, 1, Old(Some(7)), Found(false));
    run, who := Then(run, who, 1, Old(Some(7)), Suspecting(false, 7));
    run, who := Then(run, who, 1, Old(Some(7)), Condemning(false));
    run, who := Then(run, who, 0, Nothing, Trying(true));
    run, who := Then(run, who, 0, New(0, false), Created);
    run, who := Then(run, who, 0, New(0, true), Holding);
    run, who := Then(run, who, 1, Nothing, Trying(true));
    run, who := Then(run, who, 1, New(1, false), Created);
    run, who := Then(run, who, 1, New(1, true), Holding);
  }

  /** With no dead owner at all: a file just created, its record not yet written, passes for an unreadable one. */
  lemma BlankFileRace() returns (run: seq<State>, who: seq<nat>)
    ensures Run(run, who) && run[0] == State(Nothing, [Trying(false), Trying(false)]) && FilesKept(run[0])
    ensures run[|who|].pcs == [Holding, Holding]
  {
    hide Step, Run;
    run, who := Begin(State(Nothing, [Trying(false), Trying(false)]));
    run, who := Then(run, who, 0, New(0, false), Created);
    run, who := Then(run, who, 1, New(0, false), Found(false));
    run, who := Then(run, who, 1, New(0, false), Condemning(false));
    run, who := Then(run, who, 1, Nothing, Trying(true));
    run, who := Then(run, who, 1, New(1, false), Created);
    run, who := Then(run, who, 1, New(1, true), Holding);
    run, who := Then(run, who, 0, New(1, true), Holding);
  }

  /** The owner whose record was read gives the lock back and ends before it is checked, and another takes the lock meanwhile. */
  lemma OldRecordRace() returns (run: seq<State>, who: seq<nat>)
    ensures Run(run, who) && run[0] == State(New(0, true), [Holding, Trying(false), Trying(false)]) && FilesKept(run[0])
    ensures run[|who|].pcs == [Exited, Holding, Holding]
  {
    hide Step, Run;
    run, who := Begin(State(New(0, true), [Holding, Trying(false), Trying(false)]));
    run, who := Then(run, who, 2, New(0, true), Found(false));
    run, who := Then(run, who, 2, New(0, true), Suspecting(false, 0));
    run, who := Then(run, who, 0, New(0, true), Releasing);
    run, who := Then(run, who, 0, Nothing, GaveUp);
    run, who := Then(run, who, 0, Nothing, Exited);
    run, who := Then(run, who, 1, New(1, false), Created);
    run, who := Then(run, who, 1, New(1, true), Holding);
    run, who := Then(run, who, 2, New(1, true), Condemning(false));
    run, who := Then(run, who, 2, Nothing, Trying(true));
    run, who := Then(run, who, 2, New(2, false), Created);
    run, who := Then(run, who, 2, New(2, true), Holding);
  }
}
