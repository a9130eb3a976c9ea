/**
 Mainnet-fork safety, one operation at a time: the fork record, the copy with
 its rollback, the first-run poll that records the fork boundary, the signing
 guard and the check of a transaction's inputs.
 */
module ForkSafety {
  import opened Options

  datatype Source = Mainnet | Testnet | Custom

  /** What the recorded boundary text reads as when it is parsed as an integer. */
  datatype Numeral = Numeral(value: int) | NotANumber

  datatype ForkState = ForkState(source: Source, genesis: string, firstRunPending: bool, boundary: Option<Numeral>)

  /** `fork.json` after the first run; `None` is a record that is absent or does not read as one. */
  function FirstRunComplete(record: Option<ForkState>, tip: nat): (r: Option<ForkState>)
    ensures r.Some? <==> record.Some?
    ensures record.Some? && !record.value.firstRunPending ==> r == record
    ensures record.Some? && record.value.firstRunPending ==>
              && !r.value.firstRunPending && r.value.boundary == Some(Numeral(tip))
              && r.value.source == record.value.source && r.value.genesis == record.value.genesis
  {
    if record.None? || !record.value.firstRunPending then record
    else Some(record.value.(firstRunPending := false, boundary := Some(Numeral(tip))))
  }

  // ---- the signing guard ----

  datatype Guard = Unrestricted | After(limit: nat) | ExternalKey | BoundaryMissing | BoundaryInvalid

  predicate OnMainnetFork(devnet: bool, record: Option<ForkState>) {
    devnet && record.Some? && record.value.source == Mainnet
  }

  function ValidateMainnetForkSigning(devnet: bool, record: Option<ForkState>,
                                      builtInKey: bool, allowExternal: bool): (g: Guard)
    ensures g == Unrestricted <==> !OnMainnetFork(devnet, record)
    ensures g.After? ==> OnMainnetFork(devnet, record) && record.value.boundary == Some(Numeral(g.limit))
    ensures OnMainnetFork(devnet, record) && record.value.boundary.None? ==> g == BoundaryMissing || g == ExternalKey
    ensures OnMainnetFork(devnet, record) && (builtInKey || allowExternal) && record.value.boundary.Some? ==>
              match record.value.boundary.value
              case Numeral(n) => if n >= 0 then g == After(n) else g == BoundaryInvalid
              case NotANumber => g == BoundaryInvalid
    ensures OnMainnetFork(devnet, record) ==> (g == ExternalKey <==> !builtInKey && !allowExternal)
  {
    if !devnet || record.None? || record.value.source != Mainnet then Unrestricted
    else if !builtInKey && !allowExternal then ExternalKey
    else match record.value.boundary
      case None => BoundaryMissing
      case Some(NotANumber) => BoundaryInvalid
      case Some(Numeral(n)) => if n < 0 then BoundaryInvalid else After(n)
  }

  /** Where the node says an input's transaction is; a pending one has no block. */
  datatype Origin = Unknown | Committed(block: nat)

  datatype InputCheck = Accepted | OriginUnknown(input: nat) | CreatedTooEarly(input: nat)

  predicate CreatedAfter(origin: Origin, limit: nat) {
    origin.Committed? && origin.block > limit
  }

  /** Stops at the first input whose origin is unknown or not after the limit. */
  method AssertInputsCreatedAfter(origins: seq<Origin>, limit: Option<nat>) returns (r: InputCheck)
    ensures r == Accepted <==> limit.None? || forall i :: 0 <= i < |origins| ==> CreatedAfter(origins[i], limit.value)
    ensures r != Accepted ==>
              && r.input < |origins| && !CreatedAfter(origins[r.input], limit.value)
              && (forall i :: 0 <= i < r.input ==> CreatedAfter(origins[i], limit.value))
              && (r.OriginUnknown? <==> origins[r.input] == Unknown)
  {
    if limit.None? { return Accepted; }
    var i := 0;
    while i < |origins|
      invariant 0 <= i <= |origins|
      invariant forall k :: 0 <= k < i ==> CreatedAfter(origins[k], limit.value)
    {
      if origins[i].Unknown? { return OriginUnknown(i); }
      if origins[i].block <= limit.value { return CreatedTooEarly(i); }
      i := i + 1;
    }
    return Accepted;
  }

  // ---- the first-run poll ----

  /**
   One round against the RPC port: the genesis hash it reports, whether the
   spawned process is the listener (`None` when that cannot be determined) and
   its tip. A missing answer is a failed call.
   */
  datatype Reply = Reply(genesis: Option<string>, listening: Option<bool>, tip: Option<nat>)

  predicate Decisive(reply: Reply, expected: string, lower: string -> string) {
    && reply.genesis.Some?
    && (lower(reply.genesis.value) != lower(expected) || (reply.listening != Some(false) && reply.tip.Some?))
  }

  /** Round `r` is the first to decide, and the process is still there. */
  predicate DecidedAt(r: nat, expected: string, lower: string -> string, replies: nat -> Reply, exited: nat -> bool) {
    && (forall k :: 0 <= k <= r ==> !exited(k))
    && (forall k :: 0 <= k < r ==> !Decisive(replies(k), expected, lower))
    && Decisive(replies(r), expected, lower)
  }

  /**
   The spawned process has not exited by round `r`, the fork's genesis is
   reported in it by a node with a tip that is not known to be another process,
   and in every round before either nothing is reported or the fork's genesis
   by a node that is another process or has no tip yet.
   */
  predicate RecordsAt(r: nat, expected: string, lower: string -> string, replies: nat -> Reply, exited: nat -> bool) {
    && (forall k :: 0 <= k <= r ==> !exited(k))
    && (forall k :: 0 <= k <= r && replies(k).genesis.Some? ==> lower(replies(k).genesis.value) == lower(expected))
    && (forall k :: 0 <= k < r && replies(k).genesis.Some? ==> replies(k).listening == Some(false) || replies(k).tip.None?)
    && replies(r).genesis.Some? && replies(r).listening != Some(false) && replies(r).tip.Some?
  }

  datatype PollEnd = Recorded(tip: nat) | LeftPending

  /** The fork record on disk. */
  class ForkFile {
    var record: Option<ForkState>

    constructor ()
      ensures record == None
    {
      record := None;
    }

    method MarkForkFirstRunComplete(tip: nat)
      modifies this
      ensures old(record).None? || !old(record).value.firstRunPending ==> record == old(record)
      ensures old(record).Some? && old(record).value.firstRunPending ==>
                && record.Some? && !record.value.firstRunPending && record.value.boundary == Some(Numeral(tip))
                && record.value.source == old(record).value.source && record.value.genesis == old(record).value.genesis
    {
      if record.None? || !record.value.firstRunPending { return; }
      record := Some(record.value.(firstRunPending := false, boundary := Some(Numeral(tip))));
    }

    /**
     Polls until the first decisive reply, the exit of the spawned process or
     the timeout after `rounds` rounds.
     */
    method ClearForkFirstRunWhenNodeUp(expected: string, lower: string -> string,
                                       replies: nat -> Reply, exited: nat -> bool, rounds: nat)
      returns (end: PollEnd)
      modifies this
      ensures end.Recorded? ==>
              exists r :: 0 <= r < rounds && DecidedAt(r, expected, lower, replies, exited)
                          && lower(replies(r).genesis.value) == lower(expected) && replies(r).tip == Some(end.tip)
      ensures end.LeftPending? ==>
              forall r :: 0 <= r < rounds && DecidedAt(r, expected, lower, replies, exited) ==>
                lower(replies(r).genesis.value) != lower(expected)
      ensures record == if end.Recorded? then FirstRunComplete(old(record), end.tip) else old(record)
      ensures end.Recorded? <==> exists r :: 0 <= r < rounds && RecordsAt(r, expected, lower, replies, exited)
      ensures end.Recorded? ==>
                exists r :: 0 <= r < rounds && RecordsAt(r, expected, lower, replies, exited) && replies(r).tip == Some(end.tip)
    {
      var round := 0;
      while round < rounds && !exited(round)
        invariant 0 <= round <= rounds && record == old(record)
        invariant forall k :: 0 <= k < round ==> !exited(k) && !Decisive(replies(k), expected, lower)
        decreases rounds - round
      {
        var reply := replies(round);
        if reply.genesis.Some? {
          if lower(reply.genesis.value) != lower(expected) {
            assert DecidedAt(round, expected, lower, replies, exited);
            return LeftPending;
          }
          if reply.listening != Some(false) && reply.tip.Some? {
            assert DecidedAt(round, expected, lower, replies, exited);
            assert RecordsAt(round, expected, lower, replies, exited);
            MarkForkFirstRunComplete(reply.tip.value);
            return Recorded(reply.tip.value);
          }
        }
        assert !Decisive(replies(round), expected, lower);
        round := round + 1;
      }
      return LeftPending;
    }
  }

  // ---- `devnet fork` ----

  datatype Step = CopyData | InitChain | ReadGenesis | CompareGenesis | PatchSpec | AlignConfigs | MigrateCopy | WriteState

  /** The order of the steps. */
  function Rank(step: Step): nat {
    match step
    case CopyData => 0
    case InitChain => 1
    case ReadGenesis => 2
    case CompareGenesis => 3
    case PatchSpec => 4
    case AlignConfigs => 5
    case MigrateCopy => 6
    case WriteState => 7
  }

  datatype Outcome = PreflightOnly | NodeRunning | NeedsMigrate | AlreadyExists | RolledBack(failed: Step) | Forked

  /** The devnet directory with the chain data in it. */
  class DevnetDir {
    var present: bool
    var chain: Option<nat>
    const file: ForkFile

    constructor ()
      ensures !present && chain == None && fresh(file) && file.record == None
    {
      present, chain := false, None;
      file := new ForkFile();
    }

    ghost predicate Empty()
      reads this, file
    {
      !present && chain == None && file.record == None
    }

    method Remove()
      modifies this, file
      ensures Empty()
    {
      present, chain := false, None;
      file.record := None;
    }

    /**
     `source` is the chain copied (its tip) and identified; `fails` says which
     steps throw. Refusals change nothing; a failed step leaves no devnet.
     */
    method Fork(source: Source, genesis: string, tip: nat, dryRun: bool, running: bool,
                migrationNeeded: bool, migrate: bool, force: bool, fails: Step -> bool)
      returns (r: Outcome)
      modifies this, file
      ensures r == Forked || r.RolledBack? <==>
              !dryRun && !running && (migrationNeeded ==> migrate) && (old(present) ==> force)
      ensures r == PreflightOnly <==> dryRun
      ensures r == NodeRunning <==> !dryRun && running
      ensures r == NeedsMigrate <==> !dryRun && !running && migrationNeeded && !migrate
      ensures r.RolledBack? ==>
              && (r.failed == MigrateCopy ==> migrationNeeded)
              && forall step :: Rank(step) < Rank(r.failed) && (step != MigrateCopy || migrationNeeded) ==> !fails(step)
      ensures !(r == Forked || r.RolledBack?) ==>
              present == old(present) && chain == old(chain) && file.record == old(file.record)
      ensures r.RolledBack? ==> Empty() && fails(r.failed)
      ensures r == Forked ==>
              && present && chain == Some(tip)
              && file.record == Some(ForkState(source, genesis, true, None))
              && forall step :: step != MigrateCopy || migrationNeeded ==> !fails(step)
    {
      if dryRun { return PreflightOnly; }
      if running { return NodeRunning; }
      if migrationNeeded && !migrate { return NeedsMigrate; }
      if present {
        if !force { return AlreadyExists; }
        Remove();
      }
      present := true;
      if fails(CopyData) { Remove(); return RolledBack(CopyData); }
      chain := Some(tip);
      if fails(InitChain) { Remove(); return RolledBack(InitChain); }
      if fails(ReadGenesis) { Remove(); return RolledBack(ReadGenesis); }
      if fails(CompareGenesis) { Remove(); return RolledBack(CompareGenesis); }
      if fails(PatchSpec) { Remove(); return RolledBack(PatchSpec); }
      if fails(AlignConfigs) { Remove(); return RolledBack(AlignConfigs); }
      if migrationNeeded && fails(MigrateCopy) { Remove(); return RolledBack(MigrateCopy); }
      file.record := Some(ForkState(source, genesis, true, None));
      if fails(WriteState) { Remove(); return RolledBack(WriteState); }
      return Forked;
    }
  }
}
