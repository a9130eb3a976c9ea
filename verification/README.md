# OffCKB: verified models

Dafny models of five parts of OffCKB, each with the properties its users rely
on, proved for every input or over every sequence of steps.

- **Molecule (`Mol*.dfy`).** One schema-driven reader and builder for the
  generated chain types, over a memory that is a total map from addresses to
  bytes. The layouts (fixed-size vectors, dynamic vectors, tables, options)
  are those of CKB RFC 0008, "Serialization". `Verify` is the imperative
  reader; `Valid` says over byte strings what it accepts; `Encode` is the
  independent reference. Strict acceptance is exactly the image of the encoder.
  `MolChain.dfy` says what the chain types hold in the chain's own terms
  (out points, deps, inputs, outputs, headers, blocks), `MolCodes.dfy` which
  error code is reported when and `MolLocality.dfy` what it depends on.
- **Fiber environment (`EnvLock.dfy`, `EnvLockSteps.dfy`,
  `FiberManager.dfy`, `FiberCommands.dfy`, `FiberProtocol.dfy`, `FiberRuns.dfy`,
  `FiberTeardown.dfy`, `FiberRefinement.dfy`).** The lock file, the
  manager and the stop and clean commands in imperative form, each alone; taking
  the lock file operation by file operation; then all processes
  together (foreground managers, daemons with their launchers, `node --fiber`,
  `fiber stop`, the clean commands, crashes, signals of both kinds) as a
  transition system over the lock file, `runtime.json`, the daemon's PID file,
  the FNN children and their stores: its invariants, its failing runs, how a
  process ends, and how the commands are runs of it.
- **Mainnet-fork safety (`ForkSafety.dfy`, `ForkReplay.dfy`).** The fork
  record, the copy with its rollback, the first-run poll, the signing guard and
  the input check; then a transition system of forking, booting, mining and
  guarded sends, with replay safety by induction over ancestry.
- **Config trees (`Config*.dfy`, `ShippedConfig.dfy`, `DevnetEditor.dfy`,
  `NodesYml.dfy`).** The
  devnet config editor with its cached field table, what each of its operations
  takes and leaves (`ConfigEffects.dfy`), the table against the shipped documents
  (`ShippedConfig.dfy`), the flat listing of a document, the merge of per-node Fiber settings and the node list.
- **Logs and text migration (`Utf8.dfy`, `Utf8Errors.dfy`, `LogFilter.dfy`, `LogFollow.dfy`,
  `ProxyLog.dfy`, `ConfigMigration.dfy`, `MigrationLaws.dfy`).** The chunked
  log follower against a batch reading, the rolling proxy log under failing
  file operations, and the line edits of an existing `ckb.toml`.

`dafny verify dfyconfig.toml` checks the whole project. `Options.dfy`,
`Octet.dfy` and `Seqs.dfy` hold what is shared.

## Where the code does less than it says

Eight statements one would expect of the code are false of it. Each has its
exact condition and a concrete run or input on which it fails.

- A live manager keeps `runtime.json`, and one process at a time has FNNs:
  false of a run in which `fiber stop` goes after a process that has finished
  without exiting, which the CLI allows because it sets an exit code and
  returns (`src/cli.ts:476`). `fiber stop` then removes the record whoever it
  names (`src/fiber/daemon.ts:244-245`). The checks before it (PID file,
  startup window, identity, `src/fiber/daemon.ts:289-319`) leave one way to get
  there: a daemon child that failed and lingers, whose PID record stayed
  `starting` past its window because its launcher died or could not end it, and
  another manager that started meanwhile. `TargetOrLingers` derives this from
  the checks, `StopLosesTheRecord` says that the record is lost exactly then,
  `LingeringTargetBreaksOwnership` is the run. `SingleOwnership` and
  `LiveManagerKeepsItsRecord` hold of every other run. Clean safety needs no
  such condition.
- A signalled process takes its FNNs down: the handlers fire once per kind,
  those of the startup (`src/fiber/manager.ts:346-347`) as those of the manager
  (`src/cmd/fiber.ts:84-88`, `src/cmd/node.ts:417-418`), so a second signal of
  one kind kills the process in its cleanup and orphans the FNNs
  (`SecondSignalOrphans`, `SecondSignalOrphansManaged`). `TeardownExact`: a
  process that does not crash leaves nothing behind if and only if no kind of
  signal arrives twice before its FNNs are dead and its record is gone.
- A start, stop or clean that ends gives the lock back: not when it is killed,
  not when a startup signal's cleanup ends it (`src/fiber/manager.ts:340-342`),
  and not when `fiber start` finds the contracts missing
  (`src/cmd/fiber.ts:117-122`). `LockKeptAtEnd`: the file still names the
  process exactly in these cases. Only the last one keeps others out
  (`OnlyMissingContractsShutOut`), as the process may linger, and it does so
  for as long as the process lives (`ShutOutWhileLingering`, `KeptUntilGone`;
  `ShutOutHappens` is a run);
  in the others the next start finds a dead owner.
- Acquiring the environment lock is exclusive: creating the file, writing the
  record, reading it, checking its owner and unlinking are separate steps
  (`src/fiber/env-lock.ts:43-90`). `RunExactly`: over a run of these steps by
  any number of processes, each has its file from creating it to giving the
  lock back if and only if no process unlinks the file while another is at
  that; with their files kept, two are never inside (`KeptExcludes`), and
  after such an unlink the next to try gets in (`NextGetsIn`). It goes back to
  a look at the file before the other had written its record
  (`WrittenIsSafe`), and happens in three ways: `DeadOwnerRace`,
  `BlankFileRace` (no dead owner anywhere) and `OldRecordRace`. The protocol
  takes acquisition as one step.
- `assertNoManagedFields` accepts a section that is present without a value
  (`fiber:`), and the merge then replaces the generated section by it.
  `ManagedFieldsSurvive` gives the exact condition; `EmptySectionErases` the
  input.
- The cached fields of the config editor agree with the documents after an
  edit exactly when it is no deletion of a field or of a node above one
  (`EditKeepsAgreement`).
- Which error code a Molecule reader reports depends on its input alone: true
  of every table reader (`TableCodeIsLocal`) and of a vector reader whose loop
  stays inside its input (`CodeIsLocal`); false of a 12-byte vector
  (`ErrorCodeIsNotLocal`). `CodeLocalExactly` says when, for every type: the
  loop of a vector reaches an element ending past the input, it and all after
  it can be completed to acceptable bytes from what lies inside, and one of them
  to bytes that are not; or the code of a last element, which is returned, is of
  this kind. `ItemsCompletable` and `ItemsSpoilable` say what completing comes to
  for vectors of fixed-size items, `TableCompletable` for tables. Acceptance is
  always local (`AcceptanceIsLocal`).
- A command that took its signing permission before `devnet fork` replaced the
  devnet may spend copied cells of the new fork; `StraddlingSend` says exactly
  when, and `StraddlingSendHappens` is a run in which it does.

## Model

| member | source | states |
|---|---|---|
| MolLayout.LayoutOfSplit | patches/pw-lock-protocol.h:994-1032 | a byte string with a correct header and ordered offsets is the layout of the parts its offsets delimit |
| MolLayout.SplitOfLayout | patches/pw-lock-protocol.h:994-1032 | a layout below 2^32 bytes has a correct header and ordered offsets, and they delimit exactly the parts it was made of |
| MolExact.EncodeOfDecode | patches/pw-lock-protocol.h:669-1365 | strictly accepted bytes decode to a value of the type whose encoding is those bytes |
| MolExact.DecodeOfEncode | patches/pw-lock-protocol.h:669-1365 | every encoding below 2^32 bytes is accepted in both modes and decodes to the value encoded |
| MolExact.StrictIsEncoderImage | patches/pw-lock-protocol.h:669-1365 | bytes are strictly acceptable if and only if they encode some value of the type, and that value is unique |
| MolExact.TrimNotLonger | patches/pw-lock-protocol.h:1012-1017 | cutting compatible-accepted bytes to the known fields never lengthens them |
| MolExact.TrimIsStrict | patches/pw-lock-protocol.h:1012-1017 | compatible-accepted bytes, cut recursively to the known fields, are strictly acceptable with the same known values |
| MolExact.StrictIsTrimmedCompatible | patches/pw-lock-protocol.h:875-932 | strict acceptance is compatible acceptance with nothing to cut, and both decode alike |
| MolReader.Verify | patches/pw-lock-protocol.h:669-730 | the reader for any schema returns the specified verdict, options skipping empty input |
| MolReader.VerifyHeader | patches/pw-lock-protocol.h:994-1010 | total size, minimum size and first offset are checked in this order, each with its own code |
| MolReader.VerifyDynVec | patches/pw-lock-protocol.h:676-723 | the dynamic-vector reader returns the specified verdict, four bytes naming their own size being the empty vector |
| MolReader.VerifyItems | patches/pw-lock-protocol.h:700-722 | the element loop checks each offset against the next only, the range once at the end, and returns the last element's own code |
| MolReader.VerifyTable | patches/pw-lock-protocol.h:994-1072 | the table reader returns the specified verdict, more fields than known being an error in strict mode only |
| MolReader.ReadOffsets | patches/pw-lock-protocol.h:1020-1032 | the offsets array is filled from the offset table, and an entry out of order is an offset error |
| MolReader.VerifyFields | patches/pw-lock-protocol.h:1033-1070 | the known fields are checked in order and any failure is a data error |
| MolReader.VerdictExact | patches/pw-lock-protocol.h:669-1365 | for every schema and mode a segment is accepted if and only if the bytes it holds are acceptable |
| MolReader.PartExact | patches/pw-lock-protocol.h:1033-1036 | in an accepted table or vector the segment between two offsets holds the matching part |
| MolReader.AcceptanceIsLocal | patches/pw-lock-protocol.h:701-722 | two memories that agree on a segment give the same acceptance, though the loop may look past its end |
| MolReader.ErrorCodeIsNotLocal | patches/pw-lock-protocol.h:701-717 | two memories that agree on a 12-byte vector get different error codes |
| MolCodes.TableCodes | patches/pw-lock-protocol.h:994-1072 | a table reader returns each code if and only if the bytes have the fault that the code names: sizes, header, first offset, field count, order of offsets, or a known field |
| MolCodes.VectorHeaderCodes | patches/pw-lock-protocol.h:676-699 | a vector whose header is wrong is rejected with the code that names what is wrong with it |
| MolCodes.VectorItemCodes | patches/pw-lock-protocol.h:700-722 | with a good header the first bad element decides: an offset error when out of order, a data error when not acceptable, but the last element reports its own code |
| MolLocality.TableCodeIsLocal | patches/pw-lock-protocol.h:994-1072 | a table reader's error code depends on the bytes of its input alone, whatever they are |
| MolLocality.CodeIsLocal | patches/pw-lock-protocol.h:669-1072 | where no element the loop reaches ends past the input, any reader's error code depends on the bytes of its input alone |
| MolLocality.CodeLocalExactly | patches/pw-lock-protocol.h:669-1072 | for every type and mode, bytes outside the input change the error code if and only if the loop accepts its way to an element ending past the input, all from there on can be completed to acceptable bytes and one to others, or the last element's code does |
| MolLocality.ItemsCompletable | patches/pw-lock-protocol.h:700-717 | a byte string cut off by the end of the input can be completed if and only if its size names an item count that agrees with what is known of its header |
| MolLocality.ItemsSpoilable | patches/pw-lock-protocol.h:700-717 | one that can be completed can be spoilt if and only if part of its header is unknown |
| MolLocality.TableCompletable | patches/pw-lock-protocol.h:994-1072 | a table cut off can be completed if and only if acceptable fields exist whose layout has its size and begins with what is known |
| MolBuilder.TotalSize | patches/pw-lock-protocol.h:1371-1381 | the announced size is the size of the layout of the set or default fields |
| MolBuilder.WriteOffsets | patches/pw-lock-protocol.h:1384-1395 | the header written is the offset table of the fields |
| MolBuilder.CopyFields | patches/pw-lock-protocol.h:1398-1426 | the body written is the fields back to back, the default where the recorded length is zero |
| MolBuilder.Build | patches/pw-lock-protocol.h:1371-1429 | the built segment is exactly the layout of the set or default fields, for any lengths, offsets and data |
| MolBuilder.BuildRoundTrip | patches/pw-lock-protocol.h:1371-1857 | each slice of the built segment is the bytes set or the default, and it is strictly acceptable if and only if every set field is |
| MolBuilder.SliceOfBuilt | patches/pw-lock-protocol.h:1371-1857 | the accessor's segment for a field of a built table holds the bytes set or the default |
| MolBuilder.UntouchedBuilder | patches/pw-lock-protocol.h:1398-1423 | a builder in which nothing was set lays out the defaults of its fields |
| MolBlockchain.ChainTypesWellFormed | patches/pw-lock-protocol.h:875-1365 | the chain types satisfy what the exactness results ask of a schema |
| MolBlockchain.StrictReaderIsExact | patches/pw-lock-protocol.h:669-1365 | a strict reader accepts a segment if and only if it holds the encoding of some value, and of one only |
| MolBlockchain.CompatibleReaderIsConservative | patches/pw-lock-protocol.h:875-1249 | strict acceptance implies compatible acceptance, and compatible input cut to its known fields is strictly accepted with the same value |
| MolChain.RawTransactionExact | patches/pw-lock-protocol.h:994-1072 | a strict reader accepts exactly the tables of a version, any number of deps each an out point and a dep type, header deps, inputs each a since and an out point, outputs and data |
| MolChain.TransactionExact | patches/pw-lock-protocol.h:1073-1127 | it accepts exactly the tables of a raw transaction and its witnesses |
| MolChain.CellOutputExact | patches/pw-lock-protocol.h:933-993 | it accepts exactly the tables of a capacity, a lock script and a type script or none |
| MolChain.ScriptExact | patches/pw-lock-protocol.h:875-932 | it accepts exactly the tables of a code hash, a hash type and arguments |
| MolChain.HeaderExact | patches/pw-lock-protocol.h:192-207 | it accepts exactly the ten fields of a raw header followed by the nonce |
| MolChain.UncleBlockExact | patches/pw-lock-protocol.h:1128-1182 | it accepts exactly the tables of a header and ten-byte proposals |
| MolChain.BlockExact | patches/pw-lock-protocol.h:1183-1249 | it accepts exactly the tables of a header, uncles, transactions and proposals |
| MolChain.CellbaseWitnessExact | patches/pw-lock-protocol.h:1250-1304 | it accepts exactly the tables of a lock script and a message |
| MolChain.WitnessArgsExact | patches/pw-lock-protocol.h:1305-1365 | it accepts exactly the tables of a lock, an input type and an output type, each with its length or absent |
| MolChain.RawTransactionSlices | patches/pw-lock-protocol.h:180-188 | the six accessors of a raw transaction, by their positions, give back the fields it was made of |
| MolChain.BlockSlices | patches/pw-lock-protocol.h:189-219 | so do those of a transaction, an uncle block and a block |
| MolChain.ScriptSlices | patches/pw-lock-protocol.h:159-230 | so do those of a script, a cell output, a cellbase witness and witness arguments |
| MolChain.CountedSlice | patches/pw-lock-protocol.h:150-155 | item i of a counted vector lies at its offset |
| MolChain.StructSlices | patches/pw-lock-protocol.h:165-179 | the byte ranges of a cell dep, a cell input and an out point hold their fields |
| MolChain.HeaderSlices | patches/pw-lock-protocol.h:194-207 | so do those of a header |
| MolBlockchain.DefaultScript | patches/pw-lock-protocol.h:521-527 | an untouched Script builder yields the Script default table |
| MolBlockchain.DefaultCellOutput | patches/pw-lock-protocol.h:539-547 | an untouched CellOutput builder yields its default table |
| MolBlockchain.DefaultRawTransaction | patches/pw-lock-protocol.h:554-560 | an untouched RawTransaction builder yields its default table |
| MolBlockchain.DefaultTransaction | patches/pw-lock-protocol.h:561-568 | an untouched Transaction builder yields its default table |
| MolBlockchain.DefaultUncleBlock | patches/pw-lock-protocol.h:607-627 | an untouched UncleBlock builder yields its default table |
| MolBlockchain.DefaultBlock | patches/pw-lock-protocol.h:628-649 | an untouched Block builder yields its default table |
| MolBlockchain.DefaultCellbaseWitness | patches/pw-lock-protocol.h:650-657 | an untouched CellbaseWitness builder yields its default table |
| MolBlockchain.DefaultWitnessArgs | patches/pw-lock-protocol.h:658-661 | an untouched WitnessArgs builder yields its default table |
| MolBlockchain.DefaultCellOutputValid | patches/pw-lock-protocol.h:521-547 | the CellOutput default, with the Script default inside it, is strictly acceptable |
| MolBlockchain.DefaultTransactionsValid | patches/pw-lock-protocol.h:554-568 | the transaction defaults are strictly acceptable |
| MolBlockchain.DefaultBlocksValid | patches/pw-lock-protocol.h:607-649 | the block defaults are strictly acceptable |
| MolBlockchain.DefaultWitnessesValid | patches/pw-lock-protocol.h:650-661 | the witness defaults are strictly acceptable |
| EnvLock.Holder.Acquire | src/fiber/env-lock.ts:40-90 | within two attempts the lock is taken exactly when no live or unverifiable owner is recorded and the file operations succeed; every error leaves the file as described |
| EnvLock.Holder.Release | src/fiber/env-lock.ts:92-105 | only a holder touches the file, and only its own or an unreadable record goes |
| EnvLockSteps.StepExactly | src/fiber/env-lock.ts:43-105 | a single file operation takes the file from a process that has created it and not yet given the lock back if and only if it is an unlink by another process |
| EnvLockSteps.RunExactly | src/fiber/env-lock.ts:43-105 | over a run of any number of processes, crashes and failing operations included, all keep their files if and only if there is no such unlink |
| EnvLockSteps.KeptExcludes | src/fiber/env-lock.ts:34-39 | with their files kept, one process at most is between creating and giving back |
| EnvLockSteps.WrittenIsSafe | src/fiber/env-lock.ts:51-70 | a look at the file after the holder has written its record leads to no unlink while the holder holds |
| EnvLockSteps.NextGetsIn | src/fiber/env-lock.ts:43-80 | after such an unlink the next process to try holds the lock beside the one inside |
| EnvLockSteps.DeadOwnerRace | src/fiber/env-lock.ts:51-70 | two processes that read a dead owner's record come to hold the lock |
| EnvLockSteps.BlankFileRace | src/fiber/env-lock.ts:43-80 | two processes come to hold the lock from an absent file, one unlinking the file the other has created and not yet written |
| EnvLockSteps.OldRecordRace | src/fiber/env-lock.ts:51-70 | two processes come to hold the lock after one read a live owner's record and checked the owner only when it had gone |
| FiberManager.WithoutOwn | src/fiber/manager.ts:444-449 | the record no longer names the process, and another process's record stays |
| FiberManager.StopFiberNodes | src/fiber/manager.ts:399-429 | every child has exited; one that was running has had a SIGTERM, and a SIGKILL if it does not heed it; those already gone were not signalled, SIGKILL only follows SIGTERM and an expired wait, and the record goes only if it is ours |
| FiberManager.WaitForAllNodeInfo | src/fiber/manager.ts:119-161 | ready if and only if the first thing every node does within the timeout is to answer; each node is judged by the first round in which it answers or has exited, and a timeout lists exactly the silent ones |
| FiberManager.StartFiberEnvironment | src/fiber/manager.ts:305-392 | the start succeeds if and only if no live or unverifiable manager is recorded, every spawn succeeds, every node first answers within the timeout and the checks pass; then all run and the record names this process, and any other end but a refusal leaves every spawned child terminated and dead and no record |
| FiberCommands.Environment.AssertFiberFullyStopped | src/fiber/clean.ts:29-50 | passes if and only if manager and daemon are confirmed dead and every store is confirmed free; otherwise names the first that is not |
| FiberCommands.Environment.FiberClean | src/fiber/clean.ts:60-114 | deletes if and only if the lock is taken, both checks pass and the answer is yes; on every other path only the lock file is touched, and the lock is given back on all |
| FiberCommands.Environment.Clean | src/cmd/clean.ts:31-86 | deletes if and only if the lock is taken, the CKB daemon is gone and the Fiber check passes; then stores, stale record and chain data or the whole tree are gone |
| FiberCommands.WaitForProcessExit | src/util/daemon.ts:150-171 | ends at the first look that does not find the process alive: gone, or an error when it cannot tell; only a full wait reports it still there |
| FiberCommands.WaitForStoreLocksReleased | src/fiber/store-lock.ts:58-73 | true if and only if one look within the timeout finds every store free, unknown counting as held |
| FiberCommands.Environment.StopManagerAndCleanup | src/fiber/daemon.ts:194-247 | PID file and record go only when the last look finds the process gone, and survive everything else; SIGKILL follows only a full wait for the process or the stores, and a manager that goes down in time is stopped without it |
| FiberCommands.Environment.StopFiber | src/fiber/daemon.ts:285-385 | exactly a verified process of a daemon PID file is signalled, the node daemon exactly when it is the live manager and no Fiber daemon may be there, a foreground manager never; the files that name a process go exactly when it is gone before or seen to go, and a process that goes down in time is stopped |
| FiberProtocol.CleanNeverDeletesAnOpenStore | src/fiber/clean.ts:29-114 | in no interleaving does a clean command delete a store a live FNN has open, nor anything while one lives |
| FiberProtocol.StepClear | src/cmd/clean.ts:39-85 | what a cleaner has found closed stays closed while it holds the lock |
| FiberProtocol.OneLockHolder | src/fiber/env-lock.ts:40-105 | in every reachable state at most one live process is in its locked part, and the file records it |
| FiberProtocol.SingleOwnership | src/fiber/manager.ts:305-450 | at most one live process has live FNNs, and it holds the lock or is the recorded manager |
| FiberProtocol.LiveManagerKeepsItsRecord | src/fiber/manager.ts:63-72 | no other process's step removes or replaces a live manager's record |
| FiberProtocol.TargetOrLingers | src/fiber/daemon.ts:289-319 | what `fiber stop` may signal is the recorded manager, or no live one is recorded, unless it is a finished daemon child whose record stayed `starting` past the window |
| FiberProtocol.StepInv | src/cmd/fiber.ts:50-150 | every step of launch, start, supervise, stop, clean, signal and crash keeps all invariants of lock, record, PID file, children, stores and cleanup |
| FiberRuns.StopLosesTheRecord | src/fiber/daemon.ts:227-246 | stopping a target takes a live manager's record if and only if the target is a lingering process beside a live recorded manager |
| FiberRuns.LingeringTargetBreaksOwnership | src/fiber/daemon.ts:194-247 | a run from the empty state in which such a stop lets two managers run FNNs at once |
| FiberRuns.SecondSignalOrphans | src/fiber/manager.ts:344-351 | during startup a second signal of either kind leaves the FNNs running without their manager |
| FiberRuns.SecondSignalOrphansManaged | src/cmd/fiber.ts:84-88 | the same while a manager is stopping |
| FiberRuns.LockKeptAtEnd | src/cmd/fiber.ts:117-148 | a process that has left its locked part is still named by the lock file if and only if it is dead or found the contracts missing |
| FiberRuns.OnlyMissingContractsShutOut | src/cmd/fiber.ts:117-122 | after such an end another start may take the lock if and only if it was not for missing contracts |
| FiberRuns.ShutOutWhileLingering | src/cmd/fiber.ts:117-122 | over every run after that end nobody takes the lock as long as the process lives |
| FiberRuns.ShutOutHappens | src/cmd/fiber.ts:117-122 | a run from the empty state in which the next start cannot take the lock |
| FiberRuns.KeptUntilGone | src/fiber/env-lock.ts:51-70 | nobody takes a lock whose recorded process is alive; once that is gone any start can |
| FiberTeardown.DoneIsTidy | src/fiber/manager.ts:399-429 | a process that has finished has no live FNN and is not named by the record |
| FiberTeardown.TeardownExact | src/fiber/manager.ts:328-391 | from the first spawn on, in any interleaving without a crash of it, a process ends with every FNN dead and no record naming it if and only if no kind of signal arrives twice before that |
| FiberTeardown.CommittedMoves | src/fiber/manager.ts:328-343 | after a failure or signal each own step brings the process closer to its end, in either order of main flow and signal cleanup |
| FiberTeardown.TeardownCanFinish | src/fiber/manager.ts:353-391 | a failed or signalled startup never blocks: some finishing step is always possible |
| FiberTeardown.TeardownFinishes | src/fiber/manager.ts:324-392 | from any failure or signal, in any interleaving, a bounded number of own steps ends the process, with every FNN dead and the record not naming it unless a signal repeated |
| FiberRefinement.FullyStoppedIsRun | src/fiber/clean.ts:29-50 | whenever the imperative check passes it has been a run of the protocol, at whose end the command may go on |
| FiberRefinement.StartAsRun | src/fiber/manager.ts:305-392 | a call of the imperative start, whatever its outcome, has been a run of the protocol that leaves its record, its children alive or dead, and the lock free; which outcome it has is settled by the answers |
| FiberRefinement.StopAsRun | src/fiber/daemon.ts:285-385 | a call of the imperative stop has been a run of the protocol up to its signal, to the process signalled, or with the files it leaves |
| FiberRefinement.FailedSpawnIsRun | src/fiber/manager.ts:353-360 | a start in which a spawn fails is a run that leaves no child alive and no record |
| FiberRefinement.StartIsRun | src/fiber/manager.ts:305-392 | both ends of a start are runs of the protocol, leaving the record the imperative form leaves, the children running or dead |
| FiberRefinement.SignalledIsTarget | src/fiber/daemon.ts:289-385 | what the imperative stop signals is what the protocol lets a stop target |
| FiberRefinement.StopNodesLeaves | src/fiber/manager.ts:399-429 | the protocol's steps that take the nodes down leave the record that the imperative form leaves |
| ForkSafety.FirstRunComplete | src/devnet/fork.ts:74-82 | a pending record gets the tip as boundary and is no longer pending, its source and genesis staying; any other is unchanged |
| ForkSafety.ValidateMainnetForkSigning | src/util/fork-safety.ts:40-67 | only outside a mainnet fork is signing unrestricted; otherwise a recorded non-negative boundary gives that limit, and one that is missing or unreadable or an external key not allowed refuses |
| ForkSafety.AssertInputsCreatedAfter | src/sdk/ckb.ts:422-440 | passes if and only if no limit is set or every input is known and committed after it; otherwise names the first input that is not |
| ForkSafety.ForkFile.MarkForkFirstRunComplete | src/devnet/fork.ts:74-82 | the stored boundary becomes the tip exactly when the record is there and pending; all else is unchanged |
| ForkSafety.ForkFile.ClearForkFirstRunWhenNodeUp | src/cmd/node.ts:497-547 | the boundary is recorded if and only if in some round before exit and timeout a node with the fork's genesis and a tip answers that is not known to be another process, and no other genesis was seen up to then; it is then that tip |
| ForkSafety.DevnetDir.Fork | src/devnet/fork.ts:440-582 | each refusal has its condition and changes nothing, a failed step leaves no devnet and is the first that fails, success leaves the copied chain and a pending record without boundary |
| ForkReplay.RecordStep | src/devnet/fork.ts:74-82 | until the devnet is replaced, a recorded boundary stays as it is |
| ForkReplay.GuardedInputs | src/sdk/ckb.ts:422-440 | what passes the input check with the recorded boundary spends fork-mined outputs only |
| ForkReplay.StepReplay | src/sdk/ckb.ts:189-226 | every step keeps the pool and the fork-mined blocks free of spends of copied cells |
| ForkReplay.RecordedBoundaryStands | src/cmd/node.ts:248-259 | over every run, failed and timed-out first boots included, a recorded boundary lies between the copied tip and the present one, is the copied tip while nothing has been mined, and stays until the devnet is replaced |
| ForkReplay.NothingSignedWithoutBoundary | src/util/fork-safety.ts:55-66 | while a mainnet fork has no boundary no permission is given and no current one lets a transaction through |
| ForkReplay.AncestorsForkMined | src/sdk/ckb.ts:422-440 | induction along a path of spends: every ancestor was mined on the fork, in an earlier block |
| ForkReplay.ReplaySafety | src/sdk/ckb.ts:422-440 | on a mainnet fork the whole ancestry of every fork-mined transaction, and every input of it, lies in fork-mined blocks |
| ForkReplay.StraddlingSend | src/util/fork-safety.ts:40-67 | a permission from before a re-fork lets a spend of copied cells through if and only if its limit lies below some copied transaction |
| ForkReplay.StraddlingSendHappens | src/util/fork-safety.ts:40-67 | a run from the empty state in which such a send is accepted |
| ConfigTree.GetByPath | src/devnet/config-editor.ts:134-143 | the walk returns what the path names, stopping at missing or childless values |
| ConfigTree.SetByPath | src/devnet/config-editor.ts:145-161 | the walk puts the value at the path, creating mappings on the way; an empty path changes nothing |
| ConfigTree.ReadOfShow | src/devnet/config-editor.ts:389-391 | array indices as path keys are read back, so no two are alike |
| ConfigTree.GetPut | src/devnet/config-editor.ts:145-161 | what was put at a path is read there |
| ConfigTree.GetPutElsewhere | src/devnet/config-editor.ts:145-161 | putting at a path changes nothing beside it |
| ConfigTree.WellFormedPut | src/devnet/config-editor.ts:145-161 | putting keeps keys unique in every mapping |
| ConfigListing.EntriesExact | src/devnet/config-editor.ts:372-407 | every node but the root is listed exactly once, under the path that looks it up, with its kind and primitive value |
| ConfigListing.EntriesInOrder | src/devnet/config-editor.ts:372-403 | the listing is in preorder: a node before what is below it, a child's subtree before the later children's |
| ConfigListing.WalkOfPut | src/devnet/config-editor.ts:372-403 | a subtree is one contiguous stretch of the listing, its own node first, and replacing it leaves the listing before and after alone |
| ConfigListing.DeleteRemovesSubtree | src/devnet/config-editor.ts:578-605 | deleting removes exactly the subtree's stretch; of the rest only later array siblings change, each index going down by one |
| ConfigEditor.FieldById | src/devnet/config-editor.ts:415-426 | a field is found by id if and only if the table has it |
| ConfigEditor.SafeField | src/devnet/config-editor.ts:127-132 | a path is a safe field's if and only if the dotted texts are equal |
| ConfigEditor.FieldTexts | src/devnet/config-editor.ts:428-480 | numbers are taken if and only if positive integers, texts if and only if not blank and, for the two address fields, of their form |
| ConfigEditor.Edited | src/devnet/config-editor.ts:428-617 | no operation leaves a field without a cached value of its type |
| ConfigEffects.EditHasEffect | src/devnet/config-editor.ts:428-617 | every operation on every editor is accepted if and only if its place exists, is of the right kind and in range, and its text can be read; it then leaves, position by position, what the operation says with the value the text reads as, everything beside it unchanged, and otherwise changes nothing and gives a reason that holds |
| ConfigEffects.FieldParsed | src/devnet/config-editor.ts:428-480 | a safe field takes a text as a value if and only if that is its reading under the type and form of the field |
| ConfigEffects.LikeParsed | src/devnet/config-editor.ts:234-256 | in place of a flag, a number or a text the input is read as one, and refused if and only if it has no such reading |
| ConfigEffects.NewParsed | src/devnet/config-editor.ts:258-275 | a new value is a flag before a number before plain text, and refused if and only if blank |
| ConfigEffects.PositionNamed | src/devnet/config-editor.ts:578-605 | a deletion takes the array item whose index the key reads as, or the entry with the key, and is refused if and only if there is none |
| ConfigAgreement.ShippedTableOk | src/devnet/config-editor.ts:44-125 | in the shipped table ids differ, no key is an array index and no field lies above another |
| ShippedConfig.ShippedFieldsFit | src/devnet/config-editor.ts:44-125 | every field of the shipped table is named after its path and is in the shipped documents with a value of its type |
| ConfigAgreement.DeleteAgrees | src/devnet/config-editor.ts:578-605 | a deletion keeps a field in agreement if and only if it does not hit the field |
| ConfigAgreement.EditKeepsAgreement | src/devnet/config-editor.ts:428-617 | an edit keeps the cache in agreement with the documents if and only if it is no deletion that hits a field |
| ConfigAgreement.EditKeepsWellFormed | src/devnet/config-editor.ts:428-617 | every edit keeps the documents well formed |
| ConfigAgreement.AgreementOverRuns | src/devnet/config-editor.ts:320-617 | over every sequence of edits without such a deletion the cache shows what the documents hold |
| ConfigAgreement.MoveUndone | src/devnet/config-editor.ts:549-568 | a move permutes the items, keeps the order of the others, and the reverse move undoes it |
| ConfigAgreement.EditReadBack | src/devnet/config-editor.ts:428-547 | looking up the place an operation writes to gives the value it returned |
| ConfigAgreement.EditIsLocal | src/devnet/config-editor.ts:482-576 | an operation on a path leaves everything beside it, the other document and the cache alone |
| DevnetEditor.DevnetConfigEditor.Load | src/devnet/config-editor.ts:330-347 | loading succeeds if and only if every field is present with its type, establishes agreement, and otherwise reports the first field that does not fit |
| DevnetEditor.DevnetConfigEditor.SetFieldValue | src/devnet/config-editor.ts:428-480 | cache and document get the reading of the text under the field's type together, and neither changes if and only if the field is unknown or the text has none |
| DevnetEditor.DevnetConfigEditor.SetDocumentValue | src/devnet/config-editor.ts:482-502 | a path whose dotted text is a safe field's sets that field; in place of any other primitive the document then holds the text's reading as the same kind (flag, number or trimmed text), refused if and only if it has none; the root, containers and missing paths change nothing |
| DevnetEditor.DevnetConfigEditor.AddObjectEntry | src/devnet/config-editor.ts:504-521 | a new key comes last in the mapping with the parsed value; blank or taken keys and other targets change nothing |
| DevnetEditor.DevnetConfigEditor.AppendArrayEntry | src/devnet/config-editor.ts:523-532 | the parsed value comes last in the array; other targets change nothing |
| DevnetEditor.DevnetConfigEditor.InsertArrayEntry | src/devnet/config-editor.ts:534-547 | the parsed value stands at the index and later items move up; an index beyond the end changes nothing |
| DevnetEditor.DevnetConfigEditor.MoveArrayEntry | src/devnet/config-editor.ts:549-568 | the item ends at the target index among the others in their order; equal positions and bad indices change nothing |
| DevnetEditor.DevnetConfigEditor.SetArrayValues | src/devnet/config-editor.ts:570-576 | the array holds exactly the given texts; other targets change nothing |
| DevnetEditor.DevnetConfigEditor.DeleteDocumentPath | src/devnet/config-editor.ts:578-605 | the array item whose index the key reads as, or the entry with the key, is gone, the others keep their order, and the cache is as before; the root, missing keys, bad indices and childless parents change nothing |
| DevnetEditor.DevnetConfigEditor.ToggleBooleanField | src/devnet/config-editor.ts:607-617 | cache and document both get the negation of the cached flag; fields that are unknown or no flags change nothing |
| ConfigMerge.MergeNodeConfig | src/fiber/config-gen.ts:23-37 | the loop over the override's entries is the recursive merge: mappings merge, lists and other values replace, new keys come last |
| ConfigMerge.MergedLookup | src/fiber/config-gen.ts:23-37 | a key of the merge holds the override's value merged onto the base's, or the base's own; what merging onto is, OverrideWins says by path |
| ConfigMerge.OverrideWins | src/fiber/config-gen.ts:19-37 | at every path that the override sets, two mappings make one with the base's keys first in their order and the new ones after them, and anything else is what the override has there |
| ConfigMerge.MergedKeys | src/fiber/config-gen.ts:23-37 | the merge has the base's keys in their order, then the override's new ones in theirs |
| ConfigMerge.MergeIdempotent | src/fiber/config-gen.ts:23-37 | merging the same override twice is merging it once, order of keys included |
| ConfigMerge.UnsetPathKept | src/fiber/config-gen.ts:23-37 | a path the override does not set keeps the base's value if and only if the override has only mappings on the way or the base has nothing there |
| ConfigMerge.GeneratedManaged | src/fiber/config-gen.ts:67-97 | the generated configuration holds the environment's values at the managed paths, and the template's store path |
| ConfigMerge.GeneratedSettings | src/fiber/config-gen.ts:62-98 | the generated configuration announces private addresses, maintains gossip every second, names the node and has the enabled modules |
| ConfigMerge.TemplateKept | src/fiber/config-gen.ts:62-98 | every other section of the template stays as it is |
| ConfigMerge.ManagedFields | src/fiber/nodes-yml.ts:22-61 | settings are accepted if and only if they set none of nine named fields |
| ConfigMerge.AssertNoManagedFields | src/fiber/nodes-yml.ts:43-61 | passes if and only if no managed path is set, and otherwise names one that is |
| ConfigMerge.ManagedFieldsSurvive | src/fiber/config-gen.ts:67-98 | accepted settings leave every managed field as generated if and only if their fiber, rpc and ckb entries are mappings or absent |
| ConfigMerge.EmptySectionErases | src/fiber/nodes-yml.ts:43-61 | a section without a value is accepted and erases its managed fields |
| NodesYml.EntryOf | src/fiber/nodes-yml.ts:75-84 | an entry is readable if and only if its id is a positive integer and its settings are a mapping, empty or left out; it then has that id and those settings |
| NodesYml.ReadNodesYml | src/fiber/nodes-yml.ts:63-103 | a list is read if and only if its entries are readable, distinct, within bounds and set nothing managed; the result is sorted by id, and the reason of a refusal holds |
| NodesYml.EnsureNodesYml | src/fiber/nodes-yml.ts:121-156 | only a requested count out of bounds (1 to 16) fails, a missing file starts with two nodes, and the file is written exactly when it is missing or the list changes |
| NodesYml.ResizedNodes | src/fiber/nodes-yml.ts:141-155 | resizing keeps a valid list valid, numbers it from 1, keeps every surviving node's settings, and doing it again changes nothing |
| NodesYml.NewNodesStartEmpty | src/fiber/nodes-yml.ts:141-145 | a node that was not in the list starts without settings |
| NodesYml.WrittenNodesReadBack | src/fiber/nodes-yml.ts:105-112 | a valid list in id order is read back from what is written |
| Utf8.DecodeInChunks | src/devnet/log-file.ts:117-155 | decoding in chunks cut anywhere is decoding the whole |
| Utf8.DecodeOfEncode | src/devnet/log-file.ts:117-123 | encoded text decodes to itself but for a leading byte order mark |
| Utf8Errors.BrokenOff | src/devnet/log-file.ts:117-123 | a beginning of a character that breaks off becomes one replacement character, and the byte that broke it off is read anew |
| Utf8Errors.StrayByte | src/devnet/log-file.ts:117-123 | a byte that begins no character becomes one replacement character |
| Utf8Errors.UnfinishedWaits | src/devnet/log-file.ts:117-155 | a beginning gives nothing yet and goes on exactly with the bytes that can continue it |
| Utf8Errors.Cases | src/devnet/log-file.ts:117-123 | every input starts with a character, with a beginning that ends or breaks off, or with a stray byte |
| LogFilter.SplitAppend | src/devnet/log-file.ts:149-152 | text arriving in pieces splits into the same lines, the unfinished one carried over |
| LogFilter.TailLines | src/devnet/log-file.ts:62-67 | the last lines of the file, a trailing newline starting no further line |
| LogFilter.FilterLinesByTarget | src/devnet/log-file.ts:47-60 | line i is kept if and only if some line at or before it parses with the target and no line after that one up to i parses; the result is these lines at increasing positions, each once |
| LogFilter.FilterPositions | src/devnet/log-file.ts:47-60 | the same of the filter from either entry state on |
| LogFilter.GrepPositions | src/devnet/log-file.ts:69-71 | a line is kept if and only if the pattern stands somewhere in it, at increasing positions, each once |
| LogFilter.SplitExactly | src/devnet/log-file.ts:62-67 | the lines have no newline in them and, joined by newlines, are the text |
| LogFilter.ScriptTail | src/cmd/logs.ts:42-44 | the script tail is the last lines of the target's entries in the last 100 lines per line asked for |
| LogFilter.Grep | src/devnet/log-file.ts:69-71 | exactly the lines that contain the pattern |
| LogFilter.ScriptTailIsSuffix | src/cmd/logs.ts:42-44 | the script tail is a stretch at the end of the filtered file, and the last lines of it when the scan window holds enough or the whole file |
| LogFilter.ShowExisting | src/cmd/logs.ts:32-46 | a non-positive tail is refused; otherwise tail, target filter and pattern apply in this order, the filter keeping the lines of the target's entries by position |
| LogFollow.ReadMore | src/devnet/log-file.ts:142-153 | one more chunk delivers exactly the lines it completes |
| LogFollow.FollowRefinesBatch | src/devnet/log-file.ts:117-162 | on an append-only file, in any split into ticks and short reads, the lines delivered are the non-empty terminated lines of the bytes consumed |
| LogFollow.RestartBeginsAnew | src/devnet/log-file.ts:124-133 | truncation or rotation makes it a new follower at position 0 |
| LogFollow.FollowsPresentFile | src/devnet/log-file.ts:117-162 | over any run of looks, rotations and truncations included, what is delivered ends in the non-empty terminated lines of the present file up to the position reached, read from its first byte, or from where the follower was started if it is still the same |
| LogFollow.NonEmptyPositions | src/devnet/log-file.ts:149-154 | the lines handed on are the non-empty ones, at increasing positions, each once |
| LogFollow.Follow | src/cmd/logs.ts:50-61 | what a follower has printed after its notifications is, by position, the lines of the target's entries that contain the pattern, of all lines delivered; on a file that only grows it is the batch filter and pattern over the lines of the bytes consumed |
| LogFollow.ShownAppend | src/cmd/logs.ts:50-61 | filtering in portions, the entry state carried over, is filtering at once |
| LogFollow.ShownPositions | src/cmd/logs.ts:50-61 | a line is shown if and only if it is in an entry of the target and contains the pattern |
| LogFollow.LogFollower.OnLine | src/cmd/logs.ts:51-61 | what is printed stays, by position, the lines of the target's entries that contain the pattern, of all lines delivered |
| LogFollow.LogFollower.OnChange | src/devnet/log-file.ts:124-157 | one notification moves the follower as specified and prints through the filter |
| ProxyLog.Sanitize | src/tools/proxy-events.ts:38-40 | control characters become blanks, everything else stays |
| ProxyLog.OneLinePerEvent | src/tools/proxy-events.ts:63-63 | whatever the texts, splitting the file at newlines gives one record per event: the time stamp, a blank and the text without control characters |
| ProxyLog.ProxyEventLog.Rollover | src/tools/proxy-events.ts:66-90 | under any failures archive and active file stay the latest lines without a gap, and a failed move puts the archive back |
| ProxyLog.ProxyEventLog.Event | src/tools/proxy-events.ts:56-97 | a line is appended unless directory, measuring or appending fails; without failures the size estimate is exact and the file within the cap or a single line |
| ConfigMigration.AddTerminalModule | src/node/init-chain.ts:117-148 | searching line by line makes the edit that AddedTo characterises, and none without an array that closes in the section |
| ConfigMigration.RemoveTerminalModule | src/node/init-chain.ts:153-179 | searching line by line makes the edit that CutExactly and RemoveUndoesAdd characterise, and none where the module is not listed |
| ConfigMigration.EnableTcpListenAddress | src/node/init-chain.ts:207-230 | the first commented default address of the section is made active; without one a new line goes below the array, or below the header |
| ConfigMigration.MigrateLegacyDevnetRpcConfig | src/node/init-chain.ts:246-289 | the edits are made exactly for what the parsed file lacks and the version supports, the section being found again in between |
| ConfigMigration.SupportedFrom | src/node/init-chain.ts:67-81 | the module is supported from the prereleases of 0.205.0 on in the order of versions, and where the version is not known |
| ConfigMigration.LeftAlone | src/node/init-chain.ts:246-289 | the file is left alone if and only if address and modules need nothing, there is no section, or only the module is wanted and its array does not close |
| MigrationLaws.AddedTo | src/node/init-chain.ts:117-148 | in a laid-out file adding the module is appending it to the array and touching nothing else |
| MigrationLaws.TcpEnabled | src/node/init-chain.ts:207-230 | enabling the address changes one line of the section outside the array and nothing else |
| MigrationLaws.MigrateIsIntended | src/node/init-chain.ts:246-289 | migrating a laid-out file makes the intended file, or nothing when nothing is needed |
| MigrationLaws.AppendedNames | src/node/init-chain.ts:117-148 | the module comes once, after the old modules, which stay as they were |
| MigrationLaws.MigrateIdempotent | src/node/init-chain.ts:246-289 | migrating a migrated file changes nothing |
| MigrationLaws.MigrationIsLocal | src/node/init-chain.ts:246-289 | nothing outside the section changes; old versions do not get the module; an active address is left alone, and otherwise one default comment loses its comment sign and nothing else, or one line is new |
| MigrationLaws.RemoveUndoesAdd | src/node/init-chain.ts:153-179 | removing the added module restores the module list, and on one line the very line |
| MigrationLaws.CutExactly | src/node/init-chain.ts:159-168 | on one line a name is found if and only if it is listed; its first occurrence after a comma goes, else the first name, the other names keep their order, and one stretch with one comma is cut out of the text |

## Left out

- Reader and builder helpers of the Molecule runtime: `molecule_reader.h` and `molecule_builder.h` are not part of this model; number packing, fixed-size and fixed-vector checks follow RFC 0008, with the item product of a fixed vector unbounded.
- MolReader.Verify: one reader over schemas stands for the generated functions, which differ in field count and types only.
- MolBuilder.Build: requires the announced size to be below 2^32, the set fields to lie inside the data and every allocation to succeed; the C code wraps and reads on.
- Molecule unions, and the accessor macros beyond the offset arithmetic they name.
- FiberProtocol.SingleOwnership: of runs in which no stop goes after a lingering process beside a live recorded manager; the code does not check it, see above.
- FiberProtocol.LiveManagerKeepsItsRecord: of the same runs.
- FiberProtocol.StepInv: of the same steps.
- FiberTeardown.TeardownFinishes: asks for no crash of the process itself; TeardownExact says what repeated signals do.
- Fiber assumptions: acquiring the lock is one step (EnvLockSteps has its file operations one by one), record writes succeed, a SIGKILLed child is dead, an FNN opens its store when it is spawned, a daemon child reaches the lock, and its launcher is done or gone, before its startup window ends, process ids are not reused among OffCKB processes, and a liveness check is only ever definite about death.
- FiberCommands.Environment.FiberClean: what other processes do while the prompt is open shows only in the second set of answers; FiberProtocol has the interleavings.
- The launcher of `fiber start --daemon` is modelled by its effect on the PID file; replacing a stale file is one step, and so is the change from the startup handlers to the manager's. The node daemon's PID file is not in the protocol: `fiber stop` may target any recorded manager there. Identity checks always succeed on an OffCKB process.
- `devnet fork --force`, which replaces the devnet directory without the environment lock, is not a step of the Fiber protocol; it is one of the fork model.
- FiberManager.StartFiberEnvironment: chain, identity, balance and peer checks are one flag, and key material, config files and port checks before the first spawn are not in it; signals during startup are in the protocol only.
- ForkReplay.ReplaySafety: every non-cellbase transaction of the pool comes through a guarded send, the answering node is the spawned one, its chain is append-only, transaction ids are unique, and no send uses a permission from before the devnet was replaced.
- ForkSafety.DevnetDir.Fork: identifying the source chain, installing the binary and the preflight before the dry-run answer.
- Killing the process in the middle of `devnet fork`, a fork record damaged by hand (it reads as no fork), and failing writes of the record.
- Input selection, fees, signing and hashing in the CCC library; RPC and HTTP.
- Config documents are values: sharing of subtrees between two places of a document is not modelled.
- ConfigTree.SetByPath: writing to an array at a key that is not an index in range does nothing here; the program would set a property of the array.
- Property names every JavaScript object or array has (`length`, `toString`, `__proto__`), the order of integer-like keys, and value previews of listed entries.
- Number, boolean, host and URL parsing, blank trimming and the log-line pattern are parameters; numbers are reals.
- Parsing and printing TOML, YAML and JSON; saving the editor's documents and the checks before it.
- NodesYml.ReadNodesYml: which of several errors that hold is reported is not stated.
- ConfigEffects.EditHasEffect: nor is it for the editor's operations.
- ConfigMigration.RemoveTerminalModule: a comment behind a one-line array that itself has the quoted name after a comma; where the array has it first or not at all the program would cut it from the comment.
- Log lines are sequences of code points; a pattern that is half a surrogate pair, and a read error in the middle of a tick, are not modelled.
- LogFollow.FollowsPresentFile: a file that was cut and has grown past the reading position again under the same inode between two looks counts as one that has only grown, as the program cannot tell.
- ProxyLog.ProxyEventLog.Event: an append writes the whole line or nothing, and no other process touches the files.
- MigrationLaws.MigrateIsIntended: one `[rpc]` section, a non-empty array without comments among its entries, on one line without trailing comma or with brackets on lines of their own, and no empty active address; on other files the edits are modelled but not characterised.
- Wall-clock timeouts are choices of when a loop ends; installers, checksums, templates, prompts, terminal widgets, command-line parsing and script tables are not modelled.
