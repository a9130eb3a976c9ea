/**
 A devnet over whole runs of forking, booting, mining and guarded sends: the
 recorded boundary is never below the copied tip, and what was mined after it
 never descends from a copied cell.
 */
module ForkReplay {
  import opened Options
  import opened ForkSafety

  type TxId = nat
  type Sender = nat

  /** `inputs` names the transactions whose outputs are spent. */
  datatype Tx = Tx(id: TxId, inputs: seq<TxId>, cellbase: bool)

  type Block = seq<Tx>

  /** `Polling` and `TipRead` are the first run before its miner is started. */
  datatype Node = Off | Polling | TipRead(tip: nat) | Mining

  /** What a sender got from the signing guard, and the fork it asked about. */
  datatype Ticket = Ticket(guard: Guard, era: nat)

  datatype State = State(
    chain: seq<Block>,
    copied: nat, // the number of blocks copied from the source
    era: nat, // how many times the devnet was replaced
    record: Option<ForkState>,
    node: Node,
    pool: set<Tx>,
    tickets: map<Sender, Ticket>)

  datatype Event =
    | Fork(source: Source, genesis: string, copy: seq<Block>)
    | Fresh
    | Boot
    | ReadTip
    | Mark
    | GiveUp
    | Stop
    | Mine(block: Block)
    | Validate(p: Sender, builtInKey: bool, allowExternal: bool)
    | Send(p: Sender, tx: Tx)

  // ---- the chain ----

  predicate Has(chain: seq<Block>, n: int, id: TxId) {
    0 <= n < |chain| && exists i :: 0 <= i < |chain[n]| && chain[n][i].id == id
  }

  ghost predicate Known(chain: seq<Block>, id: TxId) {
    exists n :: Has(chain, n, id)
  }

  /** Transaction ids are hashes: one id never occurs in two blocks. */
  ghost predicate UniqueIds(chain: seq<Block>) {
    forall m, n, id :: Has(chain, m, id) && Has(chain, n, id) ==> m == n
  }

  /** What `get_transaction` answers. */
  ghost function OriginOf(chain: seq<Block>, id: TxId): Origin {
    if Known(chain, id) then
      var n :| Has(chain, n, id);
      Committed(n)
    else Unknown
  }

  ghost function Origins(chain: seq<Block>, ids: seq<TxId>): seq<Origin> {
    seq(|ids|, i requires 0 <= i < |ids| => OriginOf(chain, ids[i]))
  }

  /** The send path of every command: the input check runs with the guard's limit. */
  ghost predicate MayBroadcast(guard: Guard, origins: seq<Origin>) {
    match guard
    case Unrestricted => true
    case After(limit) => forall i :: 0 <= i < |origins| ==> CreatedAfter(origins[i], limit)
    case _ => false
  }

  // ---- steps ----

  ghost predicate MineOk(s: State, block: Block) {
    && (forall i :: 0 <= i < |block| ==>
          && !Known(s.chain, block[i].id)
          && (if block[i].cellbase then block[i].inputs == [] else block[i] in s.pool))
  }

  ghost predicate Enabled(s: State, ev: Event) {
    match ev
    case Fork(_, _, copy) => s.node == Off && copy != [] && UniqueIds(copy)
    case Fresh => s.node == Off
    case Boot => s.node == Off
    case ReadTip => s.node == Polling && s.chain != []
    case Mark => s.node.TipRead?
    case GiveUp => s.node == Polling || s.node.TipRead?
    case Stop => true
    case Mine(block) => s.node == Mining && MineOk(s, block)
    case Validate(_, _, _) => true
    case Send(p, tx) =>
      && s.node != Off && p in s.tickets && !tx.cellbase
      && MayBroadcast(s.tickets[p].guard, Origins(s.chain, tx.inputs))
  }

  ghost function Apply(s: State, ev: Event): State
    requires Enabled(s, ev)
  {
    match ev
    case Fork(source, genesis, copy) =>
      State(copy, |copy|, s.era + 1, Some(ForkState(source, genesis, true, None)), Off, {}, s.tickets)
    case Fresh => State([], 0, s.era + 1, None, Off, {}, s.tickets)
    case Boot => s.(node := if s.record.Some? && s.record.value.firstRunPending then Polling else Mining)
    case ReadTip => s.(node := TipRead(|s.chain| - 1))
    case Mark => s.(record := FirstRunComplete(s.record, s.node.tip), node := Mining)
    case GiveUp => s.(node := Mining)
    case Stop => s.(node := Off)
    case Mine(block) => s.(chain := s.chain + [block], pool := s.pool - set t | t in block)
    case Validate(p, builtInKey, allowExternal) =>
      s.(tickets := s.tickets[p := Ticket(ValidateMainnetForkSigning(true, s.record, builtInKey, allowExternal), s.era)])
    case Send(p, tx) => s.(pool := s.pool + {tx})
  }

  /** No sender uses an answer about a devnet that has been replaced since. */
  predicate Current(s: State, ev: Event) {
    ev.Send? ==> ev.p in s.tickets && s.tickets[ev.p].era == s.era
  }

  // ---- invariants ----

  predicate OnMainnet(s: State) {
    s.record.Some? && s.record.value.source == Mainnet
  }

  /** A boundary once recorded is a block number between the copied tip and the present one. */
  predicate BoundaryOk(s: State) {
    && s.copied <= |s.chain|
    && (s.node.TipRead? ==> s.copied <= s.node.tip + 1 <= |s.chain|)
    && (s.record.Some? ==>
          && s.copied >= 1
          && (s.record.value.firstRunPending <==> s.record.value.boundary.None?)
          && match s.record.value.boundary
             case None => true
             case Some(NotANumber) => false
             case Some(Numeral(b)) => s.copied <= b + 1 <= |s.chain|)
  }

  predicate TicketOk(s: State, ticket: Ticket) {
    && ticket.era <= s.era
    && (ticket.era == s.era && OnMainnet(s) ==>
          match ticket.guard
          case Unrestricted => false
          case After(limit) => s.record.value.boundary == Some(Numeral(limit))
          case _ => true)
  }

  ghost predicate TicketsOk(s: State) {
    forall p :: p in s.tickets ==> TicketOk(s, s.tickets[p])
  }

  /** Every input comes from a fork-mined block below `n`. */
  ghost predicate SpendsForkMined(s: State, tx: Tx, n: nat) {
    forall id :: id in tx.inputs ==> exists m :: s.copied <= m < n && Has(s.chain, m, id)
  }

  ghost predicate ReplayInv(s: State) {
    && UniqueIds(s.chain)
    && (OnMainnet(s) ==>
          && (forall tx :: tx in s.pool ==> SpendsForkMined(s, tx, |s.chain|))
          && (forall n, i :: s.copied <= n < |s.chain| && 0 <= i < |s.chain[n]| ==> SpendsForkMined(s, s.chain[n][i], n)))
  }

  ghost predicate Init(s: State) {
    s == State([], 0, 0, None, Off, {}, map[])
  }

  /** The boundary changes only by being recorded, and the record is replaced only with the devnet. */
  lemma RecordStep(s: State, ev: Event)
    requires BoundaryOk(s) && Enabled(s, ev) && !ev.Fork? && !ev.Fresh?
    ensures Apply(s, ev).era == s.era && Apply(s, ev).copied == s.copied
    ensures OnMainnet(Apply(s, ev)) <==> OnMainnet(s)
    ensures s.record.Some? && s.record.value.boundary.Some? ==> Apply(s, ev).record == s.record
  {
  }

  lemma StepTickets(s: State, ev: Event)
    requires BoundaryOk(s) && TicketsOk(s) && Enabled(s, ev)
    ensures TicketsOk(Apply(s, ev))
  {
    var s' := Apply(s, ev);
    if !ev.Fork? && !ev.Fresh? { RecordStep(s, ev); }
    forall p | p in s'.tickets ensures TicketOk(s', s'.tickets[p]) {
      if !(ev.Validate? && ev.p == p) {
        assert TicketOk(s, s.tickets[p]);
      }
    }
  }

  lemma HasGrows(chain: seq<Block>, block: Block, n: int, id: TxId)
    ensures Has(chain + [block], n, id) <==>
            Has(chain, n, id) || (n == |chain| && exists i :: 0 <= i < |block| && block[i].id == id)
  {
    if 0 <= n < |chain| {
      assert (chain + [block])[n] == chain[n];
    } else if n == |chain| {
      assert (chain + [block])[n] == block;
    }
  }

  lemma StaysForkMined(s: State, block: Block, tx: Tx, n: nat)
    requires SpendsForkMined(s, tx, n)
    ensures SpendsForkMined(s.(chain := s.chain + [block]), tx, n)
  {
    forall id | id in tx.inputs ensures exists m :: s.copied <= m < n && Has(s.chain + [block], m, id) {
      var m :| s.copied <= m < n && Has(s.chain, m, id);
      HasGrows(s.chain, block, m, id);
    }
  }

  lemma StepMine(s: State, block: Block)
    requires ReplayInv(s) && Enabled(s, Mine(block))
    ensures ReplayInv(Apply(s, Mine(block)))
  {
    var s' := Apply(s, Mine(block));
    forall m, n, id | Has(s'.chain, m, id) && Has(s'.chain, n, id) ensures m == n {
      HasGrows(s.chain, block, m, id);
      HasGrows(s.chain, block, n, id);
    }
    if OnMainnet(s) {
      forall tx, n | SpendsForkMined(s, tx, n) ensures SpendsForkMined(s', tx, n) {
        StaysForkMined(s, block, tx, n);
      }
      forall tx | tx in s'.pool ensures SpendsForkMined(s', tx, |s'.chain|) {
        assert SpendsForkMined(s, tx, |s.chain|);
        assert SpendsForkMined(s', tx, |s.chain|);
      }
      forall n, i | s.copied <= n < |s'.chain| && 0 <= i < |s'.chain[n]|
        ensures SpendsForkMined(s', s'.chain[n][i], n)
      {
        assert SpendsForkMined(s, s'.chain[n][i], n);
      }
    }
  }

  /** What passes the input check with the recorded boundary spends fork-mined outputs only. */
  lemma GuardedInputs(s: State, tx: Tx, limit: nat)
    requires s.copied <= limit + 1
    requires MayBroadcast(After(limit), Origins(s.chain, tx.inputs))
    ensures SpendsForkMined(s, tx, |s.chain|)
  {
    forall id | id in tx.inputs ensures exists m :: s.copied <= m < |s.chain| && Has(s.chain, m, id) {
      var i :| 0 <= i < |tx.inputs| && tx.inputs[i] == id;
      assert CreatedAfter(Origins(s.chain, tx.inputs)[i], limit);
      assert Known(s.chain, id);
      assert Has(s.chain, OriginOf(s.chain, id).block, id);
    }
  }

  lemma StepReplay(s: State, ev: Event)
    requires BoundaryOk(s) && TicketsOk(s) && ReplayInv(s) && Enabled(s, ev) && Current(s, ev)
    ensures ReplayInv(Apply(s, ev))
  {
    match ev {
      case Mine(block) => StepMine(s, block);
      case Send(p, tx) =>
        if OnMainnet(s) {
          assert TicketOk(s, s.tickets[p]);
          GuardedInputs(s, tx, s.tickets[p].guard.limit);
          var s' := Apply(s, ev);
          forall t | t in s'.pool ensures SpendsForkMined(s', t, |s'.chain|) {
            assert SpendsForkMined(s, t, |s.chain|);
          }
          forall n, i | s.copied <= n < |s.chain| && 0 <= i < |s.chain[n]| ensures SpendsForkMined(s', s.chain[n][i], n) {
            assert SpendsForkMined(s, s.chain[n][i], n);
          }
        }
      case Fork(_, _, _) =>
      case _ =>
        var s' := Apply(s, ev);
        assert s'.chain == s.chain || s'.chain == [];
        forall tx, n | SpendsForkMined(s, tx, n) && s'.copied == s.copied && s'.chain == s.chain
          ensures SpendsForkMined(s', tx, n)
        {
        }
    }
  }

  // ---- runs ----

  ghost predicate Runs(s: State, evs: seq<Event>)
    decreases evs
  {
    evs == [] || (Enabled(s, evs[0]) && Runs(Apply(s, evs[0]), evs[1..]))
  }

  ghost function Final(s: State, evs: seq<Event>): State
    requires Runs(s, evs)
    decreases evs
  {
    if evs == [] then s else Final(Apply(s, evs[0]), evs[1..])
  }

  ghost predicate NoStraddling(s: State, evs: seq<Event>)
    requires Runs(s, evs)
    decreases evs
  {
    evs == [] || (Current(s, evs[0]) && NoStraddling(Apply(s, evs[0]), evs[1..]))
  }

  lemma {:induction false} BoundaryOkAfter(s: State, evs: seq<Event>)
    requires BoundaryOk(s) && TicketsOk(s) && Runs(s, evs)
    ensures BoundaryOk(Final(s, evs)) && TicketsOk(Final(s, evs))
    decreases evs
  {
    if evs != [] {
      StepTickets(s, evs[0]);
      BoundaryOkAfter(Apply(s, evs[0]), evs[1..]);
    }
  }

  lemma {:induction false} ReplayInvAfter(s: State, evs: seq<Event>)
    requires BoundaryOk(s) && TicketsOk(s) && ReplayInv(s) && Runs(s, evs) && NoStraddling(s, evs)
    ensures ReplayInv(Final(s, evs))
    decreases evs
  {
    if evs != [] {
      StepTickets(s, evs[0]);
      StepReplay(s, evs[0]);
      ReplayInvAfter(Apply(s, evs[0]), evs[1..]);
    }
  }

  lemma {:induction false} RecordKept(s: State, evs: seq<Event>)
    requires BoundaryOk(s) && Runs(s, evs)
    requires forall i :: 0 <= i < |evs| ==> !evs[i].Fork? && !evs[i].Fresh?
    requires s.record.Some? && s.record.value.boundary.Some?
    ensures Final(s, evs).record == s.record && Final(s, evs).copied == s.copied
    decreases evs
  {
    if evs != [] {
      RecordStep(s, evs[0]);
      RecordKept(Apply(s, evs[0]), evs[1..]);
    }
  }

  /**
   A recorded boundary is a block of the fork at or above the copied tip, that
   very tip while nothing has been mined, and stays until the devnet is replaced.
   */
  lemma RecordedBoundaryStands(s: State, before: seq<Event>, after: seq<Event>)
    requires Init(s) && Runs(s, before) && Runs(Final(s, before), after)
    requires forall i :: 0 <= i < |after| ==> !after[i].Fork? && !after[i].Fresh?
    requires var t := Final(s, before); t.record.Some? && t.record.value.boundary.Some?
    ensures var t := Final(s, before);
            && t.record.value.boundary.value.Numeral?
            && t.copied - 1 <= t.record.value.boundary.value.value <= |t.chain| - 1
            && (|t.chain| == t.copied ==> t.record.value.boundary.value.value == t.copied - 1)
            && Final(t, after).record == t.record && Final(t, after).copied == t.copied
  {
    BoundaryOkAfter(s, before);
    RecordKept(Final(s, before), after);
  }

  /** While a mainnet fork has no boundary, nothing is signed for it: no answer lets a transaction through. */
  lemma NothingSignedWithoutBoundary(s: State, evs: seq<Event>, ev: Event)
    requires Init(s) && Runs(s, evs) && Enabled(Final(s, evs), ev)
    requires var t := Final(s, evs); OnMainnet(t) && t.record.value.boundary.None?
    ensures ev.Send? ==> !Current(Final(s, evs), ev)
    ensures ev.Validate? ==> !MayBroadcast(Apply(Final(s, evs), ev).tickets[ev.p].guard, [])
  {
    BoundaryOkAfter(s, evs);
    if ev.Send? {
      assert TicketOk(Final(s, evs), Final(s, evs).tickets[ev.p]);
    }
  }

  // ---- ancestry ----

  ghost predicate OnChain(chain: seq<Block>, tx: Tx, n: int) {
    0 <= n < |chain| && tx in chain[n]
  }

  ghost predicate Mined(chain: seq<Block>, tx: Tx) {
    exists n :: OnChain(chain, tx, n)
  }

  /** Each transaction on the path spends an output of the next one. */
  ghost predicate Ancestry(chain: seq<Block>, path: seq<Tx>) {
    && (forall k :: 0 <= k < |path| ==> Mined(chain, path[k]))
    && (forall k :: 0 <= k < |path| - 1 ==> path[k + 1].id in path[k].inputs)
  }

  /** The transaction was mined on the fork, in block `n` at the latest. */
  ghost predicate ForkMinedBy(s: State, tx: Tx, n: nat) {
    exists m :: s.copied <= m <= n && OnChain(s.chain, tx, m)
  }

  lemma OnChainHas(chain: seq<Block>, tx: Tx, n: int)
    requires OnChain(chain, tx, n)
    ensures Has(chain, n, tx.id)
  {
    var i :| 0 <= i < |chain[n]| && chain[n][i] == tx;
  }

  lemma {:induction false} AncestorsForkMined(s: State, path: seq<Tx>, n: nat)
    requires ReplayInv(s) && OnMainnet(s) && Ancestry(s.chain, path) && path != []
    requires s.copied <= n && OnChain(s.chain, path[0], n)
    ensures ForkMinedBy(s, path[|path| - 1], n)
    ensures SpendsForkMined(s, path[|path| - 1], n)
    decreases |path|
  {
    var i :| 0 <= i < |s.chain[n]| && s.chain[n][i] == path[0];
    assert SpendsForkMined(s, path[0], n);
    if |path| > 1 {
      var next := path[0 + 1];
      assert next.id in path[0].inputs;
      var m :| s.copied <= m < n && Has(s.chain, m, next.id);
      assert Mined(s.chain, next);
      var at :| OnChain(s.chain, next, at);
      OnChainHas(s.chain, next, at);
      assert Ancestry(s.chain, path[1..]) by {
        forall k | 0 <= k < |path[1..]| ensures Mined(s.chain, path[1..][k]) {
          assert path[1..][k] == path[k + 1];
        }
        forall k | 0 <= k < |path[1..]| - 1 ensures path[1..][k + 1].id in path[1..][k].inputs {
          assert path[(k + 1) + 1].id in path[k + 1].inputs;
        }
      }
      AncestorsForkMined(s, path[1..], m);
      assert path[1..][|path[1..]| - 1] == path[|path| - 1];
    }
  }

  /**
   On a mainnet fork, whatever a fork-mined transaction descends from, however
   far back, was mined on the fork and spends only what was mined on the fork:
   no copied cell is ever spent.
   */
  lemma ReplaySafety(s: State, evs: seq<Event>, path: seq<Tx>, n: nat)
    requires Init(s) && Runs(s, evs) && NoStraddling(s, evs) && OnMainnet(Final(s, evs))
    requires var t := Final(s, evs); t.copied <= n && path != [] && Ancestry(t.chain, path) && OnChain(t.chain, path[0], n)
    ensures var t := Final(s, evs); var last := path[|path| - 1];
            && (forall m :: OnChain(t.chain, last, m) ==> t.copied <= m <= n)
            && (forall id, m :: id in last.inputs && Has(t.chain, m, id) ==> t.copied <= m < n)
            && (forall id :: id in last.inputs ==> Known(t.chain, id))
  {
    BoundaryOkAfter(s, evs);
    ReplayInvAfter(s, evs);
    var t := Final(s, evs);
    AncestorsForkMined(t, path, n);
    var last := path[|path| - 1];
    var at :| t.copied <= at <= n && OnChain(t.chain, last, at);
    OnChainHas(t.chain, last, at);
    forall m | OnChain(t.chain, last, m) ensures m == at {
      OnChainHas(t.chain, last, m);
    }
    forall id, m | id in last.inputs && Has(t.chain, m, id) ensures t.copied <= m < n {
      var j :| t.copied <= j < n && Has(t.chain, j, id);
    }
  }

  // ---- sends that straddle a re-fork ----

  predicate Admits(guard: Guard, block: nat) {
    guard.Unrestricted? || (guard.After? && block > guard.limit)
  }

  /** Some copied transaction lies after the block the answer asks for. */
  ghost predicate LetsCopiedThrough(s: State, guard: Guard) {
    exists n :: 0 <= n < s.copied && n < |s.chain| && s.chain[n] != [] && Admits(guard, n)
  }

  ghost predicate SpendsCopied(s: State, tx: Tx) {
    exists id, n :: id in tx.inputs && n < s.copied && Has(s.chain, n, id)
  }

  /**
   A ticket from before a re-fork lets a spend of copied cells through exactly
   when its limit lies below some copied transaction of the new fork.
   */
  lemma StraddlingSend(s: State, p: Sender)
    requires UniqueIds(s.chain) && p in s.tickets && s.node != Off
    ensures (exists tx :: Enabled(s, Send(p, tx)) && SpendsCopied(s, tx)) <==> LetsCopiedThrough(s, s.tickets[p].guard)
  {
    var guard := s.tickets[p].guard;
    if LetsCopiedThrough(s, guard) {
      var n :| 0 <= n < s.copied && n < |s.chain| && s.chain[n] != [] && Admits(guard, n);
      var id := s.chain[n][0].id;
      var tx := Tx(0, [id], false);
      assert Has(s.chain, n, id);
      assert Has(s.chain, OriginOf(s.chain, id).block, id);
      assert Origins(s.chain, tx.inputs) == [Committed(n)];
      assert Enabled(s, Send(p, tx)) && SpendsCopied(s, tx);
    }
    forall tx | Enabled(s, Send(p, tx)) && SpendsCopied(s, tx) ensures LetsCopiedThrough(s, guard) {
      var id, n :| id in tx.inputs && n < s.copied && Has(s.chain, n, id);
      var i :| 0 <= i < |tx.inputs| && tx.inputs[i] == id;
      assert Origins(s.chain, tx.inputs)[i] == OriginOf(s.chain, id);
      assert Has(s.chain, OriginOf(s.chain, id).block, id);
    }
  }

  lemma {:induction false} RunsOn(s: State, evs: seq<Event>, ev: Event)
    requires Runs(s, evs) && Enabled(Final(s, evs), ev)
    ensures Runs(s, evs + [ev]) && Final(s, evs + [ev]) == Apply(Final(s, evs), ev)
    decreases evs
  {
    hide Enabled, Apply;
    if evs == [] {
      assert evs + [ev] == [ev];
      assert Runs(Apply(s, ev), []);
    } else {
      assert (evs + [ev])[0] == evs[0] && (evs + [ev])[1..] == evs[1..] + [ev];
      RunsOn(Apply(s, evs[0]), evs[1..], ev);
    }
  }

  const FIRST_COPY: seq<Block> := [[Tx(1, [], true)]]
  const SECOND_COPY: seq<Block> := [[Tx(1, [], true)], [Tx(2, [], true)]]

  /** A mainnet fork of one block, asked about once its boundary is recorded. */
  lemma TicketIsGiven(p: Sender) returns (evs: seq<Event>)
    ensures var s := State([], 0, 0, None, Off, {}, map[]);
            Runs(s, evs) && Final(s, evs) ==
              State(FIRST_COPY, 1, 1, Some(ForkState(Mainnet, "", false, Some(Numeral(0)))), Mining, {}, map[p := Ticket(After(0), 1)])
  {
    var s := State([], 0, 0, None, Off, {}, map[]);
    var forked := State(FIRST_COPY, 1, 1, Some(ForkState(Mainnet, "", true, None)), Off, {}, map[]);
    hide Runs, Final;
    RunsNone(s);
    evs := [];
    RunsOn(s, evs, Fork(Mainnet, "", FIRST_COPY));
    evs := evs + [Fork(Mainnet, "", FIRST_COPY)];
    assert Final(s, evs) == forked;
    RunsOn(s, evs, Boot);
    evs := evs + [Boot];
    assert Final(s, evs) == forked.(node := Polling);
    RunsOn(s, evs, ReadTip);
    evs := evs + [ReadTip];
    assert Final(s, evs) == forked.(node := TipRead(0));
    RunsOn(s, evs, Mark);
    evs := evs + [Mark];
    var marked := forked.(record := Some(ForkState(Mainnet, "", false, Some(Numeral(0)))), node := Mining);
    assert Final(s, evs) == marked;
    RunsOn(s, evs, Validate(p, true, false));
    evs := evs + [Validate(p, true, false)];
    assert Final(s, evs) == marked.(tickets := map[p := Ticket(After(0), 1)]);
  }

  lemma RunsNone(s: State)
    ensures Runs(s, []) && Final(s, []) == s
  {
  }

  /**
   Such a send happens: a sender that was let through for a fork of one block
   sends after the node was stopped and a fork of two blocks was made and
   booted, and spends the second block's output.
   */
  lemma StraddlingSendHappens(p: Sender) returns (s: State, evs: seq<Event>, tx: Tx)
    ensures Init(s) && Runs(s, evs) && OnMainnet(Final(s, evs))
    ensures Enabled(Final(s, evs), Send(p, tx)) && SpendsCopied(Final(s, evs), tx)
  {
    s := State([], 0, 0, None, Off, {}, map[]);
    evs := TicketIsGiven(p);
    var asked := Final(s, evs);
    assert asked.node == Mining && asked.era == 1;
    hide Runs, Final;
    RunsOn(s, evs, Stop);
    evs := evs + [Stop];
    assert Final(s, evs) == asked.(node := Off);
    RunsOn(s, evs, Fork(Mainnet, "", SECOND_COPY));
    evs := evs + [Fork(Mainnet, "", SECOND_COPY)];
    var forked := State(SECOND_COPY, 2, 2, Some(ForkState(Mainnet, "", true, None)), Off, {}, map[p := Ticket(After(0), 1)]);
    assert Final(s, evs) == forked;
    RunsOn(s, evs, Boot);
    evs := evs + [Boot];
    var t := forked.(node := Polling);
    assert Final(s, evs) == t;
    tx := Tx(3, [2], false);
    assert Has(SECOND_COPY, 1, 2) by { assert SECOND_COPY[1][0].id == 2; }
    assert Has(SECOND_COPY, OriginOf(SECOND_COPY, 2).block, 2);
    assert Origins(t.chain, tx.inputs) == [Committed(1)];
    assert 2 in tx.inputs;
  }
}
