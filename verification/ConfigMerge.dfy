/**
 Merging a node's own settings onto its generated configuration, and which
 generated fields survive that.
 */
module ConfigMerge {
  import opened Options
  import opened ConfigTree

  // ---- the merge ----

  /** Mappings merge, anything else is replaced. */
  function MergedValue(existing: Option<Value>, value: Value): (r: Value)
    decreases value, 1, 0
  {
    if existing.Some? && existing.value.Obj? && value.Obj?
    then Obj(MergedUpTo(existing.value.entries, value, |value.entries|))
    else value
  }

  /** The first `n` entries of the override merged onto the base. */
  function MergedUpTo(base: seq<Entry>, override: Value, n: nat): (r: seq<Entry>)
    requires override.Obj? && n <= |override.entries|
    ensures UniqueKeys(base) ==> UniqueKeys(r)
    decreases override, 0, n
  {
    if n == 0 then base else
    var e := override.entries[n - 1];
    var done := MergedUpTo(base, override, n - 1);
    WithEntry(done, e.key, MergedValue(Lookup(done, e.key), e.value))
  }

  function Merged(base: seq<Entry>, override: seq<Entry>): seq<Entry> {
    MergedUpTo(base, Obj(override), |override|)
  }

  method MergeNodeConfig(base: seq<Entry>, override: Value) returns (result: seq<Entry>)
    requires override.Obj?
    ensures result == Merged(base, override.entries)
    decreases override
  {
    result := base;
    var i := 0;
    while i < |override.entries|
      invariant 0 <= i <= |override.entries|
      invariant result == MergedUpTo(base, override, i)
    {
      var key, value := override.entries[i].key, override.entries[i].value;
      var existing := Lookup(result, key);
      if existing.Some? && existing.value.Obj? && value.Obj? {
        assert override.entries[i] < override;
        var inner := MergeNodeConfig(existing.value.entries, value);
        result := WithEntry(result, key, Obj(inner));
      } else {
        result := WithEntry(result, key, value);
      }
      i := i + 1;
    }
    assert override == Obj(override.entries);
  }

  // ---- what the merge holds ----

  lemma {:induction false} MergedUpToLookup(base: seq<Entry>, override: Value, n: nat, key: string)
    requires override.Obj? && UniqueKeys(override.entries) && n <= |override.entries|
    ensures var j := Find(override.entries, key);
            Lookup(MergedUpTo(base, override, n), key) ==
              if j < n then Some(MergedValue(Lookup(base, key), override.entries[j].value)) else Lookup(base, key)
    decreases n
  {
    hide MergedValue, WithEntry, Lookup;
    if n > 0 {
      var e := override.entries[n - 1];
      var done := MergedUpTo(base, override, n - 1);
      MergedUpToLookup(base, override, n - 1, e.key);
      MergedUpToLookup(base, override, n - 1, key);
      if key == e.key {
        LookupSame(done, key, MergedValue(Lookup(done, key), e.value));
      } else {
        LookupOther(done, e.key, MergedValue(Lookup(done, e.key), e.value), key);
      }
    }
  }

  /** A key of the merge holds the override's value merged onto the base's, or the base's own. */
  lemma MergedLookup(base: seq<Entry>, override: seq<Entry>, key: string)
    requires UniqueKeys(override)
    ensures Lookup(Merged(base, override), key) ==
            match Lookup(override, key)
            case None => Lookup(base, key)
            case Some(v) => Some(MergedValue(Lookup(base, key), v))
  {
    hide MergedValue, MergedUpTo;
    MergedUpToLookup(base, Obj(override), |override|, key);
  }

  // ---- merging again changes nothing ----

  /** Merging an override onto a mapping that already holds what the merge would put at each key. */
  lemma {:induction false} MergeAbsorbed(es: seq<Entry>, override: Value, n: nat)
    requires override.Obj? && n <= |override.entries|
    requires forall i :: 0 <= i < n ==>
               var e := override.entries[i]; Lookup(es, e.key) == Some(MergedValue(Lookup(es, e.key), e.value))
    ensures MergedUpTo(es, override, n) == es
    decreases n
  {
    if n > 0 {
      MergeAbsorbed(es, override, n - 1);
      var e := override.entries[n - 1];
    }
  }

  lemma {:induction false} ValueIdempotent(existing: Option<Value>, value: Value)
    requires WellFormed(value)
    ensures MergedValue(Some(MergedValue(existing, value)), value) == MergedValue(existing, value)
    decreases value
  {
    if value.Obj? {
      var base := if existing.Some? && existing.value.Obj? then existing.value.entries else value.entries;
      var es := if existing.Some? && existing.value.Obj? then Merged(base, value.entries) else base;
      assert value == Obj(value.entries);
      forall i | 0 <= i < |value.entries|
        ensures var e := value.entries[i]; Lookup(es, e.key) == Some(MergedValue(Lookup(es, e.key), e.value))
      {
        EntryIdempotent(base, value, i);
        if !(existing.Some? && existing.value.Obj?) { SelfEntry(value, i); }
      }
      MergeAbsorbed(es, value, |value.entries|);
    }
  }

  lemma EntryIdempotent(base: seq<Entry>, value: Value, i: nat)
    requires value.Obj? && WellFormed(value) && i < |value.entries|
    ensures var e := value.entries[i]; var es := Merged(base, value.entries);
            Lookup(es, e.key) == Some(MergedValue(Lookup(es, e.key), e.value))
    decreases value, 0
  {
    var e := value.entries[i];
    assert e < value;
    MergedLookup(base, value.entries, e.key);
    ValueIdempotent(Lookup(base, e.key), e.value);
  }

  lemma SelfEntry(value: Value, i: nat)
    requires value.Obj? && WellFormed(value) && i < |value.entries|
    ensures var e := value.entries[i]; Lookup(value.entries, e.key) == Some(MergedValue(Lookup(value.entries, e.key), e.value))
    decreases value, 0
  {
    var e := value.entries[i];
    assert e < value;
    ValueIdempotent(None, e.value);
  }

  /** Merging the same settings twice is merging them once. */
  lemma MergeIdempotent(base: seq<Entry>, override: seq<Entry>)
    requires WellFormed(Obj(override))
    ensures Merged(Merged(base, override), override) == Merged(base, override)
  {
    ValueIdempotent(Some(Obj(base)), Obj(override));
  }

  // ---- fields by path through mappings ----

  /** The value at a path walked through mappings only. */
  function At(v: Value, p: Path): Option<Value> {
    if p == [] then Some(v)
    else if !v.Obj? || Lookup(v.entries, p[0]).None? then None
    else At(Lookup(v.entries, p[0]).value, p[1..])
  }

  /** Whatever the value has on the way to `p` is a mapping. */
  predicate MappingsTo(v: Value, p: Path) {
    p == [] || (v.Obj? && (Lookup(v.entries, p[0]).None? || |p| == 1 || MappingsTo(Lookup(v.entries, p[0]).value, p[1..])))
  }

  /**
   A path that the override does not set keeps the base's value exactly when
   the override has only mappings on the way to it, or the base has nothing
   there to lose.
   */
  lemma {:induction false} UnsetPathKept(base: Value, override: Value, p: Path)
    requires base.Obj? && override.Obj? && WellFormed(override) && p != [] && At(override, p).None?
    ensures At(Obj(Merged(base.entries, override.entries)), p) == At(base, p) <==> MappingsTo(override, p) || At(base, p).None?
    decreases |p|
  {
    MergedLookup(base.entries, override.entries, p[0]);
    var below, own := Lookup(override.entries, p[0]), Lookup(base.entries, p[0]);
    if below.Some? {
      var j := Find(override.entries, p[0]);
      assert WellFormed(override.entries[j].value);
      assert |p| > 1;
      if below.value.Obj? {
        if own.Some? && own.value.Obj? {
          assert below.value == Obj(below.value.entries);
          UnsetPathKept(own.value, below.value, p[1..]);
        }
      } else {
        assert !MappingsTo(below.value, p[1..]);
      }
    }
  }

  // ---- what the override sets ----

  function KeysOf(es: seq<Entry>): seq<string> {
    seq(|es|, i requires 0 <= i < |es| => es[i].key)
  }

  /** The keys that the base does not have, in order. */
  function NewKeys(base: seq<Entry>, es: seq<Entry>): seq<string> {
    if es == [] then [] else
    var last := |es| - 1;
    NewKeys(base, es[..last]) + if Lookup(base, es[last].key).None? then [es[last].key] else []
  }

  lemma KeysOfWithEntry(es: seq<Entry>, key: string, x: Value)
    ensures KeysOf(WithEntry(es, key, x)) == KeysOf(es) + if Lookup(es, key).None? then [key] else []
  {
  }

  lemma NotYetMerged(base: seq<Entry>, override: Value, n: nat)
    requires override.Obj? && UniqueKeys(override.entries) && n < |override.entries|
    ensures Lookup(MergedUpTo(base, override, n), override.entries[n].key) == Lookup(base, override.entries[n].key)
  {
    FindIs(override.entries, override.entries[n].key, n);
    MergedUpToLookup(base, override, n, override.entries[n].key);
  }

  /** The base's keys come first in their order, and the override's new ones after them in theirs. */
  lemma {:induction false} MergedKeys(base: seq<Entry>, override: Value, n: nat)
    requires override.Obj? && UniqueKeys(override.entries) && n <= |override.entries|
    ensures KeysOf(MergedUpTo(base, override, n)) == KeysOf(base) + NewKeys(base, override.entries[..n])
    decreases n
  {
    if n == 0 {
      assert KeysOf(base) + [] == KeysOf(base);
    } else {
      var e := override.entries[n - 1];
      var done := MergedUpTo(base, override, n - 1);
      MergedKeys(base, override, n - 1);
      NotYetMerged(base, override, n - 1);
      KeysOfWithEntry(done, e.key, MergedValue(Lookup(done, e.key), e.value));
      assert override.entries[..n][..n - 1] == override.entries[..n - 1];
      hide MergedUpTo, MergedValue, WithEntry, KeysOf, Lookup;
    }
  }

  /**
   At every path that the override sets: two mappings make one with the keys of
   both, and anything else is replaced by what the override has there.
   */
  lemma {:induction false} OverrideWins(base: Value, override: Value, p: Path)
    requires base.Obj? && override.Obj? && WellFormed(override) && At(override, p).Some?
    ensures var o, b, m := At(override, p).value, At(base, p), At(Obj(Merged(base.entries, override.entries)), p);
            if b.Some? && b.value.Obj? && o.Obj?
            then && m.Some? && m.value.Obj?
                 && KeysOf(m.value.entries) == KeysOf(b.value.entries) + NewKeys(b.value.entries, o.entries)
            else m == Some(o)
    decreases |p|
  {
    if p == [] {
      MergedKeys(base.entries, Obj(override.entries), |override.entries|);
      assert override.entries[..|override.entries|] == override.entries;
    } else {
      MergedLookup(base.entries, override.entries, p[0]);
      var o, own := Lookup(override.entries, p[0]).value, Lookup(base.entries, p[0]);
      var j := Find(override.entries, p[0]);
      assert WellFormed(override.entries[j].value);
      if own.Some? && own.value.Obj? && o.Obj? {
        assert o == Obj(o.entries);
        OverrideWins(own.value, o, p[1..]);
      }
    }
  }

  // ---- the generated configuration ----

  const FIBER_CHAIN: Path := ["fiber", "chain"]
  const FIBER_SCRIPTS: Path := ["fiber", "scripts"]
  const FIBER_LISTENING_ADDR: Path := ["fiber", "listening_addr"]
  const FIBER_BOOTNODE_ADDRS: Path := ["fiber", "bootnode_addrs"]
  const FIBER_STORE_PATH: Path := ["fiber", "store_path"]
  const RPC_LISTENING_ADDR: Path := ["rpc", "listening_addr"]
  const CKB_RPC_URL: Path := ["ckb", "rpc_url"]
  const CKB_UDT_WHITELIST: Path := ["ckb", "udt_whitelist"]
  const SERVICES: Path := ["services"]

  const MANAGED: seq<Path> := [
    FIBER_CHAIN, FIBER_SCRIPTS, FIBER_LISTENING_ADDR, FIBER_BOOTNODE_ADDRS, FIBER_STORE_PATH,
    RPC_LISTENING_ADDR, CKB_RPC_URL, CKB_UDT_WHITELIST, SERVICES
  ]

  /** What the environment decides for one node. */
  datatype NodeFacts = NodeFacts(
    chain: Value, p2pAddr: Value, nodeName: Value, fiberScripts: Value,
    rpcAddr: Value, enabledModules: Value, ckbRpcUrl: Value, udtWhitelist: Value)

  function Section(template: seq<Entry>, name: string): (es: seq<Entry>) {
    var s := Lookup(template, name);
    if s.Some? && s.value.Obj? then s.value.entries else []
  }

  /** Assignments made one after another. */
  function Assigned(es: seq<Entry>, fields: seq<Entry>): seq<Entry>
    decreases |fields|
  {
    if fields == [] then es
    else Assigned(WithEntry(es, fields[0].key, fields[0].value), fields[1..])
  }

  function FiberFields(facts: NodeFacts): seq<Entry> {
    [ Entry("chain", facts.chain),
      Entry("listening_addr", facts.p2pAddr),
      Entry("bootnode_addrs", Arr([])),
      Entry("announce_listening_addr", Bool(true)),
      Entry("announce_private_addr", Bool(true)),
      Entry("gossip_network_maintenance_interval_ms", Num(1000.0)),
      Entry("gossip_store_maintenance_interval_ms", Num(1000.0)),
      Entry("announced_node_name", facts.nodeName),
      Entry("scripts", facts.fiberScripts) ]
  }

  function RpcFields(facts: NodeFacts): seq<Entry> {
    [ Entry("listening_addr", facts.rpcAddr),
      Entry("enabled_modules", facts.enabledModules),
      Entry("cors_enabled", Bool(false)) ]
  }

  function CkbFields(facts: NodeFacts): seq<Entry> {
    [ Entry("rpc_url", facts.ckbRpcUrl),
      Entry("udt_whitelist", facts.udtWhitelist) ]
  }

  const ALL_SERVICES := Arr([Str("fiber"), Str("rpc"), Str("ckb")])

  /** The configuration before the node's own settings are merged in. */
  function Generated(template: seq<Entry>, facts: NodeFacts): seq<Entry> {
    Assigned(template, [
      Entry("fiber", Obj(Assigned(Section(template, "fiber"), FiberFields(facts)))),
      Entry("rpc", Obj(Assigned(Section(template, "rpc"), RpcFields(facts)))),
      Entry("ckb", Obj(Assigned(Section(template, "ckb"), CkbFields(facts)))),
      Entry("services", ALL_SERVICES) ])
  }

  /** The last assignment to a key wins; a key not assigned keeps what it had. */
  lemma {:induction false} AssignedLookup(es: seq<Entry>, fields: seq<Entry>, key: string)
    requires UniqueKeys(fields)
    ensures Lookup(Assigned(es, fields), key) == if Lookup(fields, key).Some? then Lookup(fields, key) else Lookup(es, key)
    decreases |fields|
  {
    if fields != [] {
      var e := fields[0];
      AssignedLookup(WithEntry(es, e.key, e.value), fields[1..], key);
      if key == e.key {
        LookupSame(es, key, e.value);
        FindIs(fields[1..], key, |fields[1..]|);
      } else {
        LookupOther(es, e.key, e.value, key);
      }
    }
  }

  lemma FieldListsUnique(facts: NodeFacts)
    ensures UniqueKeys(FiberFields(facts)) && UniqueKeys(RpcFields(facts)) && UniqueKeys(CkbFields(facts))
  {
  }

  lemma GeneratedSections(template: seq<Entry>, facts: NodeFacts)
    ensures var g := Generated(template, facts);
            && Lookup(g, "fiber") == Some(Obj(Assigned(Section(template, "fiber"), FiberFields(facts))))
            && Lookup(g, "rpc") == Some(Obj(Assigned(Section(template, "rpc"), RpcFields(facts))))
            && Lookup(g, "ckb") == Some(Obj(Assigned(Section(template, "ckb"), CkbFields(facts))))
            && Lookup(g, "services") == Some(ALL_SERVICES)
  {
    var fiber := Entry("fiber", Obj(Assigned(Section(template, "fiber"), FiberFields(facts))));
    var rpc := Entry("rpc", Obj(Assigned(Section(template, "rpc"), RpcFields(facts))));
    var ckb := Entry("ckb", Obj(Assigned(Section(template, "ckb"), CkbFields(facts))));
    hide Assigned;
    TopLevel(template, fiber, rpc, ckb, Entry("services", ALL_SERVICES));
  }

  lemma TopLevel(template: seq<Entry>, fiber: Entry, rpc: Entry, ckb: Entry, services: Entry)
    requires fiber.key == "fiber" && rpc.key == "rpc" && ckb.key == "ckb" && services.key == "services"
    ensures var g := Assigned(template, [fiber, rpc, ckb, services]);
            && Lookup(g, "fiber") == Some(fiber.value) && Lookup(g, "rpc") == Some(rpc.value)
            && Lookup(g, "ckb") == Some(ckb.value) && Lookup(g, "services") == Some(services.value)
  {
    var fields := [fiber, rpc, ckb, services];
    hide Assigned;
    forall i | 0 <= i < 4 ensures Lookup(Assigned(template, fields), fields[i].key) == Some(fields[i].value) {
      AssignedLookup(template, fields, fields[i].key);
    }
    assert fields[0] == fiber && fields[1] == rpc && fields[2] == ckb && fields[3] == services;
  }

  lemma SectionField(template: seq<Entry>, facts: NodeFacts, name: string, fields: seq<Entry>, i: nat)
    requires Lookup(Generated(template, facts), name) == Some(Obj(Assigned(Section(template, name), fields)))
    requires UniqueKeys(fields) && i < |fields|
    ensures At(Obj(Generated(template, facts)), [name, fields[i].key]) == Some(fields[i].value)
  {
    hide Assigned, Generated;
    AssignedLookup(Section(template, name), fields, fields[i].key);
    var section := Obj(Assigned(Section(template, name), fields));
    assert [name, fields[i].key][1..] == [fields[i].key];
    assert [fields[i].key][1..] == [];
    assert At(section, [fields[i].key]) == Some(fields[i].value);
  }

  /** The managed fields of the generated configuration: the environment's values, and the template's store path. */
  lemma GeneratedManaged(template: seq<Entry>, facts: NodeFacts)
    ensures var g := Obj(Generated(template, facts));
            && At(g, FIBER_CHAIN) == Some(facts.chain)
            && At(g, FIBER_SCRIPTS) == Some(facts.fiberScripts)
            && At(g, FIBER_LISTENING_ADDR) == Some(facts.p2pAddr)
            && At(g, FIBER_BOOTNODE_ADDRS) == Some(Arr([]))
            && At(g, FIBER_STORE_PATH) == At(Obj(template), FIBER_STORE_PATH)
            && At(g, RPC_LISTENING_ADDR) == Some(facts.rpcAddr)
            && At(g, CKB_RPC_URL) == Some(facts.ckbRpcUrl)
            && At(g, CKB_UDT_WHITELIST) == Some(facts.udtWhitelist)
            && At(g, SERVICES) == Some(ALL_SERVICES)
  {
    FieldListsUnique(facts);
    GeneratedSections(template, facts);
    var fiber, rpc, ckb := FiberFields(facts), RpcFields(facts), CkbFields(facts);
    assert fiber[0] == Entry("chain", facts.chain) && fiber[1] == Entry("listening_addr", facts.p2pAddr);
    assert fiber[2] == Entry("bootnode_addrs", Arr([])) && fiber[8] == Entry("scripts", facts.fiberScripts);
    assert rpc[0] == Entry("listening_addr", facts.rpcAddr);
    assert ckb[0] == Entry("rpc_url", facts.ckbRpcUrl) && ckb[1] == Entry("udt_whitelist", facts.udtWhitelist);
    StorePathFromTemplate(template, facts);
    hide At, Generated, Assigned, FiberFields, RpcFields, CkbFields, Lookup, UniqueKeys;
    SectionField(template, facts, "fiber", fiber, 0);
    SectionField(template, facts, "fiber", fiber, 1);
    SectionField(template, facts, "fiber", fiber, 2);
    SectionField(template, facts, "fiber", fiber, 8);
    SectionField(template, facts, "rpc", rpc, 0);
    SectionField(template, facts, "ckb", ckb, 0);
    SectionField(template, facts, "ckb", ckb, 1);
    ServicesField(template, facts);
  }

  lemma ServicesField(template: seq<Entry>, facts: NodeFacts)
    ensures At(Obj(Generated(template, facts)), SERVICES) == Some(ALL_SERVICES)
  {
    GeneratedSections(template, facts);
    hide Generated;
    assert SERVICES[1..] == [];
  }

  lemma NoStorePathAssigned(facts: NodeFacts)
    ensures Lookup(FiberFields(facts), "store_path") == None
  {
    var fields := FiberFields(facts);
    FindIs(fields, "store_path", |fields|);
  }

  lemma StorePathFromTemplate(template: seq<Entry>, facts: NodeFacts)
    ensures At(Obj(Generated(template, facts)), FIBER_STORE_PATH) == At(Obj(template), FIBER_STORE_PATH)
  {
    FieldListsUnique(facts);
    GeneratedSections(template, facts);
    NoStorePathAssigned(facts);
    hide Generated, Assigned, FiberFields;
    var own := Section(template, "fiber");
    AssignedLookup(own, FiberFields(facts), "store_path");
    assert FIBER_STORE_PATH[1..] == ["store_path"] && ["store_path"][1..] == [];
    assert At(Obj(Assigned(own, FiberFields(facts))), ["store_path"]) == Lookup(own, "store_path");
    assert At(Obj(own), ["store_path"]) == Lookup(own, "store_path");
  }

  /** The settings that go with the managed ones, the same for every node but for its name. */
  lemma GeneratedSettings(template: seq<Entry>, facts: NodeFacts)
    ensures var g := Obj(Generated(template, facts));
            && At(g, ["fiber", "announce_listening_addr"]) == Some(Bool(true))
            && At(g, ["fiber", "announce_private_addr"]) == Some(Bool(true))
            && At(g, ["fiber", "gossip_network_maintenance_interval_ms"]) == Some(Num(1000.0))
            && At(g, ["fiber", "gossip_store_maintenance_interval_ms"]) == Some(Num(1000.0))
            && At(g, ["fiber", "announced_node_name"]) == Some(facts.nodeName)
            && At(g, ["rpc", "enabled_modules"]) == Some(facts.enabledModules)
            && At(g, ["rpc", "cors_enabled"]) == Some(Bool(false))
  {
    FieldListsUnique(facts);
    GeneratedSections(template, facts);
    var fiber, rpc := FiberFields(facts), RpcFields(facts);
    assert fiber[3] == Entry("announce_listening_addr", Bool(true)) && fiber[4] == Entry("announce_private_addr", Bool(true));
    assert fiber[5] == Entry("gossip_network_maintenance_interval_ms", Num(1000.0));
    assert fiber[6] == Entry("gossip_store_maintenance_interval_ms", Num(1000.0));
    assert fiber[7] == Entry("announced_node_name", facts.nodeName);
    assert rpc[1] == Entry("enabled_modules", facts.enabledModules) && rpc[2] == Entry("cors_enabled", Bool(false));
    hide At, Generated, Assigned, FiberFields, RpcFields, Lookup, UniqueKeys;
    SectionField(template, facts, "fiber", fiber, 3);
    SectionField(template, facts, "fiber", fiber, 4);
    SectionField(template, facts, "fiber", fiber, 5);
    SectionField(template, facts, "fiber", fiber, 6);
    SectionField(template, facts, "fiber", fiber, 7);
    SectionField(template, facts, "rpc", rpc, 1);
    SectionField(template, facts, "rpc", rpc, 2);
  }

  /** Every other entry of the template stays as it is. */
  lemma TemplateKept(template: seq<Entry>, facts: NodeFacts, key: string)
    requires key != "fiber" && key != "rpc" && key != "ckb" && key != "services"
    ensures Lookup(Generated(template, facts), key) == Lookup(template, key)
  {
    var fields := [
      Entry("fiber", Obj(Assigned(Section(template, "fiber"), FiberFields(facts)))),
      Entry("rpc", Obj(Assigned(Section(template, "rpc"), RpcFields(facts)))),
      Entry("ckb", Obj(Assigned(Section(template, "ckb"), CkbFields(facts)))),
      Entry("services", ALL_SERVICES) ];
    assert Generated(template, facts) == Assigned(template, fields);
    hide Assigned;
    FindIs(fields, key, 4);
    AssignedLookup(template, fields, key);
  }

  // ---- the node's own settings ----

  /** No managed path is set. */
  predicate Accepted(config: Value) {
    forall i :: 0 <= i < |MANAGED| ==> At(config, MANAGED[i]).None?
  }

  /** The fields that a node's own settings must leave to the environment. */
  lemma ManagedFields(config: Value)
    ensures Accepted(config) <==>
            && At(config, ["fiber", "chain"]).None? && At(config, ["fiber", "scripts"]).None?
            && At(config, ["fiber", "listening_addr"]).None? && At(config, ["fiber", "bootnode_addrs"]).None?
            && At(config, ["fiber", "store_path"]).None? && At(config, ["rpc", "listening_addr"]).None?
            && At(config, ["ckb", "rpc_url"]).None? && At(config, ["ckb", "udt_whitelist"]).None?
            && At(config, ["services"]).None?
  {
    hide At;
    assert MANAGED[0] == ["fiber", "chain"] && MANAGED[1] == ["fiber", "scripts"];
    assert MANAGED[2] == ["fiber", "listening_addr"] && MANAGED[3] == ["fiber", "bootnode_addrs"];
    assert MANAGED[4] == ["fiber", "store_path"] && MANAGED[5] == ["rpc", "listening_addr"];
    assert MANAGED[6] == ["ckb", "rpc_url"] && MANAGED[7] == ["ckb", "udt_whitelist"] && MANAGED[8] == ["services"];
  }

  /** Walks every managed path through the settings and reports the first one that is set. */
  method AssertNoManagedFields(config: Value) returns (found: Option<Path>)
    requires config.Obj?
    ensures found.None? <==> Accepted(config)
    ensures found.Some? ==> found.value in MANAGED && At(config, found.value).Some?
  {
    var k := 0;
    while k < |MANAGED|
      invariant 0 <= k <= |MANAGED|
      invariant forall i :: 0 <= i < k ==> At(config, MANAGED[i]).None?
    {
      var current := WalkMappings(config, MANAGED[k]);
      if current.Some? { return Some(MANAGED[k]); }
      k := k + 1;
    }
    return None;
  }

  method WalkMappings(config: Value, path: Path) returns (current: Option<Value>)
    ensures current == At(config, path)
  {
    current := Some(config);
    var i := 0;
    while i < |path|
      invariant 0 <= i <= |path|
      invariant At(config, path) == match current case None => None case Some(v) => At(v, path[i..])
    {
      if current.None? || !current.value.Obj? { return None; }
      current := Lookup(current.value.entries, path[i]);
      i := i + 1;
    }
  }

  predicate MappingIfPresent(config: seq<Entry>, name: string) {
    Lookup(config, name).Some? ==> Lookup(config, name).value.Obj?
  }

  /** The three sections that hold managed fields are mappings, where the settings have them at all. */
  predicate SectionsAreMappings(config: seq<Entry>) {
    MappingIfPresent(config, "fiber") && MappingIfPresent(config, "rpc") && MappingIfPresent(config, "ckb")
  }

  predicate KeptAt(base: seq<Entry>, config: seq<Entry>, p: Path) {
    At(Obj(Merged(base, config)), p) == At(Obj(base), p)
  }

  lemma SectionPathKept(base: seq<Entry>, config: seq<Entry>, name: string, field: string)
    requires WellFormed(Obj(config)) && At(Obj(config), [name, field]).None?
    ensures KeptAt(base, config, [name, field]) <==> MappingIfPresent(config, name) || At(Obj(base), [name, field]).None?
  {
    UnsetPathKept(Obj(base), Obj(config), [name, field]);
    assert [name, field][1..] == [field];
  }

  /**
   Accepted settings leave every managed field as generated exactly when their
   `fiber`, `rpc` and `ckb` entries are mappings or absent.
   */
  lemma ManagedFieldsSurvive(template: seq<Entry>, facts: NodeFacts, config: seq<Entry>)
    requires WellFormed(Obj(config)) && Accepted(Obj(config))
    ensures (forall i :: 0 <= i < |MANAGED| ==> KeptAt(Generated(template, facts), config, MANAGED[i])) <==>
            SectionsAreMappings(config)
  {
    var g := Generated(template, facts);
    GeneratedManaged(template, facts);
    hide At, Generated, Merged, MappingIfPresent, WellFormed, KeptAt;
    forall i | 0 <= i < |MANAGED| ensures At(Obj(config), MANAGED[i]).None? {
    }
    assert MANAGED[0] == FIBER_CHAIN && MANAGED[1] == FIBER_SCRIPTS && MANAGED[2] == FIBER_LISTENING_ADDR;
    assert MANAGED[3] == FIBER_BOOTNODE_ADDRS && MANAGED[4] == FIBER_STORE_PATH && MANAGED[5] == RPC_LISTENING_ADDR;
    assert MANAGED[6] == CKB_RPC_URL && MANAGED[7] == CKB_UDT_WHITELIST && MANAGED[8] == SERVICES;
    SectionPathKept(g, config, "fiber", "chain");
    SectionPathKept(g, config, "fiber", "scripts");
    SectionPathKept(g, config, "fiber", "listening_addr");
    SectionPathKept(g, config, "fiber", "bootnode_addrs");
    SectionPathKept(g, config, "fiber", "store_path");
    SectionPathKept(g, config, "rpc", "listening_addr");
    SectionPathKept(g, config, "ckb", "rpc_url");
    SectionPathKept(g, config, "ckb", "udt_whitelist");
    ServicesKept(g, config);
  }

  lemma ServicesKept(base: seq<Entry>, config: seq<Entry>)
    requires WellFormed(Obj(config)) && At(Obj(config), SERVICES).None?
    ensures KeptAt(base, config, SERVICES)
  {
    UnsetPathKept(Obj(base), Obj(config), SERVICES);
  }

  lemma NullFiberAccepted(i: nat)
    requires i < |MANAGED|
    ensures At(Obj([Entry("fiber", Null)]), MANAGED[i]).None?
  {
    var p := MANAGED[i];
    if i < 5 {
      assert p[0] == "fiber" && |p| == 2;
    } else {
      assert p[0] == "rpc" || p[0] == "ckb" || p[0] == "services";
      FindIs([Entry("fiber", Null)], p[0], 1);
    }
  }

  /** A section that is there without a value passes the check and erases its managed fields. */
  lemma EmptySectionErases(template: seq<Entry>, facts: NodeFacts)
    ensures var config := [Entry("fiber", Null)];
            && WellFormed(Obj(config)) && Accepted(Obj(config))
            && At(Obj(Merged(Generated(template, facts), config)), FIBER_CHAIN) == None
  {
    var config := [Entry("fiber", Null)];
    forall i | 0 <= i < |MANAGED| ensures At(Obj(config), MANAGED[i]).None? {
      NullFiberAccepted(i);
    }
    hide Generated, Merged, Accepted;
    MergedLookup(Generated(template, facts), config, "fiber");
  }
}
