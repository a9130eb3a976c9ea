/** The safe-field table against the documents that are shipped. */
module ShippedConfig {
  import opened Options
  import opened ConfigTree
  import opened ConfigEditor

  /** The sections of the shipped documents that hold fields. */
  const SHIPPED_CKB: Value := Obj([
    Entry("logger", Obj([
      Entry("filter", Str("info,ckb-script=debug")),
      Entry("color", Bool(true)),
      Entry("log_to_file", Bool(true)),
      Entry("log_to_stdout", Bool(true)) ])),
    Entry("rpc", Obj([
      Entry("listen_address", Str("127.0.0.1:8114")),
      Entry("max_request_body_size", Num(10485760.0)),
      Entry("enable_deprecated_rpc", Bool(false)) ])) ])

  const SHIPPED_MINER: Value := Obj([
    Entry("miner", Obj([
      Entry("client", Obj([
        Entry("rpc_url", Str("http://ckb:8114/")),
        Entry("block_on_submit", Bool(true)),
        Entry("poll_interval", Num(1000.0)) ])) ])) ])

  function ShippedValue(i: nat): Value
    requires i < |FIELDS|
  {
    [ Str("info,ckb-script=debug"), Bool(true), Bool(true), Bool(true), Str("127.0.0.1:8114"), Num(10485760.0), Bool(false),
      Str("http://ckb:8114/"), Bool(true), Num(1000.0) ][i]
  }

  lemma ChildAt(v: Value, i: nat)
    requires v.Obj? && UniqueKeys(v.entries) && i < |v.entries|
    ensures Child(v, v.entries[i].key) == Some(v.entries[i].value)
  {
    FindIs(v.entries, v.entries[i].key, i);
  }

  lemma GetTwo(v: Value, a: string, b: string)
    ensures Get(v, [a, b]) == match Child(v, a) case None => None case Some(w) => Child(w, b)
  {
    hide Child;
    assert [a, b][1..] == [b];
    if Child(v, a).Some? { GetOne(Child(v, a).value, b); }
  }

  lemma GetOne(v: Value, a: string)
    ensures Get(v, [a]) == Child(v, a)
  {
    hide Child;
    assert [a][1..] == [];
    if Child(v, a).Some? { assert Get(Child(v, a).value, []) == Child(v, a); }
  }

  lemma ShippedCkbField(section: nat, j: nat)
    requires (section == 0 && j < 4) || (section == 1 && j < 3)
    ensures var s := SHIPPED_CKB.entries[section];
            s.value.Obj? && j < |s.value.entries|
            && Get(SHIPPED_CKB, [s.key, s.value.entries[j].key]) == Some(s.value.entries[j].value)
  {
    var s := SHIPPED_CKB.entries[section];
    ChildAt(SHIPPED_CKB, section);
    ChildAt(s.value, j);
    hide Child, Get;
    GetTwo(SHIPPED_CKB, s.key, s.value.entries[j].key);
  }

  lemma ShippedMinerField(j: nat)
    requires j < 3
    ensures var client := SHIPPED_MINER.entries[0].value.entries[0].value;
            Get(SHIPPED_MINER, ["miner", "client", client.entries[j].key]) == Some(client.entries[j].value)
  {
    var miner := SHIPPED_MINER.entries[0].value;
    var client := miner.entries[0].value;
    var p: Path := ["miner", "client", client.entries[j].key];
    ChildAt(SHIPPED_MINER, 0);
    ChildAt(miner, 0);
    ChildAt(client, j);
    assert p == ["miner", "client"] + [client.entries[j].key];
    hide Child;
    GetTwo(SHIPPED_MINER, "miner", "client");
    GetAlong(SHIPPED_MINER, ["miner", "client"], [client.entries[j].key]);
    GetOne(client, client.entries[j].key);
  }

  predicate Named(f: Field) {
    f.id == (if f.doc == Ckb then "ckb." else "") + Joined(f.path)
  }

  lemma LoggerNames()
    ensures Named(FIELDS[0]) && Named(FIELDS[1]) && Named(FIELDS[2]) && Named(FIELDS[3])
  {
    JoinedTwo("logger", "filter");
    JoinedTwo("logger", "color");
    JoinedTwo("logger", "log_to_file");
    JoinedTwo("logger", "log_to_stdout");
  }

  lemma ListenAddressName()
    ensures "ckb.rpc.listen_address" == "ckb." + ("rpc" + "." + "listen_address")
  {
  }

  lemma BodySizeName()
    ensures "ckb.rpc.max_request_body_size" == "ckb." + ("rpc" + "." + "max_request_body_size")
  {
  }

  lemma DeprecatedRpcName()
    ensures "ckb.rpc.enable_deprecated_rpc" == "ckb." + ("rpc" + "." + "enable_deprecated_rpc")
  {
  }

  lemma RpcNames()
    ensures Named(FIELDS[4]) && Named(FIELDS[5]) && Named(FIELDS[6])
  {
    hide Joined;
    ListenAddressName();
    JoinedTwo("rpc", "listen_address");
    BodySizeName();
    JoinedTwo("rpc", "max_request_body_size");
    DeprecatedRpcName();
    JoinedTwo("rpc", "enable_deprecated_rpc");
  }

  lemma RpcUrlNamed()
    ensures Named(FIELDS[7])
  {
    JoinedThree("miner", "client", "rpc_url");
  }

  lemma BlockOnSubmitNamed()
    ensures Named(FIELDS[8])
  {
    JoinedThree("miner", "client", "block_on_submit");
  }

  lemma PollIntervalNamed()
    ensures Named(FIELDS[9])
  {
    JoinedThree("miner", "client", "poll_interval");
  }

  lemma JoinedTwo(a: string, b: string)
    ensures Joined([a, b]) == a + "." + b
  {
    assert [a, b][1..] == [b];
  }

  lemma JoinedThree(a: string, b: string, c: string)
    ensures Joined([a, b, c]) == a + "." + (b + "." + c)
  {
    assert [a, b, c][1..] == [b, c];
    JoinedTwo(b, c);
  }

  /**
   Every field of the table is named after its path, and in the shipped
   documents it is there with a value of its type.
   */
  lemma ShippedFieldsFit(i: nat)
    requires i < |FIELDS|
    ensures var f := FIELDS[i];
            && Named(f)
            && Get(if f.doc == Ckb then SHIPPED_CKB else SHIPPED_MINER, f.path) == Some(ShippedValue(i))
            && OfType(ShippedValue(i), f.ty)
  {
    LoggerNames();
    RpcNames();
    RpcUrlNamed();
    BlockOnSubmitNamed();
    PollIntervalNamed();
    hide Get, Named;
    if i < 4 {
      ShippedCkbField(0, i);
    } else if i < 7 {
      ShippedCkbField(1, i - 4);
    } else {
      ShippedMinerField(i - 7);
    }
  }
}
