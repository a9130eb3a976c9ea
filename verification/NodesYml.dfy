/** The list of Fiber nodes: reading it, checking it, and growing or shrinking it. */
module NodesYml {
  import opened Options
  import opened ConfigTree
  import opened ConfigMerge

  const MIN_FIBER_NODES := 1
  const MAX_FIBER_NODES := 16
  const DEFAULT_FIBER_NODES := 2

  datatype NodeEntry = NodeEntry(id: nat, config: Value)

  datatype NodesError =
    | NoNodesList | BadEntry(index: nat) | DuplicateId(id: nat) | IdTooLarge(id: nat)
    | ManagedField(id: nat, path: Path) | TooFew | TooMany | BadCount

  // ---- reading ----

  function NodesList(parsed: Value): Option<seq<Value>> {
    if !parsed.Obj? then None else
    match Lookup(parsed.entries, "nodes")
    case Some(Arr(items)) => Some(items)
    case _ => None
  }

  /** One entry: a positive integer id, and settings that are a mapping or left out. */
  function EntryOf(raw: Value): (r: Option<NodeEntry>)
    ensures r.Some? ==> r.value.id > 0 && r.value.config.Obj? && raw.Obj? && Lookup(raw.entries, "id") == Some(Num(r.value.id as real))
    ensures r.Some? ==> r.value.config == match Lookup(raw.entries, "config") case Some(Obj(config)) => Obj(config) case _ => Obj([])
    ensures r.Some? <==>
              && raw.Obj?
              && (match Lookup(raw.entries, "id") case Some(Num(n)) => PositiveInteger(n) case _ => false)
              && (match Lookup(raw.entries, "config") case None => true case Some(config) => config.Null? || config.Obj?)
  {
    if !raw.Obj? then None else
    match Lookup(raw.entries, "id")
    case Some(Num(n)) =>
      if n != n.Floor as real || n.Floor <= 0 then None else
      (match Lookup(raw.entries, "config")
       case None => Some(NodeEntry(n.Floor, Obj([])))
       case Some(Null) => Some(NodeEntry(n.Floor, Obj([])))
       case Some(Obj(config)) => Some(NodeEntry(n.Floor, Obj(config)))
       case _ => None)
    case _ => None
  }

  predicate DistinctIds(es: seq<NodeEntry>) {
    forall i, j :: 0 <= i < j < |es| ==> es[i].id != es[j].id
  }

  predicate EntryOk(e: NodeEntry) {
    1 <= e.id <= MAX_FIBER_NODES && e.config.Obj? && Accepted(e.config)
  }

  /** What every successfully read list satisfies, in whatever order. */
  predicate NodesOk(es: seq<NodeEntry>) {
    && DistinctIds(es)
    && (forall i :: 0 <= i < |es| ==> EntryOk(es[i]))
    && MIN_FIBER_NODES <= |es| <= MAX_FIBER_NODES
  }

  /** The raw items are exactly these entries. */
  predicate Reads(items: seq<Value>, es: seq<NodeEntry>) {
    |es| == |items| && forall i :: 0 <= i < |items| ==> EntryOf(items[i]) == Some(es[i])
  }

  predicate Sorted(es: seq<NodeEntry>) {
    forall i, j :: 0 <= i < j < |es| ==> es[i].id <= es[j].id
  }

  function InsertById(e: NodeEntry, es: seq<NodeEntry>): (r: seq<NodeEntry>)
    ensures multiset(r) == multiset(es) + multiset{e}
    ensures r != [] && (r[0] == e || (es != [] && r[0] == es[0]))
  {
    if es == [] || e.id <= es[0].id then [e] + es
    else
      assert es == [es[0]] + es[1..];
      [es[0]] + InsertById(e, es[1..])
  }

  function SortedById(es: seq<NodeEntry>): (r: seq<NodeEntry>)
    ensures multiset(r) == multiset(es)
  {
    if es == [] then [] else
    assert es == es[..|es| - 1] + [es[|es| - 1]];
    InsertById(es[|es| - 1], SortedById(es[..|es| - 1]))
  }

  lemma ConsSorted(e: NodeEntry, es: seq<NodeEntry>)
    requires Sorted(es) && (es == [] || e.id <= es[0].id)
    ensures Sorted([e] + es)
  {
  }

  lemma {:induction false} InsertKeepsSorted(e: NodeEntry, es: seq<NodeEntry>)
    requires Sorted(es)
    ensures Sorted(InsertById(e, es))
  {
    if es == [] || e.id <= es[0].id {
      ConsSorted(e, es);
    } else {
      InsertKeepsSorted(e, es[1..]);
      ConsSorted(es[0], InsertById(e, es[1..]));
    }
  }

  lemma {:induction false} SortedByIdSorts(es: seq<NodeEntry>)
    ensures Sorted(SortedById(es))
  {
    if es != [] {
      SortedByIdSorts(es[..|es| - 1]);
      InsertKeepsSorted(es[|es| - 1], SortedById(es[..|es| - 1]));
    }
  }

  lemma {:induction false} InsertLast(e: NodeEntry, es: seq<NodeEntry>)
    requires forall k :: 0 <= k < |es| ==> es[k].id < e.id
    ensures InsertById(e, es) == es + [e]
  {
    if es != [] { InsertLast(e, es[1..]); }
  }

  lemma {:induction false} SortedStays(es: seq<NodeEntry>)
    requires Sorted(es) && DistinctIds(es)
    ensures SortedById(es) == es
  {
    hide InsertById, EntryOk;
    if es != [] {
      assert es == es[..|es| - 1] + [es[|es| - 1]];
      SortedStays(es[..|es| - 1]);
      InsertLast(es[|es| - 1], es[..|es| - 1]);
    }
  }

  /** What the refusal of a list of readable entries says is so. */
  predicate EntriesRefused(es: seq<NodeEntry>, error: NodesError) {
    match error
    case DuplicateId(id) => exists i, j :: 0 <= i < j < |es| && es[i].id == id && es[j].id == id
    case IdTooLarge(id) => id > 16 && exists i :: 0 <= i < |es| && es[i].id == id
    case ManagedField(id, path) =>
      path in MANAGED && exists i :: 0 <= i < |es| && es[i].id == id && At(es[i].config, path).Some?
    case TooFew => |es| == 0
    case TooMany => |es| > 16
    case _ => false
  }

  /** What a refusal says of the parsed file is so. */
  ghost predicate Refused(parsed: Value, error: NodesError) {
    var list := NodesList(parsed);
    match error
    case NoNodesList => list.None?
    case BadEntry(i) =>
      && list.Some? && i < |list.value| && EntryOf(list.value[i]).None?
      && forall j :: 0 <= j < i ==> EntryOf(list.value[j]).Some?
    case _ => list.Some? && exists es :: Reads(list.value, es) && EntriesRefused(es, error)
  }

  method ReadNodesYml(parsed: Value) returns (r: Result<seq<NodeEntry>, NodesError>)
    ensures r.Ok? <==> NodesList(parsed).Some? && exists es :: Reads(NodesList(parsed).value, es) && NodesOk(es)
    ensures r.Ok? ==>
              && Sorted(r.value)
              && exists es :: Reads(NodesList(parsed).value, es) && NodesOk(es) && r.value == SortedById(es)
    ensures r.Err? ==> Refused(parsed, r.error)
  {
    var list := NodesList(parsed);
    if list.None? { return Err(NoNodesList); }
    var items := list.value;
    var entries: seq<NodeEntry> := [];
    var i := 0;
    while i < |items|
      invariant 0 <= i <= |items|
      invariant Reads(items[..i], entries)
    {
      var e := EntryOf(items[i]);
      if e.None? {
        return Err(BadEntry(i));
      }
      entries := entries + [e.value];
      i := i + 1;
    }
    assert items[..i] == items;
    assert forall es :: Reads(items, es) ==> es == entries;
    r := CheckEntries(entries);
  }

  method CheckEntries(entries: seq<NodeEntry>) returns (r: Result<seq<NodeEntry>, NodesError>)
    requires forall k :: 0 <= k < |entries| ==> entries[k].id > 0 && entries[k].config.Obj?
    ensures r.Ok? <==> NodesOk(entries)
    ensures r.Ok? ==> r.value == SortedById(entries) && Sorted(r.value)
    ensures r.Err? ==> EntriesRefused(entries, r.error)
  {
    var ids: set<nat> := {};
    var i := 0;
    while i < |entries|
      invariant 0 <= i <= |entries|
      invariant forall id :: id in ids <==> exists k :: 0 <= k < i && entries[k].id == id
      invariant DistinctIds(entries[..i])
      invariant forall k :: 0 <= k < i ==> EntryOk(entries[k])
    {
      var e := entries[i];
      if e.id in ids { return Err(DuplicateId(e.id)); }
      if e.id > MAX_FIBER_NODES {
        assert !EntryOk(entries[i]);
        return Err(IdTooLarge(e.id));
      }
      ids := ids + {e.id};
      var managed := AssertNoManagedFields(e.config);
      if managed.Some? {
        assert !EntryOk(entries[i]);
        return Err(ManagedField(e.id, managed.value));
      }
      i := i + 1;
    }
    assert entries[..i] == entries;
    if |entries| < MIN_FIBER_NODES { return Err(TooFew); }
    if |entries| > MAX_FIBER_NODES { return Err(TooMany); }
    SortedByIdSorts(entries);
    return Ok(SortedById(entries));
  }

  // ---- resolving the list for a start ----

  function ById(existing: seq<NodeEntry>, id: nat): (r: Option<NodeEntry>)
    ensures r.Some? <==> exists k :: 0 <= k < |existing| && existing[k].id == id
    ensures r.Some? ==> r.value in existing && r.value.id == id
  {
    if existing == [] then None
    else if ById(existing[1..], id).Some? then ById(existing[1..], id)
    else if existing[0].id == id then Some(existing[0])
    else None
  }

  /** Node `id` keeps its settings when it was there before and starts empty otherwise. */
  function NodeFor(existing: Option<seq<NodeEntry>>, id: nat): NodeEntry {
    if existing.Some? && ById(existing.value, id).Some? then ById(existing.value, id).value else NodeEntry(id, Obj([]))
  }

  function NodesUpTo(existing: Option<seq<NodeEntry>>, count: nat): seq<NodeEntry> {
    seq(count, i requires 0 <= i < count => NodeFor(existing, i + 1))
  }

  predicate CountOk(requested: Option<int>) {
    requested.Some? ==> MIN_FIBER_NODES <= requested.value <= MAX_FIBER_NODES
  }

  /** `written` is whether the file is written. */
  method EnsureNodesYml(existing: Option<seq<NodeEntry>>, requested: Option<int>)
    returns (r: Result<seq<NodeEntry>, NodesError>, written: bool)
    requires existing.Some? ==> DistinctIds(existing.value)
    ensures r.Ok? <==> CountOk(requested) && (requested.None? || 1 <= requested.value <= 16)
    ensures r.Ok? && existing.Some? && requested.None? ==> r.value == existing.value
    ensures r.Ok? && requested.Some? ==> r.value == NodesUpTo(existing, requested.value)
    ensures r.Ok? && existing.None? && requested.None? ==> r.value == NodesUpTo(None, 2) == [NodeEntry(1, Obj([])), NodeEntry(2, Obj([]))]
    ensures written <==> r.Ok? && (existing.None? || r.value != existing.value)
  {
    if requested.Some? && !(MIN_FIBER_NODES <= requested.value <= MAX_FIBER_NODES) {
      return Err(BadCount), false;
    }
    if existing.None? {
      var count := if requested.None? then DEFAULT_FIBER_NODES else requested.value;
      return Ok(seq(count, i requires 0 <= i < count => NodeEntry(i + 1, Obj([])))), true;
    }
    if requested.None? { return Ok(existing.value), false; }
    var count := requested.value;
    if |existing.value| == count && forall i :: 0 <= i < count ==> existing.value[i].id == i + 1 {
      return Ok(existing.value), false;
    }
    var next: seq<NodeEntry> := [];
    var id := 1;
    while id <= count
      invariant 1 <= id <= count + 1
      invariant next == NodesUpTo(existing, id - 1)
    {
      next := next + [NodeFor(existing, id)];
      id := id + 1;
    }
    return Ok(next), true;
  }

  lemma UniqueById(es: seq<NodeEntry>, k: nat)
    requires DistinctIds(es) && k < |es|
    ensures ById(es, es[k].id) == Some(es[k])
  {
    var e := ById(es, es[k].id).value;
    var j :| 0 <= j < |es| && es[j] == e;
    assert j == k;
  }

  /** Resolving keeps a valid list valid, numbers the nodes from 1 and keeps every surviving node's settings. */
  lemma ResizedNodes(existing: seq<NodeEntry>, count: nat)
    requires NodesOk(existing) && MIN_FIBER_NODES <= count <= MAX_FIBER_NODES
    ensures var next := NodesUpTo(Some(existing), count);
            && NodesOk(next) && Sorted(next)
            && (forall i :: 0 <= i < |next| ==> next[i].id == i + 1)
            && (forall k :: 0 <= k < |existing| && existing[k].id <= count ==> next[existing[k].id - 1] == existing[k])
            && NodesUpTo(Some(next), count) == next
  {
    var next := NodesUpTo(Some(existing), count);
    forall i | 0 <= i < count ensures next[i].id == i + 1 && EntryOk(next[i]) {
      var found := ById(existing, i + 1);
      if found.Some? {
        var k :| 0 <= k < |existing| && existing[k] == found.value;
        assert EntryOk(existing[k]);
      }
    }
    forall k | 0 <= k < |existing| && existing[k].id <= count ensures next[existing[k].id - 1] == existing[k] {
      UniqueById(existing, k);
      assert EntryOk(existing[k]);
    }
  }

  /** A node that was not there before starts without settings. */
  lemma NewNodesStartEmpty(existing: seq<NodeEntry>, count: nat, i: nat)
    requires i < count && forall k :: 0 <= k < |existing| ==> existing[k].id != i + 1
    ensures NodesUpTo(Some(existing), count)[i] == NodeEntry(i + 1, Obj([]))
  {
    assert ById(existing, i + 1).None?;
  }

  // ---- what is written is read back ----

  function RawOf(e: NodeEntry): Value {
    Obj([Entry("id", Num(e.id as real)), Entry("config", e.config)])
  }

  /** The document that is written for a list of nodes. */
  function NodesDocument(es: seq<NodeEntry>): Value {
    Obj([Entry("nodes", Arr(seq(|es|, i requires 0 <= i < |es| => RawOf(es[i]))))])
  }

  lemma EntryOfRaw(e: NodeEntry)
    requires e.id > 0 && e.config.Obj?
    ensures EntryOf(RawOf(e)) == Some(e)
  {
    var es := [Entry("id", Num(e.id as real)), Entry("config", e.config)];
    FindIs(es, "id", 0);
    FindIs(es, "config", 1);
  }

  /** A valid list in id order survives being written and read again. */
  lemma WrittenNodesReadBack(es: seq<NodeEntry>)
    requires NodesOk(es) && Sorted(es)
    ensures NodesList(NodesDocument(es)).Some? && Reads(NodesList(NodesDocument(es)).value, es)
    ensures SortedById(es) == es
  {
    hide EntryOf, Accepted, RawOf, SortedById;
    var items := seq(|es|, i requires 0 <= i < |es| => RawOf(es[i]));
    FindIs([Entry("nodes", Arr(items))], "nodes", 0);
    forall i | 0 <= i < |es| ensures EntryOf(items[i]) == Some(es[i]) {
      assert EntryOk(es[i]);
      EntryOfRaw(es[i]);
    }
    SortedStays(es);
  }
}
