/** The flat listing of a document's nodes, and what deleting one does to it. */
module ConfigListing {
  import opened Options
  import opened ConfigTree
  import opened Seqs

  datatype Kind = ObjectNode | ArrayNode | Leaf(value: Value)

  datatype Item = Item(path: Path, kind: Kind)

  function KindOf(v: Value): Kind {
    match v
    case Arr(_) => ArrayNode
    case Obj(_) => ObjectNode
    case _ => Leaf(v)
  }

  /** The items of each child's subtree, in order. */
  function Parts(v: Value, at: Path): (parts: seq<seq<Item>>)
    ensures |parts| == |Kids(v)|
    decreases v, 0
  {
    seq(|Kids(v)|, i requires 0 <= i < |Kids(v)| => KidSmaller(v, i); Walk(Kids(v)[i].value, at + [Kids(v)[i].key]))
  }

  /** The subtree of the node at `at`, itself first unless it is the root. */
  function Walk(v: Value, at: Path): seq<Item>
    decreases v, 1
  {
    Head(v, at) + Flatten(Parts(v, at))
  }

  function Head(v: Value, at: Path): seq<Item> {
    if at == [] then [] else [Item(at, KindOf(v))]
  }

  function Entries(doc: Value): seq<Item> {
    Walk(doc, [])
  }

  // ---- flattening ----

  lemma SplitAt<T>(s: seq<T>, i: nat)
    requires i < |s|
    ensures s == s[..i] + ([s[i]] + s[i + 1..])
  {
  }

  lemma FlattenAt(parts: seq<seq<Item>>, i: nat)
    requires i < |parts|
    ensures Flatten(parts) == Flatten(parts[..i]) + (parts[i] + Flatten(parts[i + 1..]))
  {
    hide Flatten;
    SplitAt(parts, i);
    FlattenAppend(parts[..i], [parts[i]] + parts[i + 1..]);
    FlattenCons(parts[i], parts[i + 1..]);
  }

  lemma {:induction false} InFlatten(parts: seq<seq<Item>>, it: Item)
    ensures it in Flatten(parts) <==> exists i :: 0 <= i < |parts| && it in parts[i]
  {
    if parts != [] {
      InFlatten(parts[1..], it);
      if it in Flatten(parts[1..]) {
        var i :| 0 <= i < |parts[1..]| && it in parts[1..][i];
        assert it in parts[i + 1];
      }
      forall i | 0 <= i < |parts| && it in parts[i] ensures it in Flatten(parts) {
        if i > 0 { assert it in parts[1..][i - 1]; }
      }
    }
  }

  // ---- every node once ----

  lemma {:induction false} WalkPaths(v: Value, at: Path, it: Item)
    requires it in Walk(v, at)
    ensures at <= it.path && (it.path == at ==> at != [])
    decreases v, 1
  {
    if it in Flatten(Parts(v, at)) {
      InFlatten(Parts(v, at), it);
      var i :| 0 <= i < |Parts(v, at)| && it in Parts(v, at)[i];
      KidSmaller(v, i);
      WalkPaths(Kids(v)[i].value, at + [Kids(v)[i].key], it);
    }
  }

  predicate NodeAt(v: Value, p: Path, kind: Kind) {
    Get(v, p).Some? && kind == KindOf(Get(v, p).value)
  }

  lemma ListedHere(v: Value, at: Path, kind: Kind)
    ensures Item(at, kind) in Walk(v, at) <==> at != [] && kind == KindOf(v)
  {
    var it := Item(at, kind);
    if it in Flatten(Parts(v, at)) {
      InFlatten(Parts(v, at), it);
      var i :| 0 <= i < |Parts(v, at)| && it in Parts(v, at)[i];
      WalkPaths(Kids(v)[i].value, at + [Kids(v)[i].key], it);
      assert false;
    }
  }

  lemma ListedDeep(v: Value, at: Path, p: Path, kind: Kind)
    requires UniqueKeys(Kids(v)) && p != []
    requires forall i :: 0 <= i < |Kids(v)| ==>
               (Item(at + p, kind) in Parts(v, at)[i] <==> Kids(v)[i].key == p[0] && NodeAt(Kids(v)[i].value, p[1..], kind))
    ensures Item(at + p, kind) in Walk(v, at) <==> NodeAt(v, p, kind)
  {
    hide KindOf, Parts, Kids, WellFormed, Flatten;
    var it := Item(at + p, kind);
    assert at + p != at;
    InFlatten(Parts(v, at), it);
    var k := Find(Kids(v), p[0]);
    if k < |Kids(v)| {
      assert Child(v, p[0]) == Some(Kids(v)[k].value);
      assert forall j :: 0 <= j < |Kids(v)| && j != k ==> Kids(v)[j].key != p[0];
    }
  }

  /** A node is listed below `at` exactly when its path looks it up. */
  lemma {:induction false} Listed(v: Value, at: Path, p: Path, kind: Kind)
    requires WellFormed(v)
    ensures Item(at + p, kind) in Walk(v, at) <==> at + p != [] && NodeAt(v, p, kind)
    decreases v, 1
  {
    if p == [] {
      assert at + p == at;
      ListedHere(v, at, kind);
    } else {
      KidsUnique(v);
      forall i | 0 <= i < |Kids(v)|
        ensures Item(at + p, kind) in Parts(v, at)[i] <==> Kids(v)[i].key == p[0] && NodeAt(Kids(v)[i].value, p[1..], kind)
      {
        ListedBelow(v, at, p, kind, i);
      }
      ListedDeep(v, at, p, kind);
    }
  }

  lemma PrefixKey(at: Path, p: Path, key: string)
    requires at + [key] <= at + p
    ensures p != [] && p[0] == key
  {
    assert (at + [key])[|at|] == (at + p)[|at|];
  }

  lemma ListedBelow(v: Value, at: Path, p: Path, kind: Kind, i: nat)
    requires p != [] && i < |Kids(v)| && WellFormed(Kids(v)[i].value)
    ensures Item(at + p, kind) in Parts(v, at)[i] <==> Kids(v)[i].key == p[0] && NodeAt(Kids(v)[i].value, p[1..], kind)
    decreases v, 0
  {
    var e := Kids(v)[i];
    var it := Item(at + p, kind);
    KidSmaller(v, i);
    if it in Parts(v, at)[i] {
      WalkPaths(e.value, at + [e.key], it);
      PrefixKey(at, p, e.key);
    }
    if e.key == p[0] {
      assert at + p == (at + [e.key]) + p[1..];
      Listed(e.value, at + [e.key], p[1..], kind);
    }
  }

  predicate DistinctPaths(items: seq<Item>) {
    forall i, j :: 0 <= i < j < |items| ==> items[i].path != items[j].path
  }

  predicate ApartPaths(xs: seq<Item>, ys: seq<Item>) {
    forall x: Item, y: Item :: x in xs && y in ys ==> x.path != y.path
  }

  lemma DistinctJoin(xs: seq<Item>, ys: seq<Item>)
    requires DistinctPaths(xs) && DistinctPaths(ys) && ApartPaths(xs, ys)
    ensures DistinctPaths(xs + ys)
  {
  }

  lemma {:induction false} DistinctFlat(parts: seq<seq<Item>>)
    requires forall i :: 0 <= i < |parts| ==> DistinctPaths(parts[i])
    requires forall i, j :: 0 <= i < j < |parts| ==> ApartPaths(parts[i], parts[j])
    ensures DistinctPaths(Flatten(parts))
  {
    if parts != [] {
      DistinctFlat(parts[1..]);
      forall x: Item, y: Item | x in parts[0] && y in Flatten(parts[1..]) ensures x.path != y.path {
        InFlatten(parts[1..], y);
        var j :| 0 <= j < |parts[1..]| && y in parts[1..][j];
        assert ApartPaths(parts[0], parts[j + 1]);
      }
      DistinctJoin(parts[0], Flatten(parts[1..]));
    }
  }

  lemma {:induction false} WalkDistinct(v: Value, at: Path)
    requires WellFormed(v)
    ensures DistinctPaths(Walk(v, at))
    decreases v, 1
  {
    KidsUnique(v);
    var parts := Parts(v, at);
    forall i | 0 <= i < |parts| ensures DistinctPaths(parts[i]) {
      KidSmaller(v, i);
      WalkDistinct(Kids(v)[i].value, at + [Kids(v)[i].key]);
    }
    forall i, j | 0 <= i < j < |parts| ensures ApartPaths(parts[i], parts[j]) {
      forall x: Item, y: Item | x in parts[i] && y in parts[j] ensures x.path != y.path {
        WalkPaths(Kids(v)[i].value, at + [Kids(v)[i].key], x);
        WalkPaths(Kids(v)[j].value, at + [Kids(v)[j].key], y);
        assert x.path[|at|] == Kids(v)[i].key && y.path[|at|] == Kids(v)[j].key;
      }
    }
    DistinctFlat(parts);
    forall y: Item | y in Flatten(parts) ensures y.path != at {
      InFlatten(parts, y);
      var j :| 0 <= j < |parts| && y in parts[j];
      WalkPaths(Kids(v)[j].value, at + [Kids(v)[j].key], y);
    }
    if at != [] {
      DistinctJoin([Item(at, KindOf(v))], Flatten(parts));
    } else {
      assert Walk(v, at) == Flatten(parts);
    }
  }

  /** Every node but the root is listed exactly once, under the path that looks it up. */
  lemma EntriesExact(doc: Value)
    requires WellFormed(doc)
    ensures forall i :: 0 <= i < |Entries(doc)| ==>
              Entries(doc)[i].path != [] && NodeAt(doc, Entries(doc)[i].path, Entries(doc)[i].kind)
    ensures forall p, kind :: p != [] && NodeAt(doc, p, kind) ==> Item(p, kind) in Entries(doc)
    ensures DistinctPaths(Entries(doc))
  {
    forall p: Path, kind ensures Item(p, kind) in Entries(doc) <==> p != [] && NodeAt(doc, p, kind) {
      assert [] + p == p;
      Listed(doc, [], p, kind);
    }
    forall i | 0 <= i < |Entries(doc)|
      ensures Entries(doc)[i].path != [] && NodeAt(doc, Entries(doc)[i].path, Entries(doc)[i].kind)
    {
      assert Entries(doc)[i] == Item(Entries(doc)[i].path, Entries(doc)[i].kind);
      assert Entries(doc)[i] in Entries(doc);
    }
    WalkDistinct(doc, []);
  }

  // ---- in preorder ----

  /** `p` comes before `q`: it leads to it, or where they part its child is the earlier one. */
  predicate Precedes(v: Value, p: Path, q: Path)
    decreases |p|
  {
    && q != []
    && (p == [] ||
        if p[0] == q[0] then Child(v, p[0]).Some? && Precedes(Child(v, p[0]).value, p[1..], q[1..])
        else Find(Kids(v), p[0]) < Find(Kids(v), q[0]) < |Kids(v)|)
  }

  lemma {:induction false} WalkInOrder(v: Value, at: Path, a: nat, b: nat)
    requires WellFormed(v) && a < b < |Walk(v, at)|
    ensures var p, q := Walk(v, at)[a].path, Walk(v, at)[b].path;
            at <= p && at <= q && Precedes(v, p[|at|..], q[|at|..])
    decreases v, 1
  {
    hide WellFormed, Find, KindOf, Kids, Flatten;
    var w, parts, h := Walk(v, at), Parts(v, at), |Head(v, at)|;
    WalkPaths(v, at, w[a]);
    WalkPaths(v, at, w[b]);
    if a >= h {
      var i, x, j, y := FlattenPlaces(parts, a - h, b - h);
      PartsInOrder(v, at, i, x, j, y);
    } else {
      var j, y := FlattenPlace(parts, b - h);
      WalkPaths(Kids(v)[j].value, at + [Kids(v)[j].key], parts[j][y]);
    }
  }

  lemma PartsInOrder(v: Value, at: Path, i: nat, x: nat, j: nat, y: nat)
    requires WellFormed(v) && i < |Kids(v)| && j < |Kids(v)| && x < |Parts(v, at)[i]| && y < |Parts(v, at)[j]|
    requires i < j || (i == j && x < y)
    ensures var p, q := Parts(v, at)[i][x].path, Parts(v, at)[j][y].path;
            at <= p && at <= q && Precedes(v, p[|at|..], q[|at|..])
    decreases v, 0
  {
    hide WellFormed, Find, KindOf, Kids, Flatten;
    var a, b := Kids(v)[i], Kids(v)[j];
    var p, q := Parts(v, at)[i][x].path, Parts(v, at)[j][y].path;
    KidsUnique(v);
    KidSmaller(v, i);
    WalkPaths(a.value, at + [a.key], Parts(v, at)[i][x]);
    WalkPaths(b.value, at + [b.key], Parts(v, at)[j][y]);
    assert p[|at|] == a.key && q[|at|] == b.key;
    if i == j {
      WalkInOrder(a.value, at + [a.key], x, y);
      assert p[|at|..][1..] == p[|at + [a.key]|..] && q[|at|..][1..] == q[|at + [a.key]|..];
    }
  }

  /** The listing is in preorder: a node before what is below it, a child's subtree before the later children's. */
  lemma EntriesInOrder(doc: Value, a: nat, b: nat)
    requires WellFormed(doc) && a < b < |Entries(doc)|
    ensures Precedes(doc, Entries(doc)[a].path, Entries(doc)[b].path)
  {
    WalkInOrder(doc, [], a, b);
    var p, q := Entries(doc)[a].path, Entries(doc)[b].path;
    assert p[0..] == p && q[0..] == q;
  }

  // ---- a subtree is a contiguous stretch of the listing ----

  function Before(v: Value, at: Path, i: nat): seq<Item>
    requires i < |Kids(v)|
  {
    Head(v, at) + Flatten(Parts(v, at)[..i])
  }

  function Rest(v: Value, at: Path, i: nat): seq<Item>
    requires i < |Kids(v)|
  {
    Flatten(Parts(v, at)[i + 1..])
  }

  lemma WalkSplit(v: Value, at: Path, i: nat)
    requires i < |Kids(v)|
    ensures Walk(v, at) == Before(v, at, i) + Walk(Kids(v)[i].value, at + [Kids(v)[i].key]) + Rest(v, at, i)
  {
    hide Flatten;
    FlattenAt(Parts(v, at), i);
  }

  lemma SameAround(v: Value, v': Value, at: Path, i: nat, x: Value)
    requires i < |Kids(v)| && KindOf(v') == KindOf(v) && Kids(v') == Kids(v)[i := Entry(Kids(v)[i].key, x)]
    ensures Before(v', at, i) == Before(v, at, i) && Rest(v', at, i) == Rest(v, at, i)
  {
    hide Flatten;
    assert Parts(v', at)[..i] == Parts(v, at)[..i];
    assert Parts(v', at)[i + 1..] == Parts(v, at)[i + 1..];
  }

  predicate Outside(it: Item, at: Path, key: string) {
    at <= it.path && !(at + [key] <= it.path)
  }

  lemma InPart(v: Value, at: Path, i: nat, j: nat, it: Item)
    requires UniqueKeys(Kids(v)) && i < |Kids(v)| && j < |Kids(v)| && i != j && it in Parts(v, at)[j]
    ensures Outside(it, at, Kids(v)[i].key) && it.path != at
  {
    WalkPaths(Kids(v)[j].value, at + [Kids(v)[j].key], it);
    assert it.path[|at|] == Kids(v)[j].key;
  }

  lemma Around(v: Value, at: Path, i: nat, it: Item)
    requires UniqueKeys(Kids(v)) && i < |Kids(v)|
    ensures it in Before(v, at, i) ==> Outside(it, at, Kids(v)[i].key)
    ensures it in Rest(v, at, i) ==> Outside(it, at, Kids(v)[i].key) && it.path != at
  {
    hide Flatten, Walk, Parts;
    var parts := Parts(v, at);
    InFlatten(parts[..i], it);
    InFlatten(parts[i + 1..], it);
    if it in Flatten(parts[..i]) {
      var k :| 0 <= k < |parts[..i]| && it in parts[..i][k];
      InPart(v, at, i, k, it);
    }
    if it in Rest(v, at, i) {
      var k :| 0 <= k < |parts[i + 1..]| && it in parts[i + 1..][k];
      InPart(v, at, i, i + 1 + k, it);
    }
  }

  /** Not on the way to `p`, not at it and not below it. */
  predicate Beside(it: Item, p: Path) {
    !(p <= it.path) && !(it.path <= p)
  }

  lemma OutsideBeside(it: Item, at: Path, p: Path)
    requires p != [] && Outside(it, at, p[0])
    ensures at <= it.path && !(at + p <= it.path)
    ensures it.path != at ==> Beside(it, at + p)
  {
    if at + p <= it.path || (it.path <= at + p && it.path != at) {
      assert false;
    }
  }

  /** Replacing a present subtree leaves the listing before and after it alone. */
  lemma {:induction false} WalkOfPut(v: Value, at: Path, p: Path, x: Value) returns (before: seq<Item>, after: seq<Item>)
    requires WellFormed(v) && p != [] && Get(v, p).Some?
    ensures Walk(v, at) == before + Walk(Get(v, p).value, at + p) + after
    ensures Walk(Put(v, p, x), at) == before + Walk(x, at + p) + after
    ensures forall it: Item :: it in before ==> at <= it.path && !(at + p <= it.path)
    ensures forall it: Item :: it in after ==> at <= it.path && Beside(it, at + p)
    decreases |p|
  {
    hide Walk, Before, Rest, Beside, Outside, Kids, Put;
    KidsUnique(v);
    PutKids(v, p, x);
    var i := Find(Kids(v), p[0]);
    var under := at + [p[0]];
    var c := Kids(v)[i].value;
    var c' := Put(c, p[1..], x);
    assert at + p == under + p[1..];
    WalkSplit(v, at, i);
    WalkSplit(Put(v, p, x), at, i);
    SameAround(v, Put(v, p, x), at, i, c');
    var inner, outer := [], [];
    if |p| > 1 {
      inner, outer := WalkOfPut(c, under, p[1..], x);
    } else {
      PutNothing(c, p[1..], x);
      assert under + p[1..] == under;
    }
    before := Before(v, at, i) + inner;
    after := outer + Rest(v, at, i);
    forall it: Item | it in before ensures at <= it.path && !(at + p <= it.path) {
      Around(v, at, i, it);
      if it in Before(v, at, i) { OutsideBeside(it, at, p); }
    }
    forall it: Item | it in after ensures at <= it.path && Beside(it, at + p) {
      Around(v, at, i, it);
      if it in Rest(v, at, i) { OutsideBeside(it, at, p); }
    }
  }

  lemma PutKids(v: Value, p: Path, x: Value)
    requires WellFormed(v) && p != [] && Get(v, p).Some?
    ensures var i := Find(Kids(v), p[0]);
            && i < |Kids(v)| && KindOf(Put(v, p, x)) == KindOf(v)
            && Kids(Put(v, p, x)) == Kids(v)[i := Entry(p[0], Put(Kids(v)[i].value, p[1..], x))]
  {
    if v.Arr? {
      var i := Find(Kids(v), p[0]);
      KidsWithItem(v.items, i, Put(v.items[i], p[1..], x));
    }
  }

  // ---- deleting a node ----

  /** The container without its child number `i`. */
  function WithoutKid(v: Value, i: nat): Value
    requires i < |Kids(v)|
  {
    match v
    case Arr(items) => Arr(items[..i] + items[i + 1..])
    case Obj(entries) => Obj(entries[..i] + entries[i + 1..])
  }

  function Removed(doc: Value, parent: Path, i: nat): Value
    requires Get(doc, parent).Some? && i < |Kids(Get(doc, parent).value)|
  {
    Put(doc, parent, WithoutKid(Get(doc, parent).value, i))
  }

  function Mapped(f: Item -> Item, items: seq<Item>): seq<Item> {
    seq(|items|, i requires 0 <= i < |items| => f(items[i]))
  }

  /** The item with path component `n` replaced. */
  function Rekeyed(it: Item, n: nat, key: string): Item {
    if n < |it.path| then it.(path := it.path[n := key]) else it
  }

  /** The item of a later array sibling after the array has lost an element: its index is one less. */
  function Lowered(it: Item, n: nat): Item {
    if n < |it.path| && IsNumeral(it.path[n]) && Read(it.path[n]) > 0
    then it.(path := it.path[n := Show(Read(it.path[n]) - 1)])
    else it
  }

  function LowerAll(items: seq<Item>, n: nat): seq<Item> {
    Mapped(it => Lowered(it, n), items)
  }

  lemma {:induction false} FlatMapped(f: Item -> Item, parts: seq<seq<Item>>, parts': seq<seq<Item>>)
    requires |parts'| == |parts| && forall i :: 0 <= i < |parts| ==> parts'[i] == Mapped(f, parts[i])
    ensures Flatten(parts') == Mapped(f, Flatten(parts))
  {
    if parts != [] {
      FlatMapped(f, parts[1..], parts'[1..]);
    }
  }

  lemma {:induction false} WalkRekeyed(v: Value, at: Path, n: nat, key: string)
    requires n < |at|
    ensures Walk(v, at[n := key]) == Mapped(it => Rekeyed(it, n, key), Walk(v, at))
    decreases v
  {
    var f := (it: Item) => Rekeyed(it, n, key);
    var parts, parts' := Parts(v, at), Parts(v, at[n := key]);
    forall i | 0 <= i < |parts| ensures parts'[i] == Mapped(f, parts[i]) {
      KidSmaller(v, i);
      var under := at + [Kids(v)[i].key];
      assert under[n := key] == at[n := key] + [Kids(v)[i].key];
      WalkRekeyed(Kids(v)[i].value, under, n, key);
    }
    FlatMapped(f, parts, parts');
  }

  lemma MappedSame(f: Item -> Item, g: Item -> Item, items: seq<Item>)
    requires forall it :: it in items ==> f(it) == g(it)
    ensures Mapped(f, items) == Mapped(g, items)
  {
  }

  lemma LoweredIsRekeyed(it: Item, at: Path, j: nat)
    requires at + [Show(j + 1)] <= it.path
    ensures Lowered(it, |at|) == Rekeyed(it, |at|, Show(j))
  {
    assert it.path[|at|] == (at + [Show(j + 1)])[|at|];
    ReadOfShow(j + 1);
  }

  lemma LoweredSibling(v: Value, at: Path, j: nat)
    ensures Walk(v, at + [Show(j)]) == LowerAll(Walk(v, at + [Show(j + 1)]), |at|)
  {
    hide Walk, Mapped, Lowered, Rekeyed, Show;
    var from := at + [Show(j + 1)];
    WalkRekeyed(v, from, |at|, Show(j));
    assert from[|at| := Show(j)] == at + [Show(j)];
    forall it | it in Walk(v, from) ensures Lowered(it, |at|) == Rekeyed(it, |at|, Show(j)) {
      WalkPaths(v, from, it);
      LoweredIsRekeyed(it, at, j);
    }
    MappedSame(it => Lowered(it, |at|), it => Rekeyed(it, |at|, Show(j)), Walk(v, from));
  }

  /** Later siblings once an earlier one is gone. */
  function Afterwards(v: Value, at: Path, later: seq<Item>): seq<Item> {
    if v.Arr? then LowerAll(later, |at|) else later
  }

  function LaterAfter(v: Value, at: Path, i: nat): seq<Item>
    requires i < |Kids(v)|
  {
    Afterwards(v, at, Rest(v, at, i))
  }

  lemma PartsBefore(v: Value, at: Path, i: nat)
    requires i < |Kids(v)|
    ensures |Kids(WithoutKid(v, i))| == |Kids(v)| - 1
    ensures Parts(WithoutKid(v, i), at)[..i] == Parts(v, at)[..i]
  {
  }

  lemma LaterInArray(v: Value, at: Path, i: nat)
    requires v.Arr? && i < |v.items|
    ensures i <= |Parts(WithoutKid(v, i), at)|
    ensures Flatten(Parts(WithoutKid(v, i), at)[i..]) == LowerAll(Rest(v, at, i), |at|)
  {
    var v' := WithoutKid(v, i);
    hide Walk, Mapped, Flatten;
    var parts, parts' := Parts(v, at)[i + 1..], Parts(v', at)[i..];
    forall j | 0 <= j < |parts'| ensures parts'[j] == LowerAll(parts[j], |at|) {
      assert v'.items[i + j] == v.items[i + 1 + j];
      LoweredSibling(v.items[i + 1 + j], at, i + j);
    }
    FlatMapped(it => Lowered(it, |at|), parts, parts');
  }

  lemma LaterInObject(v: Value, at: Path, i: nat)
    requires v.Obj? && i < |v.entries|
    ensures Parts(WithoutKid(v, i), at)[i..] == Parts(v, at)[i + 1..]
  {
  }

  lemma WalkCut(v: Value, at: Path, i: nat)
    requires i <= |Kids(v)|
    ensures Walk(v, at) == Head(v, at) + Flatten(Parts(v, at)[..i]) + Flatten(Parts(v, at)[i..])
  {
    hide Flatten, Head;
    var parts := Parts(v, at);
    assert parts == parts[..i] + parts[i..];
    FlattenAppend(parts[..i], parts[i..]);
  }

  lemma WalkWithoutKid(v: Value, at: Path, i: nat)
    requires i < |Kids(v)|
    ensures Walk(WithoutKid(v, i), at) == Before(v, at, i) + LaterAfter(v, at, i)
  {
    PartsBefore(v, at, i);
    if v.Arr? { LaterInArray(v, at, i); } else { LaterInObject(v, at, i); }
    assert Head(WithoutKid(v, i), at) == Head(v, at);
    hide Walk, Parts, Flatten, LowerAll, Kids, WithoutKid, Head;
    WalkCut(WithoutKid(v, i), at, i);
  }

  lemma LaterPaths(v: Value, at: Path, i: nat, it: Item)
    requires UniqueKeys(Kids(v)) && i < |Kids(v)| && it in Rest(v, at, i)
    ensures at <= it.path && |it.path| > |at| && it.path[|at|] != Kids(v)[i].key
    ensures v.Arr? ==> IsNumeral(it.path[|at|]) && Read(it.path[|at|]) > i
  {
    hide Walk, Flatten, IsNumeral, Read;
    var parts := Parts(v, at);
    InFlatten(parts[i + 1..], it);
    var k :| 0 <= k < |parts[i + 1..]| && it in parts[i + 1..][k];
    var j := i + 1 + k;
    WalkPaths(Kids(v)[j].value, at + [Kids(v)[j].key], it);
    assert it.path[|at|] == Kids(v)[j].key;
    if v.Arr? { ReadOfShow(j); }
  }

  lemma GetKid(doc: Value, parent: Path, i: nat)
    requires Get(doc, parent).Some? && i < |Kids(Get(doc, parent).value)| && UniqueKeys(Kids(Get(doc, parent).value))
    ensures var e := Kids(Get(doc, parent).value)[i]; Get(doc, parent + [e.key]) == Some(e.value)
  {
    var v := Get(doc, parent).value;
    GetAlong(doc, parent, [Kids(v)[i].key]);
  }

  /** Below the same container as child `i`, in a later place: another key, and a higher index in an array. */
  predicate LaterSibling(it: Item, v: Value, at: Path, i: nat)
    requires i < |Kids(v)|
  {
    && at <= it.path && |it.path| > |at| && it.path[|at|] != Kids(v)[i].key
    && (v.Arr? ==> IsNumeral(it.path[|at|]) && Read(it.path[|at|]) > i)
  }

  /**
   Deleting a node removes exactly the listing of its subtree, a contiguous
   stretch; of the rest only the later siblings in an array change, each index
   going down by one.
   */
  lemma DeleteRemovesSubtree(doc: Value, parent: Path, i: nat) returns (before: seq<Item>, later: seq<Item>, after: seq<Item>)
    requires WellFormed(doc) && Get(doc, parent).Some? && i < |Kids(Get(doc, parent).value)|
    ensures var v := Get(doc, parent).value;
            var e := Kids(v)[i];
            var path := parent + [e.key];
            && Get(doc, path) == Some(e.value)
            && Entries(doc) == before + Walk(e.value, path) + later + after
            && Entries(Removed(doc, parent, i)) == before + Afterwards(v, parent, later) + after
            && (forall it :: it in before || it in after ==> !(path <= it.path))
            && (forall it :: it in later ==> LaterSibling(it, v, parent, i))
            && (forall it :: it in after ==> Beside(it, parent))
  {
    var v := Get(doc, parent).value;
    var e := Kids(v)[i];
    WellFormedGet(doc, parent);
    KidsUnique(v);
    GetKid(doc, parent, i);
    hide *;
    var outer;
    outer, after := AroundContainer(doc, parent, WithoutKid(v, i));
    WalkSplit(v, parent, i);
    WalkWithoutKid(v, parent, i);
    before, later := outer + Before(v, parent, i), Rest(v, parent, i);
    DeletedListing(doc, parent, i, outer, after);
    forall it | it in before || it in after ensures !(parent + [e.key] <= it.path) {
      Around(v, parent, i, it);
    }
    forall it | it in later ensures LaterSibling(it, v, parent, i) {
      LaterPaths(v, parent, i, it);
    }
  }

  lemma DeletedListing(doc: Value, parent: Path, i: nat, outer: seq<Item>, after: seq<Item>)
    requires Get(doc, parent).Some? && i < |Kids(Get(doc, parent).value)|
    requires var v := Get(doc, parent).value;
             && Entries(doc) == outer + Walk(v, parent) + after
             && Entries(Put(doc, parent, WithoutKid(v, i))) == outer + Walk(WithoutKid(v, i), parent) + after
    ensures var v := Get(doc, parent).value; var e := Kids(v)[i];
            && Entries(doc) == (outer + Before(v, parent, i)) + Walk(e.value, parent + [e.key]) + Rest(v, parent, i) + after
            && Entries(Removed(doc, parent, i)) == (outer + Before(v, parent, i)) + Afterwards(v, parent, Rest(v, parent, i)) + after
  {
    var v := Get(doc, parent).value;
    var e := Kids(v)[i];
    assert Removed(doc, parent, i) == Put(doc, parent, WithoutKid(v, i));
    assert LaterAfter(v, parent, i) == Afterwards(v, parent, Rest(v, parent, i));
    hide *;
    WalkSplit(v, parent, i);
    WalkWithoutKid(v, parent, i);
    Regroup(outer, Before(v, parent, i), Walk(e.value, parent + [e.key]), Rest(v, parent, i), after);
    Regroup(outer, Before(v, parent, i), [], Afterwards(v, parent, Rest(v, parent, i)), after);
  }

  lemma Regroup(a: seq<Item>, b: seq<Item>, c: seq<Item>, d: seq<Item>, e: seq<Item>)
    ensures a + (b + c + d) + e == (a + b) + c + d + e
    ensures c == [] ==> b + d == b + c + d && (a + b) + d == (a + b) + c + d
  {
  }

  /** What is listed around a container, whatever is put in its place. */
  lemma AroundContainer(doc: Value, parent: Path, x: Value) returns (outer: seq<Item>, after: seq<Item>)
    requires WellFormed(doc) && Get(doc, parent).Some?
    ensures Entries(doc) == outer + Walk(Get(doc, parent).value, parent) + after
    ensures Entries(Put(doc, parent, x)) == outer + Walk(x, parent) + after
    ensures forall it :: it in outer ==> !(parent <= it.path)
    ensures forall it :: it in after ==> Beside(it, parent)
  {
    outer, after := [], [];
    if parent != [] {
      outer, after := WalkOfPut(doc, [], parent, x);
      assert [] + parent == parent;
    } else {
      PutNothing(doc, parent, x);
    }
  }
}
