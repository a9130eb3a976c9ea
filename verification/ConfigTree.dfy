/**
 Configuration documents as trees: looking up, replacing and removing what a
 path names, and listing every node.
 */
module ConfigTree {
  import opened Options

  datatype Value =
    | Null
    | Str(text: string)
    | Num(number: real)
    | Bool(flag: bool)
    | Arr(items: seq<Value>)
    | Obj(entries: seq<Entry>)

  datatype Entry = Entry(key: string, value: Value)

  type Path = seq<string>

  predicate PositiveInteger(x: real) {
    x > 0.0 && x == x.Floor as real
  }

  // ---- array indices as path keys ----

  function Digit(d: nat): char
    requires d < 10
  {
    '0' + d as char
  }

  predicate IsNumeral(s: string) {
    s != [] && forall i :: 0 <= i < |s| ==> '0' <= s[i] <= '9'
  }

  /** The canonical decimal numeral, which is how an array index appears in a path. */
  function Show(n: nat): (s: string)
    ensures IsNumeral(s)
  {
    if n < 10 then [Digit(n)] else Show(n / 10) + [Digit(n % 10)]
  }

  function Read(s: string): nat
    requires IsNumeral(s)
  {
    var d := (s[|s| - 1] - '0') as nat;
    if |s| == 1 then d else 10 * Read(s[..|s| - 1]) + d
  }

  lemma {:induction false} ReadOfShow(n: nat)
    ensures Read(Show(n)) == n
  {
    if n >= 10 {
      ReadOfShow(n / 10);
      assert Show(n)[..|Show(n)| - 1] == Show(n / 10);
    }
  }

  // ---- children ----

  predicate Container(v: Value) {
    v.Arr? || v.Obj?
  }

  function Kids(v: Value): (es: seq<Entry>)
    ensures v.Arr? ==> |es| == |v.items|
  {
    match v
    case Arr(items) => seq(|items|, i requires 0 <= i < |items| => Entry(Show(i), items[i]))
    case Obj(entries) => entries
    case _ => []
  }

  /** The position of the first entry with the key, or the length when there is none. */
  function Find(es: seq<Entry>, key: string): (i: nat)
    ensures i <= |es| && (i < |es| ==> es[i].key == key)
    ensures forall j :: 0 <= j < i ==> es[j].key != key
  {
    if es == [] || es[0].key == key then 0 else 1 + Find(es[1..], key)
  }

  lemma FindIs(es: seq<Entry>, key: string, i: nat)
    requires i <= |es| && (i < |es| ==> es[i].key == key)
    requires forall j :: 0 <= j < i ==> es[j].key != key
    ensures Find(es, key) == i
  {
    var j := Find(es, key);
    assert j < |es| ==> es[j].key == key;
  }

  function Lookup(es: seq<Entry>, key: string): Option<Value> {
    var i := Find(es, key);
    if i < |es| then Some(es[i].value) else None
  }

  function Child(v: Value, key: string): Option<Value> {
    Lookup(Kids(v), key)
  }

  predicate UniqueKeys(es: seq<Entry>) {
    forall i, j :: 0 <= i < j < |es| ==> es[i].key != es[j].key
  }

  predicate WellFormed(v: Value) {
    match v
    case Arr(items) => forall i :: 0 <= i < |items| ==> WellFormed(items[i])
    case Obj(entries) => UniqueKeys(entries) && forall i :: 0 <= i < |entries| ==> WellFormed(entries[i].value)
    case _ => true
  }

  lemma KidsUnique(v: Value)
    requires WellFormed(v)
    ensures UniqueKeys(Kids(v))
    ensures forall i :: 0 <= i < |Kids(v)| ==> WellFormed(Kids(v)[i].value)
  {
    if v.Arr? {
      forall i, j | 0 <= i < j < |v.items| ensures Show(i) != Show(j) {
        ReadOfShow(i);
        ReadOfShow(j);
      }
    }
  }

  lemma KidSmaller(v: Value, i: nat)
    requires i < |Kids(v)|
    ensures Kids(v)[i].value < v
  {
    match v
    case Arr(items) => assert items[i] < v;
    case Obj(entries) => assert entries[i] < v; assert entries[i].value < entries[i];
    case _ =>
  }

  // ---- paths ----

  function Get(v: Value, p: Path): Option<Value> {
    if p == [] then Some(v) else
    match Child(v, p[0])
    case None => None
    case Some(c) => Get(c, p[1..])
  }

  lemma GetDown(v: Value, p: Path)
    requires p != []
    ensures Get(v, p) == match Child(v, p[0]) case None => None case Some(c) => Get(c, p[1..])
    ensures !Container(v) ==> Get(v, p) == None
  {
  }

  /** The lookup as the program walks it, stopping at a missing or childless value. */
  method GetByPath(v: Value, p: Path) returns (r: Option<Value>)
    ensures r == Get(v, p)
  {
    hide Child, Container;
    r := Some(v);
    var i := 0;
    while i < |p|
      invariant 0 <= i <= |p|
      invariant r.Some? && Get(v, p) == Get(r.value, p[i..])
    {
      assert p[i..][0] == p[i] && p[i..][1..] == p[i + 1..];
      GetDown(r.value, p[i..]);
      if !Container(r.value) { return None; }
      r := Child(r.value, p[i]);
      if r.None? { return; }
      i := i + 1;
    }
  }

  function WithEntry(es: seq<Entry>, key: string, x: Value): (r: seq<Entry>)
    ensures UniqueKeys(es) ==> UniqueKeys(r)
  {
    var i := Find(es, key);
    if i < |es| then es[i := Entry(key, x)] else
    es + [Entry(key, x)]
  }

  function WithChild(v: Value, key: string, x: Value): Value
    requires Container(v)
  {
    match v
    case Obj(entries) => Obj(WithEntry(entries, key, x))
    case Arr(items) =>
      var i := Find(Kids(v), key);
      if i < |items| then Arr(items[i := x]) else v
  }

  /** Puts `x` at `p`, creating mappings where nothing or a childless value is in the way. */
  function Put(v: Value, p: Path, x: Value): Value
    decreases |p|
  {
    if p == [] then x
    else WithChild(AsContainer(v), p[0], Put(Below(v, p[0]), p[1..], x))
  }

  function AsContainer(v: Value): (w: Value)
    ensures Container(w)
  {
    if Container(v) then v else Obj([])
  }

  function Below(v: Value, key: string): Value {
    var c := Child(v, key);
    if c.Some? then c.value else Null
  }

  /** `x` carried up through the containers that a walk along `p` went through. */
  function Rebuild(spine: seq<Value>, p: Path, x: Value): Value
    requires |spine| == |p| && forall i :: 0 <= i < |spine| ==> Container(spine[i])
  {
    var n := |p| - 1;
    if p == [] then x else Rebuild(spine[..n], p[..n], WithChild(spine[n], p[n], x))
  }

  lemma PutNothing(v: Value, p: Path, x: Value)
    requires p == []
    ensures Put(v, p, x) == x
  {
  }

  lemma OneDown(v: Value, p: Path, x: Value, spine: seq<Value>, current: Value, i: nat)
    requires i < |p| && |spine| == i && forall k :: 0 <= k < i ==> Container(spine[k])
    requires Put(v, p, x) == Rebuild(spine, p[..i], Put(current, p[i..], x))
    ensures Put(v, p, x) == Rebuild(spine + [AsContainer(current)], p[..i + 1], Put(Below(current, p[i]), p[i + 1..], x))
  {
    hide WithChild, Below, AsContainer;
    assert (spine + [AsContainer(current)])[..i] == spine && p[..i + 1][..i] == p[..i];
    assert p[i..][1..] == p[i + 1..];
  }

  /** The assignment as the program walks it; the way back up stands for its update in place. */
  method SetByPath(v: Value, p: Path, x: Value) returns (r: Value)
    ensures r == if p == [] then v else Put(v, p, x)
  {
    hide WithChild, Below, Put, Kids;
    if p == [] { return v; }
    var spine: seq<Value> := [];
    var current := v;
    var i := 0;
    while i < |p|
      invariant 0 <= i <= |p| && |spine| == i
      invariant forall k :: 0 <= k < i ==> Container(spine[k])
      invariant Put(v, p, x) == Rebuild(spine, p[..i], Put(current, p[i..], x))
    {
      OneDown(v, p, x, spine, current, i);
      spine, current := spine + [AsContainer(current)], Below(current, p[i]);
      i := i + 1;
    }
    assert p[..|p|] == p && spine[..|p|] == spine;
    PutNothing(current, p[i..], x);
    r := x;
    while i > 0
      invariant 0 <= i <= |p| == |spine|
      invariant forall k :: 0 <= k < |p| ==> Container(spine[k])
      invariant Put(v, p, x) == Rebuild(spine[..i], p[..i], r)
    {
      i := i - 1;
      assert spine[..i + 1][..i] == spine[..i] && p[..i + 1][..i] == p[..i];
      r := WithChild(spine[i], p[i], r);
    }
  }

  // ---- lookup laws ----

  lemma LookupSame(es: seq<Entry>, key: string, x: Value)
    ensures Lookup(WithEntry(es, key, x), key) == Some(x)
  {
    FindIs(WithEntry(es, key, x), key, Find(es, key));
  }

  lemma {:induction false} LookupOther(es: seq<Entry>, key: string, x: Value, other: string)
    requires other != key
    ensures Lookup(WithEntry(es, key, x), other) == Lookup(es, other)
  {
    var r := WithEntry(es, key, x);
    var i, j := Find(es, other), Find(r, other);
    if i < |es| {
      assert r[i] == es[i];
      assert j == i;
    } else {
      assert forall k :: 0 <= k < |r| ==> r[k].key != other;
    }
  }

  lemma KidsWithItem(items: seq<Value>, i: nat, x: Value)
    requires i < |items|
    ensures Kids(Arr(items[i := x])) == Kids(Arr(items))[i := Entry(Show(i), x)]
  {
  }

  /** Whether writing child `key` takes effect: always on a mapping, on an array for an index in range. */
  predicate Settable(v: Value, key: string) {
    v.Arr? ==> Child(v, key).Some?
  }

  lemma ChildOfWithChild(v: Value, key: string, x: Value, other: string)
    requires Container(v) && Settable(v, key)
    ensures Child(WithChild(v, key, x), other) == if other == key then Some(x) else Child(v, other)
  {
    match v
    case Obj(entries) =>
      if other == key { LookupSame(entries, key, x); } else { LookupOther(entries, key, x, other); }
    case Arr(items) =>
      var i := Find(Kids(v), key);
      KidsWithItem(items, i, x);
      assert Kids(WithChild(v, key, x)) == WithEntry(Kids(v), key, x);
      if other == key { LookupSame(Kids(v), key, x); } else { LookupOther(Kids(v), key, x, other); }
  }

  /** Neither path leads through the other. */
  predicate Diverge(p: Path, q: Path) {
    !(p <= q) && !(q <= p)
  }

  /** No write at `p` runs into an array at a key that is not one of its indices. */
  predicate PutOk(v: Value, p: Path) {
    p != [] && Container(v) ==>
      && Settable(v, p[0])
      && (Child(v, p[0]).Some? ==> PutOk(Child(v, p[0]).value, p[1..]))
  }

  lemma GetPutStep(v: Value, p: Path, x: Value, q: Path)
    requires PutOk(v, p) && p != [] && q != []
    ensures Get(Put(v, p, x), q) == if q[0] == p[0] then Get(Put(Below(v, p[0]), p[1..], x), q[1..]) else Get(v, q)
  {
    hide WithChild, Kids, Lookup;
    ChildOfWithChild(AsContainer(v), p[0], Put(Below(v, p[0]), p[1..], x), q[0]);
    ChildlessLookup(v, q[0]);
  }

  lemma ChildlessLookup(v: Value, key: string)
    ensures Child(AsContainer(v), key) == Child(v, key)
  {
  }

  lemma PutOkBelow(v: Value, p: Path)
    requires PutOk(v, p) && p != []
    ensures PutOk(Below(v, p[0]), p[1..])
  {
  }

  lemma {:induction false} GetPut(v: Value, p: Path, x: Value)
    requires PutOk(v, p)
    ensures Get(Put(v, p, x), p) == Some(x)
    decreases |p|
  {
    if p != [] {
      GetPutStep(v, p, x, p);
      PutOkBelow(v, p);
      GetPut(Below(v, p[0]), p[1..], x);
    }
  }

  lemma {:induction false} GetPutElsewhere(v: Value, p: Path, x: Value, q: Path)
    requires PutOk(v, p) && Diverge(p, q)
    ensures Get(Put(v, p, x), q) == Get(v, q)
    decreases |p|
  {
    hide Put, PutOk;
    GetPutStep(v, p, x, q);
    if q[0] == p[0] {
      assert p == [p[0]] + p[1..] && q == [q[0]] + q[1..];
      PutOkBelow(v, p);
      GetPutElsewhere(Below(v, p[0]), p[1..], x, q[1..]);
    }
  }

  lemma {:induction false} GetAlong(v: Value, p: Path, q: Path)
    ensures Get(v, p + q) == match Get(v, p) case None => None case Some(w) => Get(w, q)
    decreases |p|
  {
    if p == [] {
      assert p + q == q;
    } else {
      assert (p + q)[1..] == p[1..] + q;
      if Child(v, p[0]).Some? { GetAlong(Child(v, p[0]).value, p[1..], q); }
    }
  }

  lemma {:induction false} PresentPutOk(v: Value, p: Path)
    requires Get(v, p).Some?
    ensures PutOk(v, p)
    decreases |p|
  {
    if p != [] { PresentPutOk(Child(v, p[0]).value, p[1..]); }
  }

  lemma {:induction false} WellFormedPut(v: Value, p: Path, x: Value)
    requires WellFormed(v) && WellFormed(x)
    ensures WellFormed(Put(v, p, x))
    decreases |p|
  {
    if p != [] {
      KidsUnique(v);
      WellFormedPut(Below(v, p[0]), p[1..], x);
    }
  }

  lemma {:induction false} WellFormedGet(v: Value, p: Path)
    requires WellFormed(v) && Get(v, p).Some?
    ensures WellFormed(Get(v, p).value)
    decreases |p|
  {
    if p != [] {
      KidsUnique(v);
      WellFormedGet(Child(v, p[0]).value, p[1..]);
    }
  }
}
