/** The cached field values agree with the documents, over every run of edits. */
module ConfigAgreement {
  import opened Options
  import opened ConfigTree
  import opened ConfigListing
  import opened ConfigEditor

  /** Fields have distinct ids, named paths without array indices, and none lies on the way to another. */
  predicate TableOk(fields: seq<Field>) {
    && (forall f :: f in fields ==> f.path != [] && forall k :: 0 <= k < |f.path| ==> !IsNumeral(f.path[k]))
    && (forall i, j :: 0 <= i < j < |fields| ==>
          fields[i].id != fields[j].id && (fields[i].doc == fields[j].doc ==> Diverge(fields[i].path, fields[j].path)))
  }

  predicate FieldAgrees(s: Editor, f: Field) {
    f.id in s.values && Get(Doc(s, f.doc), f.path) == Some(s.values[f.id])
  }

  predicate Agrees(setup: Setup, s: Editor) {
    forall f :: f in setup.fields ==> FieldAgrees(s, f)
  }

  /** The deletion removes the field or a node above it. */
  predicate Hits(op: Op, f: Field) {
    op.Delete? && op.doc == f.doc && op.path <= f.path
  }

  predicate HitsAField(setup: Setup, op: Op) {
    exists f :: f in setup.fields && Hits(op, f)
  }

  // ---- the shipped table ----

  lemma DivergeAt(p: Path, q: Path, k: nat)
    requires k < |p| && k < |q| && p[k] != q[k]
    ensures Diverge(p, q)
  {
  }

  predicate NameLike(path: Path) {
    path != [] && forall k :: 0 <= k < |path| ==> path[k] != "" && 'a' <= path[k][0] <= 'z'
  }

  lemma ShippedPaths(i: nat)
    requires i < |FIELDS|
    ensures NameLike(FIELDS[i].path)
  {
  }

  /** The position at which two shipped fields' paths part. */
  function PartsAt(i: nat, j: nat): nat {
    if i < 4 && j < 7 && !(j < 4) then 0 else if i < 7 then 1 else 2
  }

  lemma ShippedPair(i: nat, j: nat)
    requires i < j < |FIELDS|
    ensures FIELDS[i].id != FIELDS[j].id
    ensures FIELDS[i].doc == FIELDS[j].doc ==> Diverge(FIELDS[i].path, FIELDS[j].path)
  {
    if FIELDS[i].doc == FIELDS[j].doc {
      DivergeAt(FIELDS[i].path, FIELDS[j].path, PartsAt(i, j));
    }
  }

  lemma ShippedTableOk()
    ensures TableOk(FIELDS)
  {
    forall f | f in FIELDS ensures f.path != [] && forall k :: 0 <= k < |f.path| ==> !IsNumeral(f.path[k]) {
      var i :| 0 <= i < |FIELDS| && FIELDS[i] == f;
      ShippedPaths(i);
    }
    forall i, j | 0 <= i < j < |FIELDS|
      ensures FIELDS[i].id != FIELDS[j].id && (FIELDS[i].doc == FIELDS[j].doc ==> Diverge(FIELDS[i].path, FIELDS[j].path))
    {
      ShippedPair(i, j);
    }
  }

  // ---- one edit, one field ----

  lemma FieldsApart(fields: seq<Field>, f: Field, g: Field)
    requires TableOk(fields) && f in fields && g in fields && f != g
    ensures f.id != g.id && (f.doc == g.doc ==> Diverge(f.path, g.path))
  {
    var i :| 0 <= i < |fields| && fields[i] == f;
    var j :| 0 <= j < |fields| && fields[j] == g;
    assert i < j || j < i;
  }

  /** Changing what is at `q` changes what is at `p` only when `p` leads through `q`. */
  lemma GetAfterPut(v: Value, q: Path, x: Value, p: Path)
    requires Get(v, q).Some? && !(p <= q && p != q)
    ensures Get(Put(v, q, x), p) == if q <= p then Get(x, p[|q|..]) else Get(v, p)
  {
    PresentPutOk(v, q);
    if q <= p {
      assert p == q + p[|q|..];
      GetPut(v, q, x);
      GetAlong(Put(v, q, x), q, p[|q|..]);
    } else {
      GetPutElsewhere(v, q, x, p);
    }
  }

  lemma GetThrough(v: Value, q: Path, p: Path)
    requires q <= p
    ensures Get(v, p) == match Get(v, q) case None => None case Some(w) => Get(w, p[|q|..])
  {
    assert p == q + p[|q|..];
    GetAlong(v, q, p[|q|..]);
  }

  /** Nothing lies below a childless value. */
  lemma NothingBelowLeaf(v: Value, p: Path, q: Path)
    requires p <= q && p != q && Get(v, p).Some? && !Container(Get(v, p).value)
    ensures Get(v, q) == None
  {
    GetThrough(v, p, q);
  }

  lemma ArrayKeysAreNumerals(v: Value, i: nat)
    requires v.Arr? && i < |Kids(v)|
    ensures IsNumeral(Kids(v)[i].key)
  {
  }

  lemma NoNameInArray(v: Value, rest: Path)
    requires v.Arr? && rest != [] && !IsNumeral(rest[0])
    ensures Get(v, rest) == None
  {
    hide IsNumeral, Kids;
    var i := Find(Kids(v), rest[0]);
    if i < |Kids(v)| { ArrayKeysAreNumerals(v, i); }
  }

  /** A field's value, found in a document by name only, is not inside an array and has nothing below it. */
  lemma ArrayOffField(v: Value, q: Path, p: Path)
    requires Get(v, q).Some? && Get(v, q).value.Arr?
    requires Get(v, p).Some? && Primitive(Get(v, p).value)
    requires forall k :: 0 <= k < |p| ==> !IsNumeral(p[k])
    ensures Diverge(q, p)
  {
    if q <= p {
      GetThrough(v, q, p);
      if p != q { NoNameInArray(Get(v, q).value, p[|q|..]); }
    } else if p <= q {
      NothingBelowLeaf(v, p, q);
    }
  }

  lemma ArrayEditKeepsField(v: Value, q: Path, x: Value, p: Path)
    requires Get(v, q).Some? && Get(v, q).value.Arr?
    requires Get(v, p).Some? && Primitive(Get(v, p).value)
    requires forall k :: 0 <= k < |p| ==> !IsNumeral(p[k])
    ensures Get(Put(v, q, x), p) == Get(v, p)
  {
    ArrayOffField(v, q, p);
    GetAfterPut(v, q, x, p);
  }

  lemma LeafEditKeepsField(v: Value, q: Path, x: Value, p: Path)
    requires Get(v, q).Some? && Primitive(Get(v, q).value) && p != q
    requires Get(v, p).Some? && Primitive(Get(v, p).value)
    ensures Get(Put(v, q, x), p) == Get(v, p)
  {
    if q <= p { NothingBelowLeaf(v, q, p); }
    if p <= q { NothingBelowLeaf(v, p, q); }
    GetAfterPut(v, q, x, p);
  }

  lemma AddKeepsField(v: Value, q: Path, key: string, x: Value, p: Path)
    requires Get(v, q).Some? && Get(v, q).value.Obj? && Child(Get(v, q).value, key).None?
    requires Get(v, p).Some? && Primitive(Get(v, p).value)
    ensures Get(Put(v, q, Obj(Get(v, q).value.entries + [Entry(key, x)])), p) == Get(v, p)
  {
    var target := Get(v, q).value;
    var target' := Obj(target.entries + [Entry(key, x)]);
    if p <= q && p != q { NothingBelowLeaf(v, p, q); }
    GetAfterPut(v, q, target', p);
    if q <= p {
      GetThrough(v, q, p);
      assert p != q;
      assert target' == WithChild(target, key, x);
      ChildOfWithChild(target, key, x, p[|q|]);
    }
  }

  lemma FindWithout(es: seq<Entry>, i: nat, other: string)
    requires UniqueKeys(es) && i < |es|
    ensures var rest := es[..i] + es[i + 1..]; var j := Find(es, other);
            Find(rest, other) == if other == es[i].key then |rest| else if j <= i then j else j - 1
  {
    var rest := es[..i] + es[i + 1..];
    var j := Find(es, other);
    assert forall k :: 0 <= k < |rest| ==> rest[k] == es[if k < i then k else k + 1];
    if other == es[i].key {
      FindIs(rest, other, |rest|);
    } else {
      FindIs(rest, other, if j <= i then j else j - 1);
    }
  }

  lemma ChildWithout(v: Value, i: nat, other: string)
    requires v.Obj? && UniqueKeys(v.entries) && i < |v.entries|
    ensures Child(WithoutKid(v, i), other) == if other == v.entries[i].key then None else Child(v, other)
  {
    hide UniqueKeys, Find;
    FindWithout(v.entries, i, other);
    FindSome(v.entries, other);
  }

  lemma FindSome(es: seq<Entry>, key: string)
    ensures Find(es, key) <= |es|
  {
  }

  lemma GetWithout(v: Value, i: nat, rest: Path)
    requires v.Obj? && UniqueKeys(v.entries) && i < |v.entries| && rest != []
    ensures Get(WithoutKid(v, i), rest) == if rest[0] == v.entries[i].key then None else Get(v, rest)
  {
    ChildWithout(v, i, rest[0]);
  }

  lemma PrefixOfLonger(q: Path, key: string, p: Path)
    ensures q + [key] <= p <==> q <= p && |p| > |q| && p[|q|] == key
  {
  }

  /** A mapping entry removed takes with it exactly what its path leads to. */
  lemma RemoveFromObject(v: Value, q: Path, i: nat, p: Path)
    requires WellFormed(v) && Get(v, q).Some? && Get(v, q).value.Obj? && i < |Get(v, q).value.entries|
    requires Get(v, p).Some? && Primitive(Get(v, p).value)
    ensures Get(Removed(v, q, i), p) ==
            if q + [Get(v, q).value.entries[i].key] <= p then None else Get(v, p)
  {
    var target := Get(v, q).value;
    WellFormedGet(v, q);
    PrefixOfLonger(q, target.entries[i].key, p);
    if p <= q && p != q { NothingBelowLeaf(v, p, q); }
    hide Put, Get, WellFormed;
    GetAfterPut(v, q, WithoutKid(target, i), p);
    if q <= p {
      GetThrough(v, q, p);
      assert p != q;
      GetWithout(target, i, p[|q|..]);
    }
  }

  // ---- one edit, all fields ----

  lemma SetFieldKeepsOther(setup: Setup, s: Editor, f: Field, x: Value, g: Field)
    requires TableOk(setup.fields) && f in setup.fields && g in setup.fields && f != g
    requires FieldAgrees(s, g) && PutOk(Doc(s, f.doc), f.path)
    ensures FieldAgrees(SetFieldTo(s, f, x), g)
  {
    hide Put, Get, PutOk, TableOk, Diverge;
    FieldsApart(setup.fields, f, g);
    if g.doc == f.doc { GetPutElsewhere(Doc(s, f.doc), f.path, x, g.path); }
  }

  lemma SetFieldAgrees(setup: Setup, s: Editor, f: Field, x: Value)
    requires TableOk(setup.fields) && Agrees(setup, s) && f in setup.fields
    ensures Agrees(setup, SetFieldTo(s, f, x))
  {
    PresentPutOk(Doc(s, f.doc), f.path);
    GetPut(Doc(s, f.doc), f.path, x);
    hide Put, Get, PutOk, TableOk;
    forall g | g in setup.fields ensures FieldAgrees(SetFieldTo(s, f, x), g) {
      assert FieldAgrees(s, f) && FieldAgrees(s, g);
      if g != f { SetFieldKeepsOther(setup, s, f, x, g); }
    }
  }

  predicate ArrayOp(op: Op) {
    op.Append? || op.Insert? || op.Move? || op.SetArray?
  }

  lemma OtherEditAgrees(setup: Setup, s: Editor, op: Op, f: Field)
    requires TableOk(setup.fields) && Typed(setup, s.values) && f in setup.fields && FieldAgrees(s, f)
    requires ArrayOp(op) || op.Add? || (op.SetValue? && SafeField(setup.fields, op.doc, op.path).None?)
    requires Edited(setup, s, op).Ok?
    ensures FieldAgrees(Edited(setup, s, op).value.state, f)
  {
    hide Put, Get, EditedItems, ParseNew, ParseLike;
    if f.doc == op.doc {
      var v := Doc(s, op.doc);
      var target := Get(v, op.path).value;
      if ArrayOp(op) {
        ArrayEditKeepsField(v, op.path, Arr(EditedItems(setup, target.items, op).value.0), f.path);
      } else if op.Add? {
        AddKeepsField(v, op.path, setup.trim(op.key), ParseNew(setup, op.raw).value, f.path);
      } else {
        LeafEditKeepsField(v, op.path, ParseLike(setup, op.raw, target).value, f.path);
      }
    }
  }

  /** A deletion keeps a field in agreement exactly when it does not hit it. */
  lemma DeleteAgrees(setup: Setup, s: Editor, op: Op, f: Field)
    requires TableOk(setup.fields) && Typed(setup, s.values) && DocsWellFormed(s) && f in setup.fields && FieldAgrees(s, f)
    requires op.Delete? && Edited(setup, s, op).Ok?
    ensures FieldAgrees(Edited(setup, s, op).value.state, f) <==> !Hits(op, f)
  {
    hide Put, Get;
    if f.doc == op.doc {
      var v := Doc(s, op.doc);
      var n := |op.path| - 1;
      var parent := op.path[..n];
      assert op.path == parent + [op.path[n]];
      var target := Get(v, parent).value;
      var i := Position(setup, target, op.path[n]).value;
      if target.Arr? {
        ArrayEditKeepsField(v, parent, WithoutKid(target, i), f.path);
        ArrayOffField(v, parent, f.path);
        assert op.path <= f.path ==> parent <= f.path;
      } else {
        RemoveFromObject(v, parent, i, f.path);
      }
    }
  }

  lemma FieldEditAgrees(setup: Setup, s: Editor, op: Op, id: string)
    requires TableOk(setup.fields) && Typed(setup, s.values) && Agrees(setup, s)
    requires Edited(setup, s, op).Ok?
    requires || (op.SetField? && op.id == id) || (op.Toggle? && op.id == id)
             || (op.SetValue? && SafeField(setup.fields, op.doc, op.path).Some?
                 && SafeField(setup.fields, op.doc, op.path).value.id == id)
    ensures Agrees(setup, Edited(setup, s, op).value.state)
  {
    hide Put, Get, Agrees, TableOk, ParseField;
    SetFieldAgrees(setup, s, FieldById(setup.fields, id).value, Edited(setup, s, op).value.value);
  }

  /** Every edit but a delete that hits a field keeps the cache and the documents in agreement. */
  lemma EditKeepsAgreement(setup: Setup, s: Editor, op: Op)
    requires TableOk(setup.fields) && Typed(setup, s.values) && DocsWellFormed(s) && Agrees(setup, s)
    requires Edited(setup, s, op).Ok?
    ensures Agrees(setup, Edited(setup, s, op).value.state) <==> !HitsAField(setup, op)
  {
    hide Edited, TableOk, Typed, FieldAgrees, DocsWellFormed, SafeField;
    var s' := Edited(setup, s, op).value.state;
    if op.SetField? || op.Toggle? {
      FieldEditAgrees(setup, s, op, op.id);
    } else if op.SetValue? && SafeField(setup.fields, op.doc, op.path).Some? {
      FieldEditAgrees(setup, s, op, SafeField(setup.fields, op.doc, op.path).value.id);
    } else {
      forall f | f in setup.fields ensures FieldAgrees(s', f) <==> !Hits(op, f) {
        if op.Delete? { DeleteAgrees(setup, s, op, f); } else { OtherEditAgrees(setup, s, op, f); }
      }
    }
  }

  // ---- well-formed documents ----

  lemma WellFormedItems(setup: Setup, items: seq<Value>, op: Op)
    requires ArrayOp(op) && WellFormed(Arr(items)) && EditedItems(setup, items, op).Ok?
    ensures WellFormed(Arr(EditedItems(setup, items, op).value.0))
  {
  }

  lemma WellFormedWithoutKid(v: Value, i: nat)
    requires WellFormed(v) && i < |Kids(v)|
    ensures WellFormed(WithoutKid(v, i))
  {
  }

  lemma EditKeepsWellFormed(setup: Setup, s: Editor, op: Op)
    requires Typed(setup, s.values) && DocsWellFormed(s) && Edited(setup, s, op).Ok?
    ensures DocsWellFormed(Edited(setup, s, op).value.state)
    decreases op.SetValue?
  {
    hide Put, Get, EditedItems;
    match op {
      case SetField(id, _) =>
        var f := FieldById(setup.fields, id).value;
        WellFormedPut(Doc(s, f.doc), f.path, Edited(setup, s, op).value.value);
      case Toggle(id) =>
        var f := FieldById(setup.fields, id).value;
        WellFormedPut(Doc(s, f.doc), f.path, Edited(setup, s, op).value.value);
      case SetValue(doc, path, raw) =>
        var f := SafeField(setup.fields, doc, path);
        if f.Some? {
          EditKeepsWellFormed(setup, s, SetField(f.value.id, raw));
        } else {
          WellFormedPut(Doc(s, doc), path, Edited(setup, s, op).value.value);
        }
      case Add(doc, path, key, raw) =>
        var target := Get(Doc(s, doc), path).value;
        WellFormedGet(Doc(s, doc), path);
        var x := ParseNew(setup, raw).value;
        assert WithChild(target, setup.trim(key), x) == Obj(target.entries + [Entry(setup.trim(key), x)]);
        WellFormedPut(Doc(s, doc), path, Obj(target.entries + [Entry(setup.trim(key), x)]));
      case Delete(doc, path) =>
        var parent := path[..|path| - 1];
        var target := Get(Doc(s, doc), parent).value;
        var i := Position(setup, target, path[|path| - 1]).value;
        WellFormedGet(Doc(s, doc), parent);
        WellFormedWithoutKid(target, i);
        WellFormedPut(Doc(s, doc), parent, WithoutKid(target, i));
      case _ =>
        var target := Get(Doc(s, op.doc), op.path).value;
        WellFormedGet(Doc(s, op.doc), op.path);
        WellFormedItems(setup, target.items, op);
        WellFormedPut(Doc(s, op.doc), op.path, Arr(EditedItems(setup, target.items, op).value.0));
    }
  }

  // ---- runs ----

  /** The editor after a run; an operation that throws changes nothing. */
  function Ran(setup: Setup, s: Editor, ops: seq<Op>): (r: Editor)
    requires Typed(setup, s.values)
    ensures Typed(setup, r.values)
    decreases |ops|
  {
    if ops == [] then s else
    var r := Edited(setup, s, ops[0]);
    Ran(setup, if r.Ok? then r.value.state else s, ops[1..])
  }

  /** In every run without a delete that hits a field, the cache shows what the documents hold. */
  lemma {:induction false} AgreementOverRuns(setup: Setup, s: Editor, ops: seq<Op>)
    requires TableOk(setup.fields) && Typed(setup, s.values) && DocsWellFormed(s) && Agrees(setup, s)
    requires forall i :: 0 <= i < |ops| ==> !HitsAField(setup, ops[i])
    ensures Agrees(setup, Ran(setup, s, ops)) && DocsWellFormed(Ran(setup, s, ops))
    decreases |ops|
  {
    if ops != [] {
      var r := Edited(setup, s, ops[0]);
      if r.Ok? {
        EditKeepsAgreement(setup, s, ops[0]);
        EditKeepsWellFormed(setup, s, ops[0]);
      }
      AgreementOverRuns(setup, if r.Ok? then r.value.state else s, ops[1..]);
    }
  }

  // ---- moving ----

  lemma WithoutInserted(rest: seq<Value>, i: nat, x: Value)
    requires i <= |rest|
    ensures Without(Inserted(rest, i, x), i) == rest && Inserted(rest, i, x)[i] == x
  {
  }

  lemma InsertedWithout(items: seq<Value>, i: nat)
    requires i < |items|
    ensures Inserted(Without(items, i), i, items[i]) == items
  {
  }

  lemma InsertedCounts(rest: seq<Value>, i: nat, x: Value)
    requires i <= |rest|
    ensures multiset(Inserted(rest, i, x)) == multiset(rest) + multiset{x}
  {
    assert rest == rest[..i] + rest[i..];
  }

  /** A move permutes the items, keeps the order of the others, and the reverse move undoes it. */
  lemma MoveUndone(items: seq<Value>, from: nat, to: nat)
    requires from < |items| && to < |items|
    ensures Moved(Moved(items, from, to), to, from) == items
    ensures multiset(Moved(items, from, to)) == multiset(items)
    ensures Without(Moved(items, from, to), to) == Without(items, from) && Moved(items, from, to)[to] == items[from]
  {
    var rest := Without(items, from);
    assert |rest| == |items| - 1;
    hide Inserted, Without;
    WithoutInserted(rest, to, items[from]);
    InsertedWithout(items, from);
    InsertedCounts(rest, to, items[from]);
    InsertedCounts(rest, from, items[from]);
  }

  // ---- what was written is read back ----

  /** Where an operation writes the value it returns. */
  function WrittenAt(setup: Setup, s: Editor, op: Op): Path
    requires Typed(setup, s.values) && Edited(setup, s, op).Ok?
    requires !op.Move? && !op.SetArray? && !op.Delete?
  {
    match op
    case SetField(id, _) => FieldById(setup.fields, id).value.path
    case Toggle(id) => FieldById(setup.fields, id).value.path
    case SetValue(doc, path, _) =>
      var f := SafeField(setup.fields, doc, path);
      if f.Some? then f.value.path else path
    case Add(_, path, key, _) => path + [setup.trim(key)]
    case Append(doc, path, _) => path + [Show(|Get(Doc(s, doc), path).value.items|)]
    case Insert(_, path, index, _) => path + [Show(index)]
  }

  function WrittenIn(setup: Setup, s: Editor, op: Op): DocId
    requires Typed(setup, s.values) && Edited(setup, s, op).Ok?
  {
    match op
    case SetField(id, _) => FieldById(setup.fields, id).value.doc
    case Toggle(id) => FieldById(setup.fields, id).value.doc
    case _ => op.doc
  }

  lemma ItemOf(items: seq<Value>, i: nat)
    requires i < |items|
    ensures Child(Arr(items), Show(i)) == Some(items[i])
  {
    forall j | 0 <= j < i ensures Show(j) != Show(i) {
      ReadOfShow(i);
      ReadOfShow(j);
    }
    FindIs(Kids(Arr(items)), Show(i), i);
  }

  lemma GetInContainer(v: Value, q: Path, x: Value, key: string)
    requires Get(v, q).Some?
    ensures Get(Put(v, q, x), q + [key]) == Child(x, key)
  {
    PresentPutOk(v, q);
    GetPut(v, q, x);
    GetAlong(Put(v, q, x), q, [key]);
    assert [key][1..] == [];
  }

  lemma FieldReadBack(s: Editor, f: Field, x: Value)
    requires FieldAgrees(s, f)
    ensures Get(Doc(SetFieldTo(s, f, x), f.doc), f.path) == Some(x)
  {
    PresentPutOk(Doc(s, f.doc), f.path);
    GetPut(Doc(s, f.doc), f.path, x);
  }

  lemma SafeFieldReadBack(setup: Setup, s: Editor, op: Op)
    requires TableOk(setup.fields) && Typed(setup, s.values) && Agrees(setup, s) && Edited(setup, s, op).Ok?
    requires op.SetField? || op.Toggle? || (op.SetValue? && SafeField(setup.fields, op.doc, op.path).Some?)
    ensures Get(Doc(Edited(setup, s, op).value.state, WrittenIn(setup, s, op)), WrittenAt(setup, s, op))
         == Some(Edited(setup, s, op).value.value)
  {
    hide Put, Get, ParseField;
    if op.SetValue? {
      var f := SafeField(setup.fields, op.doc, op.path).value;
      var g := FieldById(setup.fields, f.id).value;
      if f != g { FieldsApart(setup.fields, f, g); }
      FieldReadBack(s, f, Edited(setup, s, op).value.value);
    } else {
      FieldReadBack(s, FieldById(setup.fields, op.id).value, Edited(setup, s, op).value.value);
    }
  }

  /** Looking up the place an operation writes to gives the value it returned. */
  lemma EditReadBack(setup: Setup, s: Editor, op: Op)
    requires TableOk(setup.fields) && Typed(setup, s.values) && Agrees(setup, s) && Edited(setup, s, op).Ok?
    requires !op.Move? && !op.SetArray? && !op.Delete?
    ensures Get(Doc(Edited(setup, s, op).value.state, WrittenIn(setup, s, op)), WrittenAt(setup, s, op))
         == Some(Edited(setup, s, op).value.value)
  {
    hide Put, Get, TableOk, Agrees, ParseNew, ParseLike, ParseField;
    if op.SetField? || op.Toggle? || (op.SetValue? && SafeField(setup.fields, op.doc, op.path).Some?) {
      SafeFieldReadBack(setup, s, op);
    } else {
      var v := Doc(s, op.doc);
      var target := Get(v, op.path).value;
      var x := Edited(setup, s, op).value.value;
      match op
      case SetValue(_, path, _) =>
        PresentPutOk(v, path);
        GetPut(v, path, x);
      case Add(_, path, key, _) =>
        GetInContainer(v, path, Obj(target.entries + [Entry(setup.trim(key), x)]), setup.trim(key));
        LookupSame(target.entries, setup.trim(key), x);
        assert WithEntry(target.entries, setup.trim(key), x) == target.entries + [Entry(setup.trim(key), x)];
      case Append(_, path, _) =>
        GetInContainer(v, path, Arr(target.items + [x]), Show(|target.items|));
        ItemOf(target.items + [x], |target.items|);
      case Insert(_, path, index, _) =>
        GetInContainer(v, path, Arr(Inserted(target.items, index, x)), Show(index));
        ItemOf(Inserted(target.items, index, x), index);
    }
  }

  /** An operation on a path leaves everything beside that path alone, in both documents. */
  lemma EditIsLocal(setup: Setup, s: Editor, op: Op, doc: DocId, q: Path)
    requires Typed(setup, s.values) && Edited(setup, s, op).Ok?
    requires ArrayOp(op) || op.Add? || (op.SetValue? && SafeField(setup.fields, op.doc, op.path).None?)
    requires doc == op.doc ==> Diverge(op.path, q)
    ensures Get(Doc(Edited(setup, s, op).value.state, doc), q) == Get(Doc(s, doc), q)
    ensures Edited(setup, s, op).value.state.values == s.values
  {
    hide Put, Get, EditedItems, ParseNew, ParseLike;
    if doc == op.doc {
      var v := Doc(s, op.doc);
      var target := Get(v, op.path).value;
      if ArrayOp(op) {
        GetAfterPut(v, op.path, Arr(EditedItems(setup, target.items, op).value.0), q);
      } else if op.Add? {
        GetAfterPut(v, op.path, Obj(target.entries + [Entry(setup.trim(op.key), ParseNew(setup, op.raw).value)]), q);
      } else {
        GetAfterPut(v, op.path, ParseLike(setup, op.raw, target).value, q);
      }
    }
  }
}
