/**
 What each operation of the editor takes and what it leaves behind, told by
 the texts' readings, by lookups and by positions.
 */
module ConfigEffects {
  import opened Options
  import opened ConfigTree
  import opened ConfigListing
  import opened ConfigEditor
  import opened ConfigAgreement

  // ---- what a text reads as ----

  /** A safe field takes the text as `x`. */
  predicate FieldReads(setup: Setup, f: Field, raw: string, x: Value) {
    var text := setup.trim(raw);
    match f.ty
    case StringField =>
      && x == Str(text) && text != ""
      && (f.id == "ckb.rpc.listen_address" ==> setup.hostPort(text))
      && (f.id == "miner.client.rpc_url" ==> setup.httpUrl(text))
    case NumberField => x.Num? && setup.number(text) == Some(x.number) && PositiveInteger(x.number)
    case BooleanField => x.Bool? && setup.flag(text) == Some(x.flag)
  }

  /** In place of `current`, a primitive, the text is `x`, of the same kind. */
  predicate LikeReads(setup: Setup, current: Value, raw: string, x: Value) {
    match current
    case Bool(_) => x.Bool? && setup.flag(raw) == Some(x.flag)
    case Num(_) => x.Num? && setup.number(setup.trim(raw)) == Some(x.number)
    case Str(_) => x == Str(setup.trim(raw)) && x.text != ""
    case _ => false
  }

  /** As a new value the text is `x`: a flag before a number before plain text. */
  predicate NewReads(setup: Setup, raw: string, x: Value) {
    var text := setup.trim(raw);
    && text != ""
    && match x
       case Bool(b) => setup.flag(text) == Some(b)
       case Num(n) => setup.flag(text).None? && setup.number(text) == Some(n)
       case Str(t) => setup.flag(text).None? && setup.number(text).None? && t == text
       case _ => false
  }

  predicate FieldTakes(setup: Setup, id: string, raw: string, x: Value) {
    exists f :: f in setup.fields && f.id == id && FieldReads(setup, f, raw, x)
  }

  /** The operation has the value `x` to write or to return. */
  ghost predicate Yields(setup: Setup, s: Editor, op: Op, x: Value) {
    match op
    case SetField(id, raw) => FieldTakes(setup, id, raw, x)
    case Toggle(id) =>
      exists f :: f in setup.fields && f.id == id && f.ty == BooleanField
                  && id in s.values && s.values[id].Bool? && x.Bool? && x.flag != s.values[id].flag
    case SetValue(doc, path, raw) =>
      match SafeField(setup.fields, doc, path) {
        case Some(f) => FieldTakes(setup, f.id, raw, x)
        case None => Get(Doc(s, doc), path).Some? && LikeReads(setup, Get(Doc(s, doc), path).value, raw, x)
      }
    case Add(_, _, _, raw) => NewReads(setup, raw, x)
    case Append(_, _, raw) => NewReads(setup, raw, x)
    case Insert(_, _, _, raw) => NewReads(setup, raw, x)
    case _ => x == Null
  }

  // ---- where an operation applies ----

  predicate HasKey(es: seq<Entry>, key: string) {
    exists i :: 0 <= i < |es| && es[i].key == key
  }

  /** A deletion under `key` takes the child at position `i`. */
  predicate Names(setup: Setup, v: Value, key: string, i: nat) {
    match v
    case Arr(items) => i < |items| && setup.number(key) == Some(i as real)
    case Obj(entries) => i < |entries| && entries[i].key == key
    case _ => false
  }

  ghost predicate HasChild(setup: Setup, v: Value, key: string) {
    exists i :: Names(setup, v, key, i)
  }

  function ParentOf(s: Editor, doc: DocId, path: Path): Option<Value>
    requires path != []
  {
    Get(Doc(s, doc), path[..|path| - 1])
  }

  predicate IsArray(v: Option<Value>) {
    v.Some? && v.value.Arr?
  }

  predicate IsObject(v: Option<Value>) {
    v.Some? && v.value.Obj?
  }

  /** The place an operation names exists and is of the right kind. */
  ghost predicate Applies(setup: Setup, s: Editor, op: Op) {
    match op
    case SetField(_, _) => true
    case Toggle(_) => true
    case SetValue(_, path, _) => path != []
    case Add(doc, path, key, _) =>
      var v := Get(Doc(s, doc), path);
      IsObject(v) && setup.trim(key) != "" && !HasKey(v.value.entries, setup.trim(key))
    case Append(doc, path, _) => IsArray(Get(Doc(s, doc), path))
    case Insert(doc, path, i, _) => IsArray(Get(Doc(s, doc), path)) && 0 <= i <= |Get(Doc(s, doc), path).value.items|
    case Move(doc, path, from, to) =>
      var v := Get(Doc(s, doc), path);
      IsArray(v) && 0 <= from < |v.value.items| && 0 <= to < |v.value.items|
    case SetArray(doc, path, _) => IsArray(Get(Doc(s, doc), path))
    case Delete(doc, path) =>
      && path != [] && ParentOf(s, doc, path).Some?
      && HasChild(setup, ParentOf(s, doc, path).value, path[|path| - 1])
  }

  /** What a refusal says of the operation is so. */
  ghost predicate Reason(setup: Setup, s: Editor, op: Op, error: EditError) {
    match error
    case RootPath => (op.SetValue? || op.Delete?) && op.path == []
    case UnknownField => (op.SetField? || op.Toggle?) && forall f :: f in setup.fields ==> f.id != op.id
    case NotBoolean => op.Toggle? && exists f :: f in setup.fields && f.id == op.id && f.ty != BooleanField
    case NotPrimitive =>
      op.SetValue? && !(Get(Doc(s, op.doc), op.path).Some? && Primitive(Get(Doc(s, op.doc), op.path).value))
    case NotObject => op.Add? && !IsObject(Get(Doc(s, op.doc), op.path))
    case NotArray => ArrayOp(op) && !IsArray(Get(Doc(s, op.doc), op.path))
    case KeyTaken =>
      op.Add? && IsObject(Get(Doc(s, op.doc), op.path))
      && HasKey(Get(Doc(s, op.doc), op.path).value.entries, setup.trim(op.key))
    case BadIndex =>
      || ((op.Insert? || op.Move?) && !Applies(setup, s, op))
      || (op.Delete? && op.path != [] && IsArray(ParentOf(s, op.doc, op.path)) && !Applies(setup, s, op))
    case NoSuchKey =>
      && op.Delete? && op.path != [] && IsObject(ParentOf(s, op.doc, op.path))
      && !HasKey(ParentOf(s, op.doc, op.path).value.entries, op.path[|op.path| - 1])
    case NotDeletable =>
      && op.Delete? && op.path != []
      && !IsArray(ParentOf(s, op.doc, op.path)) && !IsObject(ParentOf(s, op.doc, op.path))
    case _ => (op.Add? && setup.trim(op.key) == "") || forall x :: !Yields(setup, s, op, x)
  }

  // ---- what it leaves ----

  predicate InsertedAt<T(==)>(s: seq<T>, t: seq<T>, i: int, x: T) {
    && 0 <= i <= |s| && |t| == |s| + 1 && t[i] == x
    && (forall j :: 0 <= j < i ==> t[j] == s[j])
    && (forall j :: i < j < |t| ==> t[j] == s[j - 1])
  }

  predicate RemovedAt<T(==)>(s: seq<T>, t: seq<T>, i: int) {
    && 0 <= i < |s| && |t| == |s| - 1
    && (forall j :: 0 <= j < i ==> t[j] == s[j])
    && (forall j :: i <= j < |t| ==> t[j] == s[j + 1])
  }

  /** Where the item at `j` stands after the one at `from` has gone to `to`. */
  function PlaceAfter(from: int, to: int, j: int): int {
    if j == from then to else if from < j <= to then j - 1 else if to <= j < from then j + 1 else j
  }

  predicate MovedTo<T(==)>(s: seq<T>, t: seq<T>, from: int, to: int) {
    && 0 <= from < |s| && 0 <= to < |s| && |t| == |s|
    && (forall j :: 0 <= j < |s| ==> t[PlaceAfter(from, to, j)] == s[j])
  }

  /** Only the document `doc` may differ. */
  predicate OthersKept(before: Editor, doc: DocId, after: Editor) {
    if doc == Ckb then after.miner == before.miner else after.ckb == before.ckb
  }

  /** Nothing differs but what is at `path` and on the way to it. */
  ghost predicate BesideKept(before: Value, path: Path, after: Value) {
    forall q :: Diverge(path, q) ==> Get(after, q) == Get(before, q)
  }

  ghost predicate Local(before: Editor, doc: DocId, path: Path, after: Editor) {
    after.values == before.values && OthersKept(before, doc, after) && BesideKept(Doc(before, doc), path, Doc(after, doc))
  }

  /** Cache and document hold `x` for the field; a document with an array on the field's way stays as it is. */
  ghost predicate FieldLeft(before: Editor, f: Field, after: Editor, x: Value) {
    var v, v' := Doc(before, f.doc), Doc(after, f.doc);
    && after.values == before.values[f.id := x]
    && OthersKept(before, f.doc, after)
    && if PutOk(v, f.path) then Get(v', f.path) == Some(x) && BesideKept(v, f.path, v') else v' == v
  }

  ghost predicate IdLeft(setup: Setup, before: Editor, id: string, after: Editor, x: Value) {
    exists f :: f in setup.fields && f.id == id && FieldLeft(before, f, after, x)
  }

  ghost predicate ItemsLeft(setup: Setup, op: Op, items: seq<Value>, items': seq<Value>, x: Value)
    requires ArrayOp(op)
  {
    match op
    case Append(_, _, _) => InsertedAt(items, items', |items|, x)
    case Insert(_, _, i, _) => InsertedAt(items, items', i, x)
    case Move(_, _, from, to) => MovedTo(items, items', from, to)
    case SetArray(_, _, texts) => |items'| == |texts| && forall j :: 0 <= j < |texts| ==> items'[j] == Str(texts[j])
  }

  predicate KidGone(v: Value, w: Value, i: nat) {
    || (v.Arr? && w.Arr? && RemovedAt(v.items, w.items, i))
    || (v.Obj? && w.Obj? && RemovedAt(v.entries, w.entries, i))
  }

  /** `w` is `v` without the child that a deletion under `key` takes. */
  ghost predicate ChildTaken(setup: Setup, v: Value, key: string, w: Value) {
    exists i :: Names(setup, v, key, i) && KidGone(v, w, i)
  }

  ghost predicate Leaves(setup: Setup, before: Editor, op: Op, after: Editor, x: Value) {
    match op
    case SetField(id, _) => IdLeft(setup, before, id, after, x)
    case Toggle(id) => IdLeft(setup, before, id, after, x)
    case SetValue(doc, path, _) =>
      match SafeField(setup.fields, doc, path) {
        case Some(f) => IdLeft(setup, before, f.id, after, x)
        case None => Local(before, doc, path, after) && Get(Doc(after, doc), path) == Some(x)
      }
    case Add(doc, path, key, _) =>
      var v, w := Get(Doc(before, doc), path), Get(Doc(after, doc), path);
      && Local(before, doc, path, after)
      && IsObject(v) && IsObject(w) && InsertedAt(v.value.entries, w.value.entries, |v.value.entries|, Entry(setup.trim(key), x))
    case Delete(doc, path) =>
      && path != [] && Local(before, doc, path[..|path| - 1], after)
      && ParentOf(before, doc, path).Some? && ParentOf(after, doc, path).Some?
      && ChildTaken(setup, ParentOf(before, doc, path).value, path[|path| - 1], ParentOf(after, doc, path).value)
    case _ =>
      var v, w := Get(Doc(before, op.doc), op.path), Get(Doc(after, op.doc), op.path);
      && Local(before, op.doc, op.path, after)
      && IsArray(v) && IsArray(w) && ItemsLeft(setup, op, v.value.items, w.value.items, x)
  }

  /** An operation on `before` ends with `r` in `after`: done when it applies and has a value, else refused with nothing changed. */
  ghost predicate Effect(setup: Setup, before: Editor, op: Op, after: Editor, r: Result<Value, EditError>) {
    && (r.Ok? <==> Applies(setup, before, op) && exists x :: Yields(setup, before, op, x))
    && match r
       case Ok(x) => Yields(setup, before, op, x) && Leaves(setup, before, op, after, x)
       case Err(error) => after == before && Reason(setup, before, op, error)
  }

  ghost predicate EffectOf(setup: Setup, s: Editor, op: Op)
    requires Typed(setup, s.values)
  {
    match Edited(setup, s, op)
    case Ok(e) => Effect(setup, s, op, e.state, Ok(e.value))
    case Err(error) => Effect(setup, s, op, s, Err(error))
  }

  // ---- parsing reads the texts ----

  lemma FieldParsed(setup: Setup, f: Field, raw: string, x: Value)
    ensures FieldReads(setup, f, raw, x) <==> ParseField(setup, f, raw) == Ok(x)
    ensures ParseField(setup, f, raw).Err? ==> ParseField(setup, f, raw).error in {BadText, BadNumber, BadFlag}
  {
  }

  lemma LikeParsed(setup: Setup, current: Value, raw: string, x: Value)
    requires Primitive(current)
    ensures LikeReads(setup, current, raw, x) <==> ParseLike(setup, raw, current) == Ok(x)
    ensures ParseLike(setup, raw, current).Err? ==> ParseLike(setup, raw, current).error in {BadText, BadNumber, BadFlag}
  {
  }

  lemma NewParsed(setup: Setup, raw: string, x: Value)
    ensures NewReads(setup, raw, x) <==> ParseNew(setup, raw) == Ok(x)
    ensures ParseNew(setup, raw).Err? ==> ParseNew(setup, raw).error == BadText
  {
  }

  lemma SameField(fields: seq<Field>, f: Field, g: Field)
    requires TableOk(fields) && f in fields && g in fields && f.id == g.id
    ensures f == g
  {
    if f != g { FieldsApart(fields, f, g); }
  }

  // ---- writing ----

  lemma ChildAgain(v: Value, key: string, c: Value)
    requires Container(v) && (Child(v, key) == Some(c) || !Settable(v, key))
    ensures WithChild(v, key, c) == v
  {
    var i := Find(Kids(v), key);
    if v.Obj? && i < |v.entries| { assert v.entries[i] == Entry(key, c); }
  }

  lemma {:induction false} PutBlocked(v: Value, p: Path, x: Value)
    requires !PutOk(v, p)
    ensures Put(v, p, x) == v
    decreases |p|
  {
    hide WithChild, Child;
    var c := Child(v, p[0]);
    if c.Some? && !PutOk(c.value, p[1..]) {
      PutBlocked(c.value, p[1..], x);
      ChildAgain(v, p[0], c.value);
    } else {
      ChildAgain(v, p[0], Put(Below(v, p[0]), p[1..], x));
    }
  }

  lemma PresentLeft(v: Value, p: Path, x: Value)
    requires Get(v, p).Some?
    ensures Get(Put(v, p, x), p) == Some(x) && BesideKept(v, p, Put(v, p, x))
  {
    hide Get, Put, PutOk, Diverge;
    PresentPutOk(v, p);
    GetPut(v, p, x);
    forall q | Diverge(p, q) ensures Get(Put(v, p, x), q) == Get(v, q) { GetPutElsewhere(v, p, x, q); }
  }

  lemma DocLeft(s: Editor, doc: DocId, path: Path, x: Value)
    requires Get(Doc(s, doc), path).Some?
    ensures var s' := WithDoc(s, doc, Put(Doc(s, doc), path, x));
            Local(s, doc, path, s') && Get(Doc(s', doc), path) == Some(x)
  {
    hide Get, Put, BesideKept;
    PresentLeft(Doc(s, doc), path, x);
  }

  lemma FieldWritten(s: Editor, f: Field, x: Value)
    ensures FieldLeft(s, f, SetFieldTo(s, f, x), x)
  {
    hide Get, Put, PutOk, Diverge;
    var v := Doc(s, f.doc);
    if PutOk(v, f.path) {
      GetPut(v, f.path, x);
      forall q | Diverge(f.path, q) ensures Get(Put(v, f.path, x), q) == Get(v, q) { GetPutElsewhere(v, f.path, x, q); }
    } else {
      PutBlocked(v, f.path, x);
    }
  }

  // ---- the operations one by one ----

  lemma FieldEdited(setup: Setup, s: Editor, id: string, raw: string)
    requires TableOk(setup.fields)
    ensures match EditedField(setup, s, id, raw)
            case Ok(e) => FieldTakes(setup, id, raw, e.value) && IdLeft(setup, s, id, e.state, e.value)
            case Err(error) =>
              && (forall x :: !FieldTakes(setup, id, raw, x))
              && if exists f :: f in setup.fields && f.id == id then error in {BadText, BadNumber, BadFlag} else error == UnknownField
  {
    hide FieldReads, ParseField, FieldLeft, SetFieldTo, TableOk;
    var f := FieldById(setup.fields, id);
    if f.Some? {
      forall x ensures FieldTakes(setup, id, raw, x) <==> ParseField(setup, f.value, raw) == Ok(x) {
        FieldParsed(setup, f.value, raw, x);
        if FieldTakes(setup, id, raw, x) {
          var g :| g in setup.fields && g.id == id && FieldReads(setup, g, raw, x);
          SameField(setup.fields, f.value, g);
        }
      }
      FieldParsed(setup, f.value, raw, Null);
      if ParseField(setup, f.value, raw).Ok? { FieldWritten(s, f.value, ParseField(setup, f.value, raw).value); }
    }
  }

  lemma FieldYields(setup: Setup, s: Editor, op: Op, id: string, raw: string)
    requires op == SetField(id, raw)
             || (op.SetValue? && op.raw == raw && SafeField(setup.fields, op.doc, op.path).Some?
                 && SafeField(setup.fields, op.doc, op.path).value.id == id)
    ensures forall x :: Yields(setup, s, op, x) <==> FieldTakes(setup, id, raw, x)
  {
    hide FieldTakes, SafeField;
  }

  lemma SetFieldEffect(setup: Setup, s: Editor, id: string, raw: string)
    requires TableOk(setup.fields) && Typed(setup, s.values)
    ensures EffectOf(setup, s, SetField(id, raw))
  {
    hide FieldTakes, IdLeft, EditedField, Yields, TableOk, Typed;
    FieldEdited(setup, s, id, raw);
    FieldYields(setup, s, SetField(id, raw), id, raw);
  }

  lemma ToggleEffect(setup: Setup, s: Editor, id: string)
    requires TableOk(setup.fields) && Typed(setup, s.values)
    ensures EffectOf(setup, s, Toggle(id))
  {
    hide FieldLeft, SetFieldTo, TableOk;
    var op := Toggle(id);
    var f := FieldById(setup.fields, id);
    if f.Some? {
      forall g | g in setup.fields && g.id == id ensures g == f.value { SameField(setup.fields, f.value, g); }
      if f.value.ty == BooleanField {
        var x := Bool(!s.values[id].flag);
        FieldWritten(s, f.value, x);
        assert Yields(setup, s, op, x);
      }
    }
  }

  lemma SetSafeEffect(setup: Setup, s: Editor, doc: DocId, path: Path, raw: string)
    requires TableOk(setup.fields) && Typed(setup, s.values) && path != [] && SafeField(setup.fields, doc, path).Some?
    ensures EffectOf(setup, s, SetValue(doc, path, raw))
  {
    hide FieldTakes, IdLeft, EditedField, Yields, SafeField, TableOk, Typed;
    var id := SafeField(setup.fields, doc, path).value.id;
    FieldEdited(setup, s, id, raw);
    FieldYields(setup, s, SetValue(doc, path, raw), id, raw);
  }

  lemma SetPlainEffect(setup: Setup, s: Editor, doc: DocId, path: Path, raw: string)
    requires Typed(setup, s.values) && path != [] && SafeField(setup.fields, doc, path).None?
    ensures EffectOf(setup, s, SetValue(doc, path, raw))
  {
    hide LikeReads, ParseLike, Get, Put, Local, Typed;
    var op, current := SetValue(doc, path, raw), Get(Doc(s, doc), path);
    if current.Some? && Primitive(current.value) {
      forall x ensures Yields(setup, s, op, x) <==> ParseLike(setup, raw, current.value) == Ok(x) {
        LikeParsed(setup, current.value, raw, x);
      }
      LikeParsed(setup, current.value, raw, Null);
      if ParseLike(setup, raw, current.value).Ok? { DocLeft(s, doc, path, ParseLike(setup, raw, current.value).value); }
    } else {
      forall x ensures !Yields(setup, s, op, x) { NotLike(setup, s, doc, path, raw, x); }
    }
  }

  lemma NotLike(setup: Setup, s: Editor, doc: DocId, path: Path, raw: string, x: Value)
    requires SafeField(setup.fields, doc, path).None?
    requires !(Get(Doc(s, doc), path).Some? && Primitive(Get(Doc(s, doc), path).value))
    ensures !Yields(setup, s, SetValue(doc, path, raw), x)
  {
    hide Get;
  }

  lemma AddEffect(setup: Setup, s: Editor, doc: DocId, path: Path, key: string, raw: string)
    requires Typed(setup, s.values)
    ensures EffectOf(setup, s, Add(doc, path, key, raw))
  {
    hide NewReads, ParseNew, Get, Put, Local, Typed;
    var op, target := Add(doc, path, key, raw), Get(Doc(s, doc), path);
    forall x ensures Yields(setup, s, op, x) <==> ParseNew(setup, raw) == Ok(x) { NewParsed(setup, raw, x); }
    NewParsed(setup, raw, Null);
    if target.Some? && target.value.Obj? {
      var k := setup.trim(key);
      assert Child(target.value, k).Some? <==> HasKey(target.value.entries, k);
      if ParseNew(setup, raw).Ok? {
        DocLeft(s, doc, path, Obj(target.value.entries + [Entry(k, ParseNew(setup, raw).value)]));
      }
    }
  }

  lemma ItemsEdited(setup: Setup, items: seq<Value>, op: Op)
    requires ArrayOp(op)
    ensures match EditedItems(setup, items, op)
            case Ok(r) => ItemsLeft(setup, op, items, r.0, r.1)
            case Err(_) => true
  {
  }

  lemma ArrayEffect(setup: Setup, s: Editor, op: Op)
    requires Typed(setup, s.values) && ArrayOp(op)
    ensures EffectOf(setup, s, op)
  {
    hide NewReads, ParseNew, Get, Put, Local, Typed, ItemsLeft;
    var target := Get(Doc(s, op.doc), op.path);
    if op.Append? || op.Insert? {
      forall x ensures Yields(setup, s, op, x) <==> ParseNew(setup, op.raw) == Ok(x) { NewParsed(setup, op.raw, x); }
      NewParsed(setup, op.raw, Null);
    } else {
      assert Yields(setup, s, op, Null);
    }
    if target.Some? && target.value.Arr? {
      ItemsEdited(setup, target.value.items, op);
      var r := EditedItems(setup, target.value.items, op);
      if r.Ok? { DocLeft(s, op.doc, op.path, Arr(r.value.0)); }
    }
  }

  lemma PositionNamed(setup: Setup, v: Value, key: string)
    ensures match Position(setup, v, key)
            case Ok(i) => Names(setup, v, key, i)
            case Err(error) =>
              && !HasChild(setup, v, key)
              && error == if v.Arr? then BadIndex else if v.Obj? then NoSuchKey else NotDeletable
  {
  }

  lemma ChildGone(setup: Setup, v: Value, key: string, i: nat)
    requires Names(setup, v, key, i)
    ensures i < |Kids(v)| && ChildTaken(setup, v, key, WithoutKid(v, i))
  {
    assert KidGone(v, WithoutKid(v, i), i);
  }

  lemma NoChild(setup: Setup, v: Value, key: string)
    requires v.Obj? && !HasChild(setup, v, key)
    ensures !HasKey(v.entries, key)
  {
    if HasKey(v.entries, key) {
      var i :| 0 <= i < |v.entries| && v.entries[i].key == key;
      assert Names(setup, v, key, i);
    }
  }

  lemma DeleteEffect(setup: Setup, s: Editor, doc: DocId, path: Path)
    requires Typed(setup, s.values)
    ensures EffectOf(setup, s, Delete(doc, path))
  {
    hide Names, ChildTaken, HasKey, Position, Get, Put, Local, Typed, Kids;
    var op := Delete(doc, path);
    assert Yields(setup, s, op, Null);
    if path != [] && ParentOf(s, doc, path).Some? {
      var v, key := ParentOf(s, doc, path).value, path[|path| - 1];
      PositionNamed(setup, v, key);
      var i := Position(setup, v, key);
      if i.Ok? {
        ChildGone(setup, v, key, i.value);
        DocLeft(s, doc, path[..|path| - 1], WithoutKid(v, i.value));
      } else if v.Obj? {
        NoChild(setup, v, key);
      }
    }
  }

  /** Every operation does what `Effect` says, in every editor. */
  lemma EditHasEffect(setup: Setup, s: Editor, op: Op)
    requires TableOk(setup.fields) && Typed(setup, s.values)
    ensures EffectOf(setup, s, op)
  {
    hide EffectOf, TableOk, Typed;
    match op
    case SetField(id, raw) => SetFieldEffect(setup, s, id, raw);
    case Toggle(id) => ToggleEffect(setup, s, id);
    case SetValue(doc, path, raw) =>
      if path == [] {
        SetRootEffect(setup, s, doc, raw);
      } else if SafeField(setup.fields, doc, path).Some? {
        SetSafeEffect(setup, s, doc, path, raw);
      } else {
        SetPlainEffect(setup, s, doc, path, raw);
      }
    case Add(doc, path, key, raw) => AddEffect(setup, s, doc, path, key, raw);
    case Delete(doc, path) => DeleteEffect(setup, s, doc, path);
    case _ => ArrayEffect(setup, s, op);
  }

  lemma SetRootEffect(setup: Setup, s: Editor, doc: DocId, raw: string)
    requires Typed(setup, s.values)
    ensures EffectOf(setup, s, SetValue(doc, [], raw))
  {
  }
}
