/** The editor object, each operation proved against its specification. */
module DevnetEditor {
  import opened Options
  import opened ConfigTree
  import opened ConfigListing
  import opened ConfigEditor
  import opened ConfigAgreement
  import opened ConfigEffects

  datatype Layout = Fits | MissingField(id: string) | WrongType(id: string)

  /** What the editor says of a document that lacks a field or has another type there. */
  function FieldLayout(f: Field, ckb: Value, miner: Value): (r: Layout)
    ensures var v := Get(if f.doc == Ckb then ckb else miner, f.path);
            && (r == Fits <==> v.Some? && match f.ty
                                          case StringField => v.value.Str?
                                          case NumberField => v.value.Num?
                                          case BooleanField => v.value.Bool?)
            && (r.MissingField? <==> v.None? || v.value == Null)
            && (r == Fits || r.id == f.id)
  {
    var v := Get(if f.doc == Ckb then ckb else miner, f.path);
    if v.None? || v.value == Null then MissingField(f.id)
    else if !OfType(v.value, f.ty) then WrongType(f.id)
    else Fits
  }

  class DevnetConfigEditor {
    const setup: Setup
    var values: map<string, Value>
    var ckb: Value
    var miner: Value

    function State(): Editor
      reads this
    {
      Editor(values, ckb, miner)
    }

    ghost predicate Valid()
      reads this
    {
      TableOk(setup.fields) && Typed(setup, values) && WellFormed(ckb) && WellFormed(miner)
    }

    /** Outcome `r` and the present state are what the operation makes of state `before`. */
    ghost predicate Did(before: Editor, op: Op, r: Result<Value, EditError>)
      requires Typed(setup, before.values)
      reads this
    {
      match Edited(setup, before, op)
      case Ok(e) => State() == e.state && r == Ok(e.value)
      case Err(error) => State() == before && r == Err(error)
    }

    constructor Empty(setup: Setup, ckb: Value, miner: Value)
      ensures this.setup == setup && State() == Editor(map[], ckb, miner)
    {
      this.setup, this.values, this.ckb, this.miner := setup, map[], ckb, miner;
    }

    /** Reads every field of the table from the documents, failing at the first that does not fit. */
    method Load() returns (r: Layout)
      requires TableOk(setup.fields) && WellFormed(ckb) && WellFormed(miner)
      modifies this`values
      ensures r == Fits ==> Valid() && Agrees(setup, State())
      ensures r == Fits <==> forall f :: f in setup.fields ==> FieldLayout(f, ckb, miner) == Fits
      ensures r != Fits ==>
              exists i :: 0 <= i < |setup.fields| && r == FieldLayout(setup.fields[i], ckb, miner)
                          && forall j :: 0 <= j < i ==> FieldLayout(setup.fields[j], ckb, miner) == Fits
    {
      hide FieldLayout, OfType, Get, TableOk, WellFormed;
      values := map[];
      var i := 0;
      while i < |setup.fields|
        invariant 0 <= i <= |setup.fields| && ckb == old(ckb) && miner == old(miner)
        invariant forall j :: 0 <= j < i ==> FieldLayout(setup.fields[j], ckb, miner) == Fits
        invariant forall j :: 0 <= j < i ==>
            FieldAgrees(State(), setup.fields[j]) && OfType(values[setup.fields[j].id], setup.fields[j].ty)
      {
        var f := setup.fields[i];
        var v;
        r, v := ReadField(f);
        if r != Fits {
          assert f in setup.fields;
          return;
        }
        AddValue(setup, State(), i, v);
        values := values[f.id := v];
        i := i + 1;
      }
      return Fits;
    }

    method ReadField(f: Field) returns (r: Layout, v: Value)
      ensures r == FieldLayout(f, ckb, miner)
      ensures r == Fits ==> Get(Doc(State(), f.doc), f.path) == Some(v) && OfType(v, f.ty)
    {
      var found := GetByPath(if f.doc == Ckb then ckb else miner, f.path);
      if found.None? || found.value == Null { return MissingField(f.id), Null; }
      if !OfType(found.value, f.ty) { return WrongType(f.id), Null; }
      return Fits, found.value;
    }

    method Write(doc: DocId, path: Path, x: Value)
      modifies this
      ensures State() == if path == [] then old(State()) else WithDoc(old(State()), doc, Put(Doc(old(State()), doc), path, x))
    {
      if doc == Ckb {
        ckb := SetByPath(ckb, path, x);
      } else {
        miner := SetByPath(miner, path, x);
      }
    }

    /** In-place change of the container that `path` looks up, the root included. */
    method Replace(doc: DocId, path: Path, x: Value)
      modifies this
      ensures State() == WithDoc(old(State()), doc, Put(Doc(old(State()), doc), path, x))
    {
      if path == [] {
        if doc == Ckb { ckb := x; } else { miner := x; }
      } else {
        Write(doc, path, x);
      }
    }

    method SetFieldValue(id: string, raw: string) returns (r: Result<Value, EditError>)
      requires Valid()
      modifies this
      ensures Valid() && Did(old(State()), SetField(id, raw), r)
      ensures Effect(setup, old(State()), SetField(id, raw), State(), r)
    {
      hide Effect;
      ghost var before := State();
      EditHasEffect(setup, before, SetField(id, raw));
      var f := FieldById(setup.fields, id);
      if f.None? { return Err(UnknownField); }
      var x := ParseField(setup, f.value, raw);
      if x.Err? { return Err(x.error); }
      EditKeepsWellFormed(setup, before, SetField(id, raw));
      values := values[f.value.id := x.value];
      Write(f.value.doc, f.value.path, x.value);
      return Ok(x.value);
    }

    method ToggleBooleanField(id: string) returns (r: Result<Value, EditError>)
      requires Valid()
      modifies this
      ensures Valid() && Did(old(State()), Toggle(id), r)
      ensures Effect(setup, old(State()), Toggle(id), State(), r)
    {
      hide Effect;
      ghost var before := State();
      EditHasEffect(setup, before, Toggle(id));
      var f := FieldById(setup.fields, id);
      if f.None? { return Err(UnknownField); }
      if f.value.ty != BooleanField { return Err(NotBoolean); }
      EditKeepsWellFormed(setup, before, Toggle(id));
      var next := Bool(!values[id].flag);
      values := values[id := next];
      Write(f.value.doc, f.value.path, next);
      return Ok(next);
    }

    method SetDocumentValue(doc: DocId, path: Path, raw: string) returns (r: Result<Value, EditError>)
      requires Valid()
      modifies this
      ensures Valid() && Did(old(State()), SetValue(doc, path, raw), r)
      ensures Effect(setup, old(State()), SetValue(doc, path, raw), State(), r)
    {
      hide Effect;
      ghost var before := State();
      EditHasEffect(setup, before, SetValue(doc, path, raw));
      if path == [] { return Err(RootPath); }
      var f := SafeField(setup.fields, doc, path);
      if f.Some? {
        r := SetFieldValue(f.value.id, raw);
        return;
      }
      var current := GetByPath(Doc(State(), doc), path);
      if current.None? || !Primitive(current.value) { return Err(NotPrimitive); }
      var x := ParseLike(setup, raw, current.value);
      if x.Err? { return Err(x.error); }
      EditKeepsWellFormed(setup, before, SetValue(doc, path, raw));
      Write(doc, path, x.value);
      return Ok(x.value);
    }

    method AddObjectEntry(doc: DocId, path: Path, key: string, raw: string) returns (r: Result<Value, EditError>)
      requires Valid()
      modifies this
      ensures Valid() && Did(old(State()), Add(doc, path, key, raw), r)
      ensures Effect(setup, old(State()), Add(doc, path, key, raw), State(), r)
    {
      hide Effect;
      ghost var before := State();
      EditHasEffect(setup, before, Add(doc, path, key, raw));
      var target := GetByPath(Doc(State(), doc), path);
      if target.None? || !target.value.Obj? { return Err(NotObject); }
      var k := setup.trim(key);
      if k == "" { return Err(BadText); }
      if Child(target.value, k).Some? { return Err(KeyTaken); }
      var x := ParseNew(setup, raw);
      if x.Err? { return Err(x.error); }
      EditKeepsWellFormed(setup, before, Add(doc, path, key, raw));
      Replace(doc, path, Obj(target.value.entries + [Entry(k, x.value)]));
      return Ok(x.value);
    }

    method AppendArrayEntry(doc: DocId, path: Path, raw: string) returns (r: Result<Value, EditError>)
      requires Valid()
      modifies this
      ensures Valid() && Did(old(State()), Append(doc, path, raw), r)
      ensures Effect(setup, old(State()), Append(doc, path, raw), State(), r)
    {
      hide Effect;
      ghost var before := State();
      EditHasEffect(setup, before, Append(doc, path, raw));
      var target := GetByPath(Doc(State(), doc), path);
      if target.None? || !target.value.Arr? { return Err(NotArray); }
      var x := ParseNew(setup, raw);
      if x.Err? { return Err(x.error); }
      EditKeepsWellFormed(setup, before, Append(doc, path, raw));
      Replace(doc, path, Arr(target.value.items + [x.value]));
      return Ok(x.value);
    }

    method InsertArrayEntry(doc: DocId, path: Path, index: int, raw: string) returns (r: Result<Value, EditError>)
      requires Valid()
      modifies this
      ensures Valid() && Did(old(State()), Insert(doc, path, index, raw), r)
      ensures Effect(setup, old(State()), Insert(doc, path, index, raw), State(), r)
    {
      hide Effect;
      ghost var before := State();
      EditHasEffect(setup, before, Insert(doc, path, index, raw));
      var target := GetByPath(Doc(State(), doc), path);
      if target.None? || !target.value.Arr? { return Err(NotArray); }
      var items := target.value.items;
      if index < 0 || index > |items| { return Err(BadIndex); }
      var x := ParseNew(setup, raw);
      if x.Err? { return Err(x.error); }
      EditKeepsWellFormed(setup, before, Insert(doc, path, index, raw));
      Replace(doc, path, Arr(items[..index] + [x.value] + items[index..]));
      return Ok(x.value);
    }

    method MoveArrayEntry(doc: DocId, path: Path, from: int, to: int) returns (r: Result<Value, EditError>)
      requires Valid()
      modifies this
      ensures Valid() && Did(old(State()), Move(doc, path, from, to), r)
      ensures Effect(setup, old(State()), Move(doc, path, from, to), State(), r)
    {
      hide Effect;
      ghost var before := State();
      EditHasEffect(setup, before, Move(doc, path, from, to));
      var target := GetByPath(Doc(State(), doc), path);
      if target.None? || !target.value.Arr? { return Err(NotArray); }
      var items := target.value.items;
      if from < 0 || from >= |items| { return Err(BadIndex); }
      if to < 0 || to >= |items| { return Err(BadIndex); }
      EditKeepsWellFormed(setup, before, Move(doc, path, from, to));
      if from == to {
        NothingMoved(Doc(before, doc), path, from);
        return Ok(Null);
      }
      var rest := items[..from] + items[from + 1..];
      Replace(doc, path, Arr(rest[..to] + [items[from]] + rest[to..]));
      return Ok(Null);
    }

    method SetArrayValues(doc: DocId, path: Path, texts: seq<string>) returns (r: Result<Value, EditError>)
      requires Valid()
      modifies this
      ensures Valid() && Did(old(State()), SetArray(doc, path, texts), r)
      ensures Effect(setup, old(State()), SetArray(doc, path, texts), State(), r)
    {
      hide Effect;
      ghost var before := State();
      EditHasEffect(setup, before, SetArray(doc, path, texts));
      var target := GetByPath(Doc(State(), doc), path);
      if target.None? || !target.value.Arr? { return Err(NotArray); }
      EditKeepsWellFormed(setup, before, SetArray(doc, path, texts));
      Replace(doc, path, Arr(Strings(texts)));
      return Ok(Null);
    }

    method DeleteDocumentPath(doc: DocId, path: Path) returns (r: Result<Value, EditError>)
      requires Valid()
      modifies this
      ensures Valid() && Did(old(State()), Delete(doc, path), r)
      ensures Effect(setup, old(State()), Delete(doc, path), State(), r)
    {
      hide Effect;
      ghost var before := State();
      EditHasEffect(setup, before, Delete(doc, path));
      if path == [] { return Err(RootPath); }
      var parentPath, key := path[..|path| - 1], path[|path| - 1];
      var parent := GetByPath(Doc(State(), doc), parentPath);
      if parent.None? { return Err(NotDeletable); }
      var i := Position(setup, parent.value, key);
      if i.Err? { return Err(i.error); }
      EditKeepsWellFormed(setup, before, Delete(doc, path));
      Replace(doc, parentPath, WithoutKid(parent.value, i.value));
      return Ok(Null);
    }
  }

  lemma {:induction false} PutSame(v: Value, p: Path)
    requires WellFormed(v) && Get(v, p).Some?
    ensures Put(v, p, Get(v, p).value) == v
    decreases |p|
  {
    if p != [] {
      KidsUnique(v);
      PutSame(Below(v, p[0]), p[1..]);
    }
  }

  lemma NothingMoved(v: Value, p: Path, i: nat)
    requires WellFormed(v) && Get(v, p).Some? && Get(v, p).value.Arr? && i < |Get(v, p).value.items|
    ensures Put(v, p, Arr(Moved(Get(v, p).value.items, i, i))) == v
  {
    InsertedWithout(Get(v, p).value.items, i);
    PutSame(v, p);
  }

  /** Caching one more field leaves the cached values of the earlier ones alone. */
  lemma AddValue(setup: Setup, s: Editor, i: nat, v: Value)
    requires TableOk(setup.fields) && i < |setup.fields|
    requires forall j :: 0 <= j < i ==> FieldAgrees(s, setup.fields[j]) && OfType(s.values[setup.fields[j].id], setup.fields[j].ty)
    ensures var s' := s.(values := s.values[setup.fields[i].id := v]);
            forall j :: 0 <= j < i ==> FieldAgrees(s', setup.fields[j]) && OfType(s'.values[setup.fields[j].id], setup.fields[j].ty)
  {
    assert forall j :: 0 <= j < i ==> setup.fields[j].id != setup.fields[i].id;
  }
}
