/**
 The devnet config editor: two documents, a table of safe fields and a cache
 of their values, kept in agreement by every operation except a delete that
 removes a field.
 */
module ConfigEditor {
  import opened Options
  import opened ConfigTree
  import opened ConfigListing

  datatype DocId = Ckb | Miner

  datatype FieldType = StringField | NumberField | BooleanField

  datatype Field = Field(id: string, doc: DocId, ty: FieldType, path: Path)

  const FIELDS: seq<Field> := [
    Field("ckb.logger.filter", Ckb, StringField, ["logger", "filter"]),
    Field("ckb.logger.color", Ckb, BooleanField, ["logger", "color"]),
    Field("ckb.logger.log_to_file", Ckb, BooleanField, ["logger", "log_to_file"]),
    Field("ckb.logger.log_to_stdout", Ckb, BooleanField, ["logger", "log_to_stdout"]),
    Field("ckb.rpc.listen_address", Ckb, StringField, ["rpc", "listen_address"]),
    Field("ckb.rpc.max_request_body_size", Ckb, NumberField, ["rpc", "max_request_body_size"]),
    Field("ckb.rpc.enable_deprecated_rpc", Ckb, BooleanField, ["rpc", "enable_deprecated_rpc"]),
    Field("miner.client.rpc_url", Miner, StringField, ["miner", "client", "rpc_url"]),
    Field("miner.client.block_on_submit", Miner, BooleanField, ["miner", "client", "block_on_submit"]),
    Field("miner.client.poll_interval", Miner, NumberField, ["miner", "client", "poll_interval"])
  ]

  /** The field table with the text parsers: `number` has no value for text that is no finite number. */
  datatype Setup = Setup(
    fields: seq<Field>,
    trim: string -> string,
    number: string -> Option<real>,
    flag: string -> Option<bool>,
    hostPort: string -> bool,
    httpUrl: string -> bool)

  datatype EditError =
    | UnknownField | NotBoolean | BadText | BadNumber | BadFlag
    | RootPath | NotPrimitive | NotObject | NotArray | KeyTaken | BadIndex | NoSuchKey | NotDeletable

  datatype Editor = Editor(values: map<string, Value>, ckb: Value, miner: Value)

  datatype Edit = Edit(state: Editor, value: Value)

  datatype Op =
    | SetField(id: string, raw: string)
    | Toggle(id: string)
    | SetValue(doc: DocId, path: Path, raw: string)
    | Add(doc: DocId, path: Path, key: string, raw: string)
    | Append(doc: DocId, path: Path, raw: string)
    | Insert(doc: DocId, path: Path, index: int, raw: string)
    | Move(doc: DocId, path: Path, from: int, to: int)
    | SetArray(doc: DocId, path: Path, texts: seq<string>)
    | Delete(doc: DocId, path: Path)

  function Doc(s: Editor, doc: DocId): Value {
    if doc == Ckb then s.ckb else s.miner
  }

  function WithDoc(s: Editor, doc: DocId, v: Value): Editor {
    if doc == Ckb then s.(ckb := v) else s.(miner := v)
  }

  // ---- field lookup ----

  /** A path as one dotted text, which is how the safe-field table is keyed. */
  function Joined(path: Path): string {
    if path == [] then [] else if |path| == 1 then path[0] else path[0] + "." + Joined(path[1..])
  }

  function FieldById(fields: seq<Field>, id: string): (r: Option<Field>)
    ensures r.Some? ==> r.value in fields && r.value.id == id
    ensures r.None? ==> forall f :: f in fields ==> f.id != id
  {
    if fields == [] then None
    else if fields[0].id == id then Some(fields[0])
    else FieldById(fields[1..], id)
  }

  function SafeField(fields: seq<Field>, doc: DocId, path: Path): (r: Option<Field>)
    ensures r.Some? ==> r.value in fields && r.value.doc == doc && Joined(r.value.path) == Joined(path)
    ensures r.None? ==> forall f :: f in fields && f.doc == doc ==> Joined(f.path) != Joined(path)
  {
    if fields == [] then None
    else if fields[0].doc == doc && Joined(fields[0].path) == Joined(path) then Some(fields[0])
    else SafeField(fields[1..], doc, path)
  }

  // ---- parsing input ----

  predicate Primitive(v: Value) {
    v.Str? || v.Num? || v.Bool?
  }

  predicate OfType(v: Value, ty: FieldType) {
    match ty
    case StringField => v.Str?
    case NumberField => v.Num?
    case BooleanField => v.Bool?
  }

  function ParseField(setup: Setup, f: Field, raw: string): (r: Result<Value, EditError>)
    ensures r.Ok? ==> OfType(r.value, f.ty)
  {
    var text := setup.trim(raw);
    match f.ty
    case StringField =>
      if text == "" then Err(BadText)
      else if f.id == "ckb.rpc.listen_address" && !setup.hostPort(text) then Err(BadText)
      else if f.id == "miner.client.rpc_url" && !setup.httpUrl(text) then Err(BadText)
      else Ok(Str(text))
    case NumberField =>
      var n := setup.number(text);
      if n.Some? && PositiveInteger(n.value) then Ok(Num(n.value)) else Err(BadNumber)
    case BooleanField =>
      var b := setup.flag(text);
      if b.Some? then Ok(Bool(b.value)) else Err(BadFlag)
  }

  /** Which texts a safe field takes, and as what. */
  lemma FieldTexts(setup: Setup, f: Field, raw: string)
    ensures var r, text := ParseField(setup, f, raw), setup.trim(raw);
            match f.ty
            case NumberField =>
              && (r.Ok? <==> setup.number(text).Some? && PositiveInteger(setup.number(text).value))
              && (r.Ok? ==> PositiveInteger(r.value.number) && setup.number(text) == Some(r.value.number))
            case StringField =>
              && (r.Ok? <==> text != "" && (f.id == "ckb.rpc.listen_address" ==> setup.hostPort(text))
                             && (f.id == "miner.client.rpc_url" ==> setup.httpUrl(text)))
              && (r.Ok? ==> r.value.text == text)
            case BooleanField => r.Ok? ==> setup.flag(text) == Some(r.value.flag)
  {
  }

  function ParseLike(setup: Setup, raw: string, existing: Value): (r: Result<Value, EditError>)
    ensures r.Ok? ==> Primitive(r.value)
  {
    match existing
    case Bool(_) =>
      var b := setup.flag(raw);
      if b.Some? then Ok(Bool(b.value)) else Err(BadFlag)
    case Num(_) =>
      var n := setup.number(setup.trim(raw));
      if n.Some? then Ok(Num(n.value)) else Err(BadNumber)
    case _ =>
      if setup.trim(raw) == "" then Err(BadText) else Ok(Str(setup.trim(raw)))
  }

  function ParseNew(setup: Setup, raw: string): (r: Result<Value, EditError>)
    ensures r.Ok? ==> Primitive(r.value)
  {
    var text := setup.trim(raw);
    if text == "" then Err(BadText)
    else if setup.flag(text).Some? then Ok(Bool(setup.flag(text).value))
    else if setup.number(text).Some? then Ok(Num(setup.number(text).value))
    else Ok(Str(text))
  }

  // ---- what each operation does ----

  function Inserted(items: seq<Value>, i: nat, x: Value): seq<Value>
    requires i <= |items|
  {
    items[..i] + [x] + items[i..]
  }

  function Without(items: seq<Value>, i: nat): seq<Value>
    requires i < |items|
  {
    items[..i] + items[i + 1..]
  }

  function Moved(items: seq<Value>, from: nat, to: nat): (r: seq<Value>)
    requires from < |items| && to < |items|
    ensures |r| == |items|
  {
    Inserted(Without(items, from), to, items[from])
  }

  function Strings(texts: seq<string>): seq<Value> {
    seq(|texts|, i requires 0 <= i < |texts| => Str(texts[i]))
  }

  /** Every field has a cached value of its type. */
  predicate Typed(setup: Setup, values: map<string, Value>) {
    forall f :: f in setup.fields ==> f.id in values && OfType(values[f.id], f.ty)
  }

  predicate DocsWellFormed(s: Editor) {
    WellFormed(s.ckb) && WellFormed(s.miner)
  }

  function SetFieldTo(s: Editor, f: Field, x: Value): Editor {
    WithDoc(s.(values := s.values[f.id := x]), f.doc, Put(Doc(s, f.doc), f.path, x))
  }

  /** The position a deletion names: in an array any text that reads as an index in range. */
  function Position(setup: Setup, v: Value, key: string): Result<nat, EditError> {
    match v
    case Arr(items) =>
      var n := setup.number(key);
      if n.Some? && n.value == n.value.Floor as real && 0 <= n.value.Floor < |items| then Ok(n.value.Floor) else Err(BadIndex)
    case Obj(entries) => if Find(entries, key) < |entries| then Ok(Find(entries, key)) else Err(NoSuchKey)
    case _ => Err(NotDeletable)
  }

  function EditedField(setup: Setup, s: Editor, id: string, raw: string): Result<Edit, EditError> {
    var f := FieldById(setup.fields, id);
    if f.None? then Err(UnknownField) else
    var x := ParseField(setup, f.value, raw);
    if x.Err? then Err(x.error) else Ok(Edit(SetFieldTo(s, f.value, x.value), x.value))
  }

  /** What an operation on the array at `path` does to its items. */
  function EditedItems(setup: Setup, items: seq<Value>, op: Op): Result<(seq<Value>, Value), EditError>
    requires op.Append? || op.Insert? || op.Move? || op.SetArray?
  {
    match op
    case Append(_, _, raw) =>
      var x := ParseNew(setup, raw);
      if x.Err? then Err(x.error) else Ok((items + [x.value], x.value))
    case Insert(_, _, i, raw) =>
      if !(0 <= i <= |items|) then Err(BadIndex) else
      var x := ParseNew(setup, raw);
      if x.Err? then Err(x.error) else Ok((Inserted(items, i, x.value), x.value))
    case Move(_, _, from, to) =>
      if 0 <= from < |items| && 0 <= to < |items| then Ok((Moved(items, from, to), Null)) else Err(BadIndex)
    case SetArray(_, _, texts) => Ok((Strings(texts), Null))
  }

  function Edited(setup: Setup, s: Editor, op: Op): (r: Result<Edit, EditError>)
    requires Typed(setup, s.values)
    ensures r.Ok? ==> Typed(setup, r.value.state.values)
  {
    match op
    case SetField(id, raw) => EditedField(setup, s, id, raw)
    case Toggle(id) =>
      var f := FieldById(setup.fields, id);
      if f.None? then Err(UnknownField)
      else if f.value.ty != BooleanField then Err(NotBoolean)
      else var x := Bool(!s.values[id].flag); Ok(Edit(SetFieldTo(s, f.value, x), x))
    case SetValue(doc, path, raw) =>
      if path == [] then Err(RootPath) else
      var f := SafeField(setup.fields, doc, path);
      if f.Some? then EditedField(setup, s, f.value.id, raw) else
      var current := Get(Doc(s, doc), path);
      if current.None? || !Primitive(current.value) then Err(NotPrimitive) else
      var x := ParseLike(setup, raw, current.value);
      if x.Err? then Err(x.error) else Ok(Edit(WithDoc(s, doc, Put(Doc(s, doc), path, x.value)), x.value))
    case Add(doc, path, key, raw) =>
      var target := Get(Doc(s, doc), path);
      if target.None? || !target.value.Obj? then Err(NotObject) else
      var k := setup.trim(key);
      if k == "" then Err(BadText)
      else if Child(target.value, k).Some? then Err(KeyTaken) else
      var x := ParseNew(setup, raw);
      if x.Err? then Err(x.error)
      else Ok(Edit(WithDoc(s, doc, Put(Doc(s, doc), path, Obj(target.value.entries + [Entry(k, x.value)]))), x.value))
    case Delete(doc, path) =>
      if path == [] then Err(RootPath) else
      var parent := path[..|path| - 1];
      var target := Get(Doc(s, doc), parent);
      if target.None? then Err(NotDeletable) else
      var i := Position(setup, target.value, path[|path| - 1]);
      if i.Err? then Err(i.error) else Ok(Edit(WithDoc(s, doc, Removed(Doc(s, doc), parent, i.value)), Null))
    case _ =>
      var target := Get(Doc(s, op.doc), op.path);
      if target.None? || !target.value.Arr? then Err(NotArray) else
      var r := EditedItems(setup, target.value.items, op);
      if r.Err? then Err(r.error)
      else Ok(Edit(WithDoc(s, op.doc, Put(Doc(s, op.doc), op.path, Arr(r.value.0))), r.value.1))
  }
}
