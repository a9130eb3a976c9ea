/**
 The Molecule type language, its values, the encoding of a value, and which
 byte strings the readers accept, stated over byte strings alone.
 */
module MolSchema {
  import opened Octet
  import opened Seqs
  import opened MolLayout

  datatype Schema =
    | Fixed(size: nat)
    | FixVec(itemSize: nat)
    | DynVec(item: Schema)
    | Opt(item: Schema)
    | Table(fields: seq<Schema>)

  /** Types whose encoding is never the empty string, so an option of them is unambiguous. */
  predicate NeverEmpty(s: Schema) {
    match s
    case Fixed(size) => size > 0
    case Opt(_) => false
    case _ => true
  }

  predicate WellFormed(s: Schema) {
    match s
    case Fixed(_) => true
    case FixVec(itemSize) => itemSize > 0
    case DynVec(item) => WellFormed(item)
    case Opt(item) => WellFormed(item) && NeverEmpty(item)
    case Table(fields) => fields != [] && forall i :: 0 <= i < |fields| ==> WellFormed(fields[i])
  }

  datatype Value =
    | Raw(bytes: seq<byte>)
    | Chunks(chunks: seq<seq<byte>>)
    | Items(items: seq<Value>)
    | Missing
    | Present(value: Value)
    | Fields(fields: seq<Value>)

  predicate HasType(s: Schema, v: Value) {
    match s
    case Fixed(size) => v.Raw? && |v.bytes| == size
    case FixVec(itemSize) => v.Chunks? && forall i :: 0 <= i < |v.chunks| ==> |v.chunks[i]| == itemSize
    case DynVec(item) => v.Items? && forall i :: 0 <= i < |v.items| ==> HasType(item, v.items[i])
    case Opt(item) => v.Missing? || (v.Present? && HasType(item, v.value))
    case Table(fields) =>
      && v.Fields? && |v.fields| == |fields|
      && forall i :: 0 <= i < |fields| ==> HasType(fields[i], v.fields[i])
  }

  function Encode(s: Schema, v: Value): seq<byte>
    requires HasType(s, v)
  {
    match s
    case Fixed(_) => v.bytes
    case FixVec(_) => Pack(|v.chunks|) + Flatten(v.chunks)
    case DynVec(item) => Layout(EncodeItems(item, v.items))
    case Opt(item) => if v.Missing? then [] else Encode(item, v.value)
    case Table(fields) => Layout(EncodeFields(fields, v.fields))
  }

  function EncodeItems(item: Schema, vs: seq<Value>): (parts: seq<seq<byte>>)
    requires forall i :: 0 <= i < |vs| ==> HasType(item, vs[i])
    ensures |parts| == |vs|
  {
    seq(|vs|, i requires 0 <= i < |vs| => Encode(item, vs[i]))
  }

  function EncodeFields(fields: seq<Schema>, vs: seq<Value>): (parts: seq<seq<byte>>)
    requires |vs| == |fields| && forall i :: 0 <= i < |fields| ==> HasType(fields[i], vs[i])
    ensures |parts| == |vs|
  {
    seq(|vs|, i requires 0 <= i < |vs| => Encode(fields[i], vs[i]))
  }

  /** What a reader accepts; `compatible` tolerates table fields after the known ones. */
  predicate Valid(s: Schema, b: seq<byte>, compatible: bool) {
    match s
    case Fixed(size) => |b| == size
    case FixVec(itemSize) => |b| >= NUM_SIZE && |b| == NUM_SIZE + itemSize * Num(b, 0)
    case DynVec(item) =>
      || b == Pack(NUM_SIZE)
      || (LayoutOk(b) && forall i :: 0 <= i < Count(b) ==> Valid(item, Part(b, i), compatible))
    case Opt(item) => b == [] || Valid(item, b, compatible)
    case Table(fields) =>
      && LayoutOk(b)
      && (if compatible then Count(b) >= |fields| else Count(b) == |fields|)
      && forall i :: 0 <= i < |fields| ==> Valid(fields[i], Part(b, i), compatible)
  }

  /** `n` consecutive pieces of length `k`. */
  function Chunk(b: seq<byte>, k: nat, n: nat): (chunks: seq<seq<byte>>)
    requires |b| == k * n
    ensures |chunks| == n
    ensures forall i :: 0 <= i < n ==> |chunks[i]| == k
  {
    if n == 0 then [] else
    assert k * n == k + k * (n - 1);
    [b[..k]] + Chunk(b[k..], k, n - 1)
  }

  /** The value a reader finds in accepted bytes: the known fields only. */
  function Decode(s: Schema, b: seq<byte>, compatible: bool): (v: Value)
    requires Valid(s, b, compatible)
  {
    match s
    case Fixed(_) => Raw(b)
    case FixVec(itemSize) => Chunks(Chunk(b[NUM_SIZE..], itemSize, Num(b, 0)))
    case DynVec(item) =>
      if b == Pack(NUM_SIZE) then Items([])
      else Items(seq(Count(b), i requires 0 <= i < Count(b) => Decode(item, Part(b, i), compatible)))
    case Opt(item) => if b == [] then Missing else Present(Decode(item, b, compatible))
    case Table(fields) =>
      Fields(seq(|fields|, i requires 0 <= i < |fields| => Decode(fields[i], Part(b, i), compatible)))
  }
}
