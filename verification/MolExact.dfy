/**
 Strict acceptance is exactly the image of the encoder; compatible acceptance
 is a conservative extension of it.
 */
module MolExact {
  import opened Octet
  import opened Seqs
  import opened MolLayout
  import opened MolSchema

  // ---- fixed-size items ----

  lemma {:induction false} FlattenOfChunk(b: seq<byte>, k: nat, n: nat)
    requires |b| == k * n
    ensures Flatten(Chunk(b, k, n)) == b
  {
    if n > 0 {
      assert k * n == k + k * (n - 1);
      FlattenOfChunk(b[k..], k, n - 1);
    }
  }

  lemma {:induction false} ChunkOfFlatten(chunks: seq<seq<byte>>, k: nat)
    requires forall i :: 0 <= i < |chunks| ==> |chunks[i]| == k
    ensures |Flatten(chunks)| == k * |chunks| && Chunk(Flatten(chunks), k, |chunks|) == chunks
  {
    if chunks != [] {
      assert k * |chunks| == k + k * (|chunks| - 1);
      ChunkOfFlatten(chunks[1..], k);
      assert Flatten(chunks)[k..] == Flatten(chunks[1..]);
    }
  }

  // ---- decoding and encoding are inverse ----

  lemma {:induction false} DecodeHasType(s: Schema, b: seq<byte>, compatible: bool)
    requires Valid(s, b, compatible)
    ensures HasType(s, Decode(s, b, compatible))
  {
    match s
    case Fixed(_) =>
    case FixVec(_) =>
    case DynVec(item) =>
      if b != Pack(NUM_SIZE) {
        forall i | 0 <= i < Count(b) ensures HasType(item, Decode(item, Part(b, i), compatible)) {
          DecodeHasType(item, Part(b, i), compatible);
        }
      }
    case Opt(item) =>
      if b != [] { DecodeHasType(item, b, compatible); }
    case Table(fields) =>
      forall i | 0 <= i < |fields| ensures HasType(fields[i], Decode(fields[i], Part(b, i), compatible)) {
        DecodeHasType(fields[i], Part(b, i), compatible);
      }
  }

  lemma ReencodeItems(item: Schema, b: seq<byte>, vs: seq<Value>)
    requires LayoutOk(b) && |vs| == Count(b)
    requires forall i :: 0 <= i < |vs| ==> HasType(item, vs[i]) && Encode(item, vs[i]) == Part(b, i)
    ensures Layout(EncodeItems(item, vs)) == b
  {
    assert EncodeItems(item, vs) == Split(b);
    LayoutOfSplit(b);
  }

  lemma ReencodeFields(fields: seq<Schema>, b: seq<byte>, vs: seq<Value>)
    requires LayoutOk(b) && |vs| == Count(b) == |fields|
    requires forall i :: 0 <= i < |vs| ==> HasType(fields[i], vs[i]) && Encode(fields[i], vs[i]) == Part(b, i)
    ensures Layout(EncodeFields(fields, vs)) == b
  {
    assert EncodeFields(fields, vs) == Split(b);
    LayoutOfSplit(b);
  }

  lemma {:induction false} EncodeOfDecode(s: Schema, b: seq<byte>)
    requires Valid(s, b, false)
    ensures HasType(s, Decode(s, b, false)) && Encode(s, Decode(s, b, false)) == b
    decreases s
  {
    DecodeHasType(s, b, false);
    var v := Decode(s, b, false);
    match s
    case Fixed(_) =>
    case FixVec(itemSize) =>
      FlattenOfChunk(b[NUM_SIZE..], itemSize, Num(b, 0));
      PackOfNum(b, 0);
    case DynVec(item) =>
      if b != Pack(NUM_SIZE) {
        forall i | 0 <= i < Count(b) ensures HasType(item, v.items[i]) && Encode(item, v.items[i]) == Part(b, i) {
          EncodeOfDecode(item, Part(b, i));
        }
        ReencodeItems(item, b, v.items);
      }
    case Opt(item) =>
      if b != [] { EncodeOfDecode(item, b); }
    case Table(fields) =>
      forall i | 0 <= i < |fields| ensures HasType(fields[i], v.fields[i]) && Encode(fields[i], v.fields[i]) == Part(b, i) {
        EncodeOfDecode(fields[i], Part(b, i));
      }
      ReencodeFields(fields, b, v.fields);
  }

  lemma PartShorter(parts: seq<seq<byte>>, i: nat)
    requires i < |parts|
    ensures |parts[i]| <= LayoutSize(parts)
  {
    FlattenAt(parts, i);
  }

  lemma RedecodeItems(item: Schema, parts: seq<seq<byte>>, vs: seq<Value>, compatible: bool)
    requires LayoutSize(parts) < U32_LIMIT && |vs| == |parts|
    requires forall i :: 0 <= i < |vs| ==> Valid(item, parts[i], compatible) && Decode(item, parts[i], compatible) == vs[i]
    ensures Valid(DynVec(item), Layout(parts), compatible)
    ensures Decode(DynVec(item), Layout(parts), compatible) == Items(vs)
  {
    if parts != [] {
      SplitOfLayout(parts);
      forall i | 0 <= i < |parts| ensures Part(Layout(parts), i) == parts[i] {
        assert Split(Layout(parts))[i] == parts[i];
      }
    }
  }

  lemma RedecodeFields(fields: seq<Schema>, parts: seq<seq<byte>>, vs: seq<Value>, compatible: bool)
    requires fields != [] && LayoutSize(parts) < U32_LIMIT && |vs| == |parts| == |fields|
    requires forall i :: 0 <= i < |vs| ==> Valid(fields[i], parts[i], compatible) && Decode(fields[i], parts[i], compatible) == vs[i]
    ensures Valid(Table(fields), Layout(parts), compatible)
    ensures Decode(Table(fields), Layout(parts), compatible) == Fields(vs)
  {
    SplitOfLayout(parts);
    forall i | 0 <= i < |parts| ensures Part(Layout(parts), i) == parts[i] {
      assert Split(Layout(parts))[i] == parts[i];
    }
  }

  lemma TimesAtLeast(k: nat, n: nat)
    requires k > 0
    ensures n <= k * n
  {
  }

  lemma RedecodeChunks(chunks: seq<seq<byte>>, k: nat, compatible: bool)
    requires k > 0 && forall i :: 0 <= i < |chunks| ==> |chunks[i]| == k
    requires |Pack(|chunks|) + Flatten(chunks)| < U32_LIMIT
    ensures Valid(FixVec(k), Pack(|chunks|) + Flatten(chunks), compatible)
    ensures Decode(FixVec(k), Pack(|chunks|) + Flatten(chunks), compatible) == Chunks(chunks)
  {
    var b := Pack(|chunks|) + Flatten(chunks);
    ChunkOfFlatten(chunks, k);
    TimesAtLeast(k, |chunks|);
    NumOfPack(|chunks|);
    assert b[NUM_SIZE..] == Flatten(chunks);
  }

  lemma {:induction false} DecodeOfEncode(s: Schema, v: Value, compatible: bool)
    requires WellFormed(s) && HasType(s, v) && |Encode(s, v)| < U32_LIMIT
    ensures Valid(s, Encode(s, v), compatible) && Decode(s, Encode(s, v), compatible) == v
    decreases s
  {
    match s
    case Fixed(_) =>
    case FixVec(itemSize) =>
      RedecodeChunks(v.chunks, itemSize, compatible);
    case DynVec(item) =>
      var parts := EncodeItems(item, v.items);
      forall i | 0 <= i < |parts|
        ensures Valid(item, parts[i], compatible) && Decode(item, parts[i], compatible) == v.items[i]
      {
        PartShorter(parts, i);
        DecodeOfEncode(item, v.items[i], compatible);
      }
      RedecodeItems(item, parts, v.items, compatible);
    case Opt(item) =>
      if v.Present? {
        DecodeOfEncode(item, v.value, compatible);
      }
    case Table(fields) =>
      var parts := EncodeFields(fields, v.fields);
      forall i | 0 <= i < |parts|
        ensures Valid(fields[i], parts[i], compatible) && Decode(fields[i], parts[i], compatible) == v.fields[i]
      {
        PartShorter(parts, i);
        DecodeOfEncode(fields[i], v.fields[i], compatible);
      }
      RedecodeFields(fields, parts, v.fields, compatible);
  }

  /** Strictly accepted bytes are exactly the encodings of values, each of one value only. */
  lemma StrictIsEncoderImage(s: Schema, b: seq<byte>)
    requires WellFormed(s) && |b| < U32_LIMIT
    ensures Valid(s, b, false) <==> exists v :: HasType(s, v) && Encode(s, v) == b
    ensures forall v, w | HasType(s, v) && HasType(s, w) && Encode(s, v) == b && Encode(s, w) == b :: v == w
  {
    if Valid(s, b, false) {
      EncodeOfDecode(s, b);
    }
    forall v | HasType(s, v) && Encode(s, v) == b
      ensures Valid(s, b, false) && v == Decode(s, b, false)
    {
      DecodeOfEncode(s, v, false);
    }
  }

  // ---- compatible mode ----

  /** Accepted bytes cut, recursively, to the fields the reader knows. */
  function Trim(s: Schema, b: seq<byte>): seq<byte>
    requires Valid(s, b, true)
  {
    DecodeHasType(s, b, true);
    Encode(s, Decode(s, b, true))
  }

  lemma {:induction false} FlattenGrows(xs: seq<seq<byte>>, ys: seq<seq<byte>>)
    requires |xs| <= |ys| && forall i :: 0 <= i < |xs| ==> |xs[i]| <= |ys[i]|
    ensures |Flatten(xs)| <= |Flatten(ys)|
  {
    if xs != [] {
      FlattenGrows(xs[1..], ys[1..]);
    }
  }

  lemma {:induction false} TrimNotLonger(s: Schema, b: seq<byte>)
    requires Valid(s, b, true)
    ensures |Trim(s, b)| <= |b|
    decreases s
  {
    DecodeHasType(s, b, true);
    var v := Decode(s, b, true);
    match s
    case Fixed(_) =>
    case FixVec(itemSize) =>
      FlattenOfChunk(b[NUM_SIZE..], itemSize, Num(b, 0));
    case DynVec(item) =>
      if b != Pack(NUM_SIZE) {
        forall i | 0 <= i < Count(b) ensures |EncodeItems(item, v.items)[i]| <= |Split(b)[i]| {
          TrimNotLonger(item, Part(b, i));
        }
        FlattenGrows(EncodeItems(item, v.items), Split(b));
        LayoutOfSplit(b);
      }
    case Opt(item) =>
      if b != [] { TrimNotLonger(item, b); }
    case Table(fields) =>
      forall i | 0 <= i < |fields| ensures |EncodeFields(fields, v.fields)[i]| <= |Split(b)[i]| {
        TrimNotLonger(fields[i], Part(b, i));
      }
      FlattenGrows(EncodeFields(fields, v.fields), Split(b));
      LayoutOfSplit(b);
  }

  /** Cutting compatible-accepted bytes to the known fields gives strict-accepted bytes of the same value. */
  lemma TrimIsStrict(s: Schema, b: seq<byte>)
    requires WellFormed(s) && Valid(s, b, true) && |b| < U32_LIMIT
    ensures Valid(s, Trim(s, b), false)
    ensures Decode(s, Trim(s, b), false) == Decode(s, b, true)
  {
    DecodeHasType(s, b, true);
    TrimNotLonger(s, b);
    DecodeOfEncode(s, Decode(s, b, true), false);
  }

  /** Strict acceptance is compatible acceptance with nothing to cut. */
  lemma StrictIsTrimmedCompatible(s: Schema, b: seq<byte>)
    requires WellFormed(s) && |b| < U32_LIMIT
    ensures Valid(s, b, false) <==> Valid(s, b, true) && Trim(s, b) == b
    ensures Valid(s, b, false) ==> Decode(s, b, true) == Decode(s, b, false)
  {
    if Valid(s, b, false) {
      EncodeOfDecode(s, b);
      DecodeOfEncode(s, Decode(s, b, false), true);
    }
    if Valid(s, b, true) {
      TrimIsStrict(s, b);
    }
  }
}
