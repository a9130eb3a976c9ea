/**
 The generated table builders: sum the field lengths, write the header, then
 copy each field that was set or its default.
 */
module MolBuilder {
  import opened Octet
  import opened Seqs
  import opened MolLayout
  import opened MolSchema
  import opened MolExact
  import opened MolReader

  /** `numbers` holds an (offset, length) pair per field, pointing into `data`. */
  predicate InData(count: nat, numbers: seq<nat>, data: seq<byte>) {
    && |numbers| == 2 * count
    && forall i :: 0 <= i < count ==> numbers[2 * i] + numbers[2 * i + 1] <= |data|
  }

  /** The bytes set for field `i`, or its default when the recorded length is zero. */
  function FieldBytes(defaults: seq<seq<byte>>, numbers: seq<nat>, data: seq<byte>, i: nat): seq<byte>
    requires i < |defaults| && InData(|defaults|, numbers, data)
  {
    var of, len := numbers[2 * i], numbers[2 * i + 1];
    if len == 0 then defaults[i] else data[of..of + len]
  }

  function FieldParts(defaults: seq<seq<byte>>, numbers: seq<nat>, data: seq<byte>): (parts: seq<seq<byte>>)
    requires InData(|defaults|, numbers, data)
    ensures |parts| == |defaults|
  {
    seq(|defaults|, i requires 0 <= i < |defaults| => FieldBytes(defaults, numbers, data, i))
  }

  /** `a` with `src` written over it from position `p`. */
  function Overwrite(a: seq<byte>, p: nat, src: seq<byte>): (b: seq<byte>)
    requires p + |src| <= |a|
    ensures |b| == |a|
  {
    a[..p] + src + a[p + |src|..]
  }

  method CopyTo(dst: array<byte>, p: nat, src: seq<byte>)
    requires p + |src| <= dst.Length
    modifies dst
    ensures dst[..] == Overwrite(old(dst[..]), p, src)
  {
    var i := 0;
    while i < |src|
      invariant 0 <= i <= |src|
      invariant dst[..] == Overwrite(old(dst[..]), p, src[..i])
    {
      dst[p + i] := src[i];
      i := i + 1;
    }
    assert src[..i] == src;
  }

  method PackTo(dst: array<byte>, p: nat, n: nat)
    requires p + NUM_SIZE <= dst.Length
    modifies dst
    ensures dst[..] == Overwrite(old(dst[..]), p, Pack(n))
  {
    CopyTo(dst, p, Pack(n));
  }

  lemma OverwriteExtends(a: seq<byte>, p: nat, src: seq<byte>, done: seq<byte>)
    requires p + |src| <= |a| && a[..p] == done
    ensures Overwrite(a, p, src)[..p + |src|] == done + src
  {
  }

  lemma TableEntry(parts: seq<seq<byte>>, i: nat)
    requires i < |parts| && LayoutSize(parts) < U32_LIMIT
    ensures OffsetTable(parts, HeaderSize(|parts|))[..4 * i + 4]
         == OffsetTable(parts, HeaderSize(|parts|))[..4 * i] + Pack(HeaderSize(|parts|) + |Flatten(parts[..i])|)
  {
    OffsetTableAt(parts, HeaderSize(|parts|), i);
    PackOfNum(OffsetTable(parts, HeaderSize(|parts|)), 4 * i);
  }

  method FieldLength(defaults: seq<seq<byte>>, numbers: seq<nat>, ghost data: seq<byte>, i: nat) returns (len: nat)
    requires i < |defaults| && InData(|defaults|, numbers, data)
    ensures len == |FieldBytes(defaults, numbers, data, i)|
  {
    len := numbers[2 * i + 1];
    if len == 0 { len := |defaults[i]|; }
  }

  method TotalSize(defaults: seq<seq<byte>>, numbers: seq<nat>, ghost data: seq<byte>) returns (size: nat)
    requires InData(|defaults|, numbers, data)
    ensures size == LayoutSize(FieldParts(defaults, numbers, data))
  {
    ghost var parts := FieldParts(defaults, numbers, data);
    size := HeaderSize(|defaults|);
    var i := 0;
    while i < |defaults|
      invariant 0 <= i <= |defaults|
      invariant size == HeaderSize(|defaults|) + |Flatten(parts[..i])|
    {
      FlattenNext(parts, i);
      var len := FieldLength(defaults, numbers, data, i);
      size := size + len;
      i := i + 1;
    }
    assert parts[..i] == parts;
  }

  method WriteOffsets(defaults: seq<seq<byte>>, numbers: seq<nat>, ghost data: seq<byte>, dst: array<byte>)
    requires InData(|defaults|, numbers, data) && defaults != []
    requires LayoutSize(FieldParts(defaults, numbers, data)) < U32_LIMIT
    requires dst.Length >= HeaderSize(|defaults|)
    modifies dst
    ensures dst[..HeaderSize(|defaults|)]
         == old(dst[..NUM_SIZE]) + OffsetTable(FieldParts(defaults, numbers, data), HeaderSize(|defaults|))
  {
    hide Pack, OffsetTable, Valid;
    ghost var parts := FieldParts(defaults, numbers, data);
    ghost var table := OffsetTable(parts, HeaderSize(|parts|));
    ghost var size := dst[..NUM_SIZE];
    var offset := HeaderSize(|defaults|);
    var at := NUM_SIZE;
    var i := 0;
    while i < |defaults|
      invariant 0 <= i <= |defaults| && at == 4 * i + 4
      invariant offset == HeaderSize(|defaults|) + |Flatten(parts[..i])|
      invariant dst[..at] == size + table[..4 * i]
    {
      TableEntry(parts, i);
      ghost var before := dst[..];
      PackTo(dst, at, offset);
      OverwriteExtends(before, at, Pack(offset), size + table[..4 * i]);
      at := at + NUM_SIZE;
      FlattenNext(parts, i);
      var len := FieldLength(defaults, numbers, data, i);
      offset := offset + len;
      i := i + 1;
    }
    assert table[..4 * i] == table;
  }

  lemma NextFits(parts: seq<seq<byte>>, i: nat)
    requires i < |parts|
    ensures Flatten(parts[..i + 1]) == Flatten(parts[..i]) + parts[i]
    ensures |Flatten(parts[..i + 1])| <= |Flatten(parts)|
  {
    FlattenAt(parts, i);
  }

  method CopyFields(defaults: seq<seq<byte>>, numbers: seq<nat>, data: seq<byte>, dst: array<byte>)
    requires InData(|defaults|, numbers, data)
    requires dst.Length == LayoutSize(FieldParts(defaults, numbers, data))
    modifies dst
    ensures dst[..] == old(dst[..HeaderSize(|defaults|)]) + Flatten(FieldParts(defaults, numbers, data))
  {
    hide Pack, OffsetTable, Valid;
    ghost var parts := FieldParts(defaults, numbers, data);
    ghost var header := dst[..HeaderSize(|defaults|)];
    var at := HeaderSize(|defaults|);
    var i := 0;
    while i < |defaults|
      invariant 0 <= i <= |defaults|
      invariant at == HeaderSize(|defaults|) + |Flatten(parts[..i])| <= dst.Length
      invariant dst[..at] == header + Flatten(parts[..i])
    {
      NextFits(parts, i);
      var of, len := numbers[2 * i], numbers[2 * i + 1];
      var field: seq<byte>;
      if len == 0 {
        len := |defaults[i]|;
        field := defaults[i];
      } else {
        field := data[of..of + len];
      }
      assert field == parts[i];
      ghost var before := dst[..];
      CopyTo(dst, at, field);
      OverwriteExtends(before, at, field, header + Flatten(parts[..i]));
      at := at + len;
      i := i + 1;
    }
    assert parts[..i] == parts;
    assert dst[..at] == dst[..];
  }

  /** The built segment is the layout of the fields that were set, with defaults for the rest. */
  method Build(defaults: seq<seq<byte>>, numbers: seq<nat>, data: seq<byte>) returns (seg: array<byte>)
    requires InData(|defaults|, numbers, data) && defaults != []
    requires LayoutSize(FieldParts(defaults, numbers, data)) < U32_LIMIT
    ensures fresh(seg) && seg[..] == Layout(FieldParts(defaults, numbers, data))
  {
    var size := TotalSize(defaults, numbers, data);
    seg := new byte[size](_ => 0);
    ghost var before := seg[..];
    PackTo(seg, 0, size);
    OverwriteExtends(before, 0, Pack(size), []);
    WriteOffsets(defaults, numbers, data, seg);
    CopyFields(defaults, numbers, data, seg);
  }

  /** Slicing the built segment gives back what was set, and it is strictly valid exactly when every set field is. */
  lemma BuildRoundTrip(fields: seq<Schema>, defaults: seq<seq<byte>>, numbers: seq<nat>, data: seq<byte>)
    requires |defaults| == |fields| && fields != [] && InData(|defaults|, numbers, data)
    requires LayoutSize(FieldParts(defaults, numbers, data)) < U32_LIMIT
    requires forall i :: 0 <= i < |fields| ==> Valid(fields[i], defaults[i], false)
    ensures var b := Layout(FieldParts(defaults, numbers, data));
            && LayoutOk(b) && Count(b) == |fields|
            && (forall i :: 0 <= i < |fields| ==> Part(b, i) == FieldBytes(defaults, numbers, data, i))
            && (Valid(Table(fields), b, false) <==>
                forall i :: 0 <= i < |fields| && numbers[2 * i + 1] > 0 ==>
                  Valid(fields[i], FieldBytes(defaults, numbers, data, i), false))
  {
    var parts := FieldParts(defaults, numbers, data);
    var b := Layout(parts);
    SplitOfLayout(parts);
    forall i | 0 <= i < |fields|
      ensures Part(b, i) == FieldBytes(defaults, numbers, data, i)
    {
      assert Split(b)[i] == parts[i];
    }
  }

  /** The same through memory: the accessor's segment for field `i` holds the bytes set or the default. */
  lemma SliceOfBuilt(mem: Memory, seg: Segment, defaults: seq<seq<byte>>, numbers: seq<nat>, data: seq<byte>, i: nat)
    requires InData(|defaults|, numbers, data) && i < |defaults|
    requires LayoutSize(FieldParts(defaults, numbers, data)) < U32_LIMIT
    requires Bytes(mem, seg) == Layout(FieldParts(defaults, numbers, data))
    ensures Bytes(mem, Field(mem, seg, i, |defaults|)) == FieldBytes(defaults, numbers, data, i)
  {
    PartOfLayout(FieldParts(defaults, numbers, data), i);
    PartExact(mem, seg, i);
  }

  /** A builder in which nothing was set lays out the defaults. */
  lemma UntouchedBuilder(defaults: seq<seq<byte>>, numbers: seq<nat>, data: seq<byte>)
    requires InData(|defaults|, numbers, data)
    requires forall i :: 0 <= i < |defaults| ==> numbers[2 * i + 1] == 0
    ensures FieldParts(defaults, numbers, data) == defaults
  {
    forall i | 0 <= i < |defaults| ensures FieldBytes(defaults, numbers, data, i) == defaults[i] {
      assert numbers[2 * i + 1] == 0;
    }
  }
}
