/**
 The generated readers: one verifier over memory for every schema, proved
 against the byte-string notion of acceptance. Memory is a total map, because
 a dynamic vector's loop may look at an element past the end of its input
 before the closing range check rejects it.
 */
module MolReader {
  import opened Octet
  import opened MolLayout
  import opened MolSchema

  type Memory = int -> byte

  datatype Segment = Segment(ptr: int, size: nat)

  datatype Errno = Ok | ErrTotalSize | ErrHeader | ErrOffset | ErrFieldCount | ErrData

  function Bytes(mem: Memory, seg: Segment): (b: seq<byte>)
    ensures |b| == seg.size
  {
    seq(seg.size, i => mem(seg.ptr + i))
  }

  function ReadNum(mem: Memory, p: int): (n: nat) {
    var b0: int, b1: int, b2: int, b3: int := mem(p), mem(p + 1), mem(p + 2), mem(p + 3);
    b0 + 0x100 * b1 + 0x1_0000 * b2 + 0x100_0000 * b3
  }

  /** Entry `i` of the offset table; entry `count` is the total size. */
  function EntryOffset(mem: Memory, seg: Segment, i: int, count: int): nat {
    if i == count then seg.size else ReadNum(mem, seg.ptr + 4 * i + 4)
  }

  /** The segment between two offsets, or an empty one when they are out of order. */
  function Between(seg: Segment, from: nat, to: nat): Segment {
    Segment(seg.ptr + from, if from <= to then to - from else 0)
  }

  function HeaderVerdict(mem: Memory, seg: Segment): Errno {
    if seg.size < NUM_SIZE then ErrHeader
    else if seg.size != ReadNum(mem, seg.ptr) then ErrTotalSize
    else if seg.size < 8 then ErrHeader
    else if ReadNum(mem, seg.ptr + 4) % 4 > 0 || ReadNum(mem, seg.ptr + 4) < 8 then ErrOffset
    else Ok
  }

  /** How many entries the first offset announces. */
  function EntryCount(mem: Memory, seg: Segment): int {
    ReadNum(mem, seg.ptr + 4) / 4 - 1
  }

  predicate Ordered(mem: Memory, seg: Segment, count: int) {
    forall i :: 0 <= i < count ==> EntryOffset(mem, seg, i, count) <= EntryOffset(mem, seg, i + 1, count)
  }

  function Verdict(mem: Memory, seg: Segment, s: Schema, compatible: bool): Errno
    decreases s, 0, 0
  {
    match s
    case Fixed(size) => if seg.size != size then ErrTotalSize else Ok
    case FixVec(itemSize) =>
      if seg.size < NUM_SIZE then ErrHeader
      else if seg.size == NUM_SIZE + itemSize * ReadNum(mem, seg.ptr) then Ok else ErrTotalSize
    case Opt(item) => if seg.size != 0 then Verdict(mem, seg, item, compatible) else Ok
    case DynVec(item) => DynVecVerdict(mem, seg, item, compatible)
    case Table(fields) => TableVerdict(mem, seg, fields, compatible)
  }

  function DynVecVerdict(mem: Memory, seg: Segment, item: Schema, compatible: bool): Errno
    decreases item, 2, 0
  {
    if seg.size == NUM_SIZE && ReadNum(mem, seg.ptr) == NUM_SIZE then Ok
    else if HeaderVerdict(mem, seg) != Ok then HeaderVerdict(mem, seg)
    else if seg.size < ReadNum(mem, seg.ptr + 4) then ErrHeader
    else ItemsVerdict(mem, seg, item, ReadNum(mem, seg.ptr + 4), 1, EntryCount(mem, seg), compatible)
  }

  function TableVerdict(mem: Memory, seg: Segment, fields: seq<Schema>, compatible: bool): Errno
    decreases fields, 2, 0
  {
    if HeaderVerdict(mem, seg) != Ok then HeaderVerdict(mem, seg)
    else if EntryCount(mem, seg) < |fields| || (!compatible && EntryCount(mem, seg) > |fields|) then ErrFieldCount
    else if seg.size < ReadNum(mem, seg.ptr + 4) then ErrHeader
    else if !Ordered(mem, seg, EntryCount(mem, seg)) then ErrOffset
    else FieldsVerdict(mem, seg, fields, 0, EntryCount(mem, seg), compatible)
  }

  /** The element loop of a dynamic vector from entry `i` on; the last element's own code is returned. */
  function ItemsVerdict(mem: Memory, seg: Segment, item: Schema, offset: nat, i: nat, count: nat, compatible: bool): Errno
    decreases item, 1, count - i
  {
    if i >= count then
      if offset > seg.size then ErrOffset else Verdict(mem, Between(seg, offset, seg.size), item, compatible)
    else
      var end := EntryOffset(mem, seg, i, count);
      if offset > end then ErrOffset
      else if Verdict(mem, Between(seg, offset, end), item, compatible) != Ok then ErrData
      else ItemsVerdict(mem, seg, item, end, i + 1, count, compatible)
  }

  function FieldsVerdict(mem: Memory, seg: Segment, fields: seq<Schema>, i: nat, count: nat, compatible: bool): Errno
    requires i <= |fields|
    decreases fields, 1, |fields| - i
  {
    if i == |fields| then Ok
    else if Verdict(mem, Field(mem, seg, i, count), fields[i], compatible) != Ok then ErrData
    else FieldsVerdict(mem, seg, fields, i + 1, count, compatible)
  }

  /** The segment of entry `i`, as the slicing accessors compute it. */
  function Field(mem: Memory, seg: Segment, i: nat, count: nat): Segment {
    Between(seg, EntryOffset(mem, seg, i, count), EntryOffset(mem, seg, i + 1, count))
  }

  // ---- the readers ----

  method Verify(mem: Memory, seg: Segment, s: Schema, compatible: bool) returns (r: Errno)
    ensures r == Verdict(mem, seg, s, compatible)
    decreases s, 0
  {
    match s
    case Fixed(size) =>
      if seg.size != size { return ErrTotalSize; }
      return Ok;
    case FixVec(itemSize) =>
      if seg.size < NUM_SIZE { return ErrHeader; }
      var count := ReadNum(mem, seg.ptr);
      if seg.size == NUM_SIZE + itemSize * count { return Ok; }
      return ErrTotalSize;
    case Opt(item) =>
      if seg.size != 0 {
        r := Verify(mem, seg, item, compatible);
      } else {
        r := Ok;
      }
    case DynVec(item) =>
      r := VerifyDynVec(mem, seg, item, compatible);
    case Table(fields) =>
      r := VerifyTable(mem, seg, fields, compatible);
  }

  method VerifyHeader(mem: Memory, seg: Segment) returns (r: Errno, offset: nat)
    ensures r == HeaderVerdict(mem, seg)
    ensures r == Ok ==> offset == ReadNum(mem, seg.ptr + 4) && offset % 4 == 0 && offset >= 8
  {
    offset := 0;
    if seg.size < NUM_SIZE { return ErrHeader, 0; }
    var totalSize := ReadNum(mem, seg.ptr);
    if seg.size != totalSize { return ErrTotalSize, 0; }
    if seg.size < 8 { return ErrHeader, 0; }
    offset := ReadNum(mem, seg.ptr + NUM_SIZE);
    if offset % 4 > 0 || offset < 8 { return ErrOffset, 0; }
    return Ok, offset;
  }

  method VerifyDynVec(mem: Memory, seg: Segment, item: Schema, compatible: bool) returns (r: Errno)
    ensures r == DynVecVerdict(mem, seg, item, compatible)
    decreases item, 2
  {
    if seg.size == NUM_SIZE && ReadNum(mem, seg.ptr) == seg.size { return Ok; }
    var offset;
    r, offset := VerifyHeader(mem, seg);
    if r != Ok { return; }
    var itemCount := offset / 4 - 1;
    if seg.size < 4 * (itemCount + 1) { return ErrHeader; }
    r := VerifyItems(mem, seg, item, offset, itemCount, compatible);
  }

  method VerifyItems(mem: Memory, seg: Segment, item: Schema, first: nat, itemCount: nat, compatible: bool) returns (r: Errno)
    requires itemCount >= 1
    ensures r == ItemsVerdict(mem, seg, item, first, 1, itemCount, compatible)
    decreases item, 1
  {
    hide ReadNum;
    var ptr := seg.ptr + NUM_SIZE;
    var offset: nat := first;
    var i := 1;
    ghost var expected := ItemsVerdict(mem, seg, item, first, 1, itemCount, compatible);
    while i < itemCount
      invariant 1 <= i <= itemCount && ptr == seg.ptr + 4 * i
      invariant ItemsVerdict(mem, seg, item, offset, i, itemCount, compatible) == expected
    {
      ptr := ptr + NUM_SIZE;
      var end := ReadNum(mem, ptr);
      if offset > end { return ErrOffset; }
      r := Verify(mem, Segment(seg.ptr + offset, end - offset), item, compatible);
      if r != Ok { return ErrData; }
      offset := end;
      i := i + 1;
    }
    if offset > seg.size { return ErrOffset; }
    r := Verify(mem, Segment(seg.ptr + offset, seg.size - offset), item, compatible);
  }

  method VerifyTable(mem: Memory, seg: Segment, fields: seq<Schema>, compatible: bool) returns (r: Errno)
    ensures r == TableVerdict(mem, seg, fields, compatible)
    decreases fields, 2
  {
    hide ReadNum;
    var offset;
    r, offset := VerifyHeader(mem, seg);
    if r != Ok { return; }
    var fieldCount := offset / 4 - 1;
    assert fieldCount == EntryCount(mem, seg);
    if fieldCount < |fields| {
      return ErrFieldCount;
    } else if !compatible && fieldCount > |fields| {
      return ErrFieldCount;
    }
    if seg.size < 4 * (fieldCount + 1) { return ErrHeader; }
    var offsets := new nat[fieldCount + 1];
    r := ReadOffsets(mem, seg, fieldCount, offsets);
    if r != Ok { return; }
    r := VerifyFields(mem, seg, fields, offsets[..], compatible);
  }

  /** Fills `offsets` from the offset table, stopping at the first entry out of order. */
  method ReadOffsets(mem: Memory, seg: Segment, fieldCount: nat, offsets: array<nat>) returns (r: Errno)
    requires fieldCount >= 1 && offsets.Length == fieldCount + 1
    modifies offsets
    ensures r == if Ordered(mem, seg, fieldCount) then Ok else ErrOffset
    ensures r == Ok ==> forall j :: 0 <= j <= fieldCount ==> offsets[j] == EntryOffset(mem, seg, j, fieldCount)
  {
    hide ReadNum;
    var ptr := seg.ptr + NUM_SIZE;
    offsets[0] := ReadNum(mem, ptr);
    var i := 1;
    while i < fieldCount
      invariant 1 <= i <= fieldCount && ptr == seg.ptr + 4 * i
      invariant forall j :: 0 <= j < i ==> offsets[j] == EntryOffset(mem, seg, j, fieldCount)
      invariant forall j :: 0 <= j < i - 1 ==> EntryOffset(mem, seg, j, fieldCount) <= EntryOffset(mem, seg, j + 1, fieldCount)
    {
      ptr := ptr + NUM_SIZE;
      offsets[i] := ReadNum(mem, ptr);
      assert offsets[i] == EntryOffset(mem, seg, i, fieldCount);
      if offsets[i - 1] > offsets[i] {
        assert EntryOffset(mem, seg, i - 1, fieldCount) > EntryOffset(mem, seg, i - 1 + 1, fieldCount);
        return ErrOffset;
      }
      i := i + 1;
    }
    if offsets[fieldCount - 1] > seg.size {
      assert EntryOffset(mem, seg, fieldCount - 1, fieldCount) > EntryOffset(mem, seg, fieldCount - 1 + 1, fieldCount);
      return ErrOffset;
    }
    offsets[fieldCount] := seg.size;
    return Ok;
  }

  method VerifyFields(mem: Memory, seg: Segment, fields: seq<Schema>, offsets: seq<nat>, compatible: bool) returns (r: Errno)
    requires |fields| < |offsets| && Ordered(mem, seg, |offsets| - 1)
    requires forall j :: 0 <= j < |offsets| ==> offsets[j] == EntryOffset(mem, seg, j, |offsets| - 1)
    ensures r == FieldsVerdict(mem, seg, fields, 0, |offsets| - 1, compatible)
    decreases fields, 1
  {
    hide ReadNum;
    var i := 0;
    ghost var expected := FieldsVerdict(mem, seg, fields, 0, |offsets| - 1, compatible);
    while i < |fields|
      invariant 0 <= i <= |fields|
      invariant FieldsVerdict(mem, seg, fields, i, |offsets| - 1, compatible) == expected
    {
      assert offsets[i] <= offsets[i + 1];
      r := Verify(mem, Segment(seg.ptr + offsets[i], offsets[i + 1] - offsets[i]), fields[i], compatible);
      if r != Ok { return ErrData; }
      i := i + 1;
    }
    return Ok;
  }

  // ---- acceptance depends on the bytes of the segment alone ----

  lemma NumOfBytes(mem: Memory, seg: Segment, p: nat)
    requires p + NUM_SIZE <= seg.size
    ensures Num(Bytes(mem, seg), p) == ReadNum(mem, seg.ptr + p)
  {
  }

  lemma HeaderExact(mem: Memory, seg: Segment)
    ensures HeaderOk(Bytes(mem, seg)) <==> HeaderVerdict(mem, seg) == Ok && seg.size >= ReadNum(mem, seg.ptr + 4)
    ensures HeaderOk(Bytes(mem, seg)) ==> Count(Bytes(mem, seg)) == EntryCount(mem, seg) >= 1
  {
    if seg.size >= 8 {
      NumOfBytes(mem, seg, 0);
      NumOfBytes(mem, seg, 4);
    }
  }

  lemma OffsetExact(mem: Memory, seg: Segment, i: nat)
    requires HeaderOk(Bytes(mem, seg)) && i <= Count(Bytes(mem, seg))
    ensures EntryOffset(mem, seg, i, Count(Bytes(mem, seg))) == Offset(Bytes(mem, seg), i)
  {
    if i < Count(Bytes(mem, seg)) {
      NumOfBytes(mem, seg, HeaderSize(i));
    }
  }

  /** An accepted table or vector: each entry's segment holds the matching part. */
  lemma PartExact(mem: Memory, seg: Segment, i: nat)
    requires LayoutOk(Bytes(mem, seg)) && i < Count(Bytes(mem, seg))
    ensures Bytes(mem, Field(mem, seg, i, Count(Bytes(mem, seg)))) == Part(Bytes(mem, seg), i)
  {
    var b := Bytes(mem, seg);
    OffsetExact(mem, seg, i);
    OffsetExact(mem, seg, i + 1);
    OffsetInside(b, i + 1);
  }

  predicate FieldOk(mem: Memory, seg: Segment, s: Schema, j: nat, count: nat, compatible: bool) {
    Valid(s, Bytes(mem, Field(mem, seg, j, count)), compatible)
  }

  predicate ItemOk(mem: Memory, seg: Segment, item: Schema, j: nat, count: nat, compatible: bool) {
    && EntryOffset(mem, seg, j, count) <= EntryOffset(mem, seg, j + 1, count)
    && FieldOk(mem, seg, item, j, count, compatible)
  }

  lemma {:induction false} ItemsExact(mem: Memory, seg: Segment, item: Schema, i: nat, count: nat, compatible: bool)
    requires i < count
    ensures ItemsVerdict(mem, seg, item, EntryOffset(mem, seg, i, count), i + 1, count, compatible) == Ok <==>
            forall j :: i <= j < count ==> ItemOk(mem, seg, item, j, count, compatible)
    decreases item, 1, count - i
  {
    hide ReadNum, Bytes, Valid;
    VerdictExact(mem, Field(mem, seg, i, count), item, compatible);
    var here := ItemOk(mem, seg, item, i, count, compatible);
    if i + 1 < count {
      ItemsExact(mem, seg, item, i + 1, count, compatible);
      assert (forall j :: i <= j < count ==> ItemOk(mem, seg, item, j, count, compatible)) <==>
             here && forall j :: i + 1 <= j < count ==> ItemOk(mem, seg, item, j, count, compatible);
    } else {
      assert EntryOffset(mem, seg, i + 1, count) == seg.size;
      assert (forall j :: i <= j < count ==> ItemOk(mem, seg, item, j, count, compatible)) <==> here;
    }
  }

  lemma {:induction false} FieldsExact(mem: Memory, seg: Segment, fields: seq<Schema>, i: nat, count: nat, compatible: bool)
    requires i <= |fields|
    ensures FieldsVerdict(mem, seg, fields, i, count, compatible) == Ok <==>
            forall j :: i <= j < |fields| ==> FieldOk(mem, seg, fields[j], j, count, compatible)
    decreases fields, 1, |fields| - i
  {
    hide ReadNum, Bytes, Valid;
    if i < |fields| {
      VerdictExact(mem, Field(mem, seg, i, count), fields[i], compatible);
      FieldsExact(mem, seg, fields, i + 1, count, compatible);
    }
  }

  /** What every reader accepts, in terms of the bytes between `ptr` and `ptr + size`. */
  lemma {:induction false} VerdictExact(mem: Memory, seg: Segment, s: Schema, compatible: bool)
    ensures Verdict(mem, seg, s, compatible) == Ok <==> Valid(s, Bytes(mem, seg), compatible)
    decreases s, 0, 0
  {
    match s
    case Fixed(_) =>
    case FixVec(_) =>
      if seg.size >= NUM_SIZE { NumOfBytes(mem, seg, 0); }
    case Opt(item) =>
      VerdictExact(mem, seg, item, compatible);
    case DynVec(item) =>
      DynVecExact(mem, seg, item, compatible);
    case Table(fields) =>
      TableExact(mem, seg, fields, compatible);
  }

  lemma OrderExact(mem: Memory, seg: Segment)
    requires HeaderOk(Bytes(mem, seg))
    ensures LayoutOk(Bytes(mem, seg)) <==> Ordered(mem, seg, Count(Bytes(mem, seg)))
  {
    forall i | 0 <= i <= Count(Bytes(mem, seg))
      ensures EntryOffset(mem, seg, i, Count(Bytes(mem, seg))) == Offset(Bytes(mem, seg), i)
    {
      OffsetExact(mem, seg, i);
    }
  }

  lemma DynVecExact(mem: Memory, seg: Segment, item: Schema, compatible: bool)
    ensures DynVecVerdict(mem, seg, item, compatible) == Ok <==> Valid(DynVec(item), Bytes(mem, seg), compatible)
    decreases item, 2, 0
  {
    var b := Bytes(mem, seg);
    if seg.size == NUM_SIZE {
      NumOfBytes(mem, seg, 0);
      NumOfPack(NUM_SIZE);
      PackOfNum(b, 0);
    } else {
      HeaderExact(mem, seg);
      if HeaderOk(b) {
        OrderExact(mem, seg);
        ItemsExact(mem, seg, item, 0, Count(b), compatible);
        ItemsMatch(mem, seg, item, compatible);
      }
    }
  }

  lemma FieldMatch(mem: Memory, seg: Segment, s: Schema, j: nat, compatible: bool)
    requires LayoutOk(Bytes(mem, seg)) && j < Count(Bytes(mem, seg))
    ensures FieldOk(mem, seg, s, j, Count(Bytes(mem, seg)), compatible) <==> Valid(s, Part(Bytes(mem, seg), j), compatible)
  {
    PartExact(mem, seg, j);
  }

  lemma ItemsMatch(mem: Memory, seg: Segment, item: Schema, compatible: bool)
    requires HeaderOk(Bytes(mem, seg))
    ensures (forall j :: 0 <= j < Count(Bytes(mem, seg)) ==> ItemOk(mem, seg, item, j, Count(Bytes(mem, seg)), compatible)) <==>
            && LayoutOk(Bytes(mem, seg))
            && forall j :: 0 <= j < Count(Bytes(mem, seg)) ==> Valid(item, Part(Bytes(mem, seg), j), compatible)
  {
    hide ReadNum;
    OrderExact(mem, seg);
    var b := Bytes(mem, seg);
    var n := Count(b);
    if Ordered(mem, seg, n) {
      forall j | 0 <= j < n
        ensures ItemOk(mem, seg, item, j, n, compatible) <==> Valid(item, Part(b, j), compatible)
      {
        FieldMatch(mem, seg, item, j, compatible);
      }
    } else {
      var j :| 0 <= j < n && EntryOffset(mem, seg, j, n) > EntryOffset(mem, seg, j + 1, n);
      assert !ItemOk(mem, seg, item, j, n, compatible);
    }
  }

  lemma TableExact(mem: Memory, seg: Segment, fields: seq<Schema>, compatible: bool)
    ensures TableVerdict(mem, seg, fields, compatible) == Ok <==> Valid(Table(fields), Bytes(mem, seg), compatible)
    decreases fields, 2, 0
  {
    var b := Bytes(mem, seg);
    HeaderExact(mem, seg);
    if HeaderOk(b) {
      OrderExact(mem, seg);
      FieldsExact(mem, seg, fields, 0, Count(b), compatible);
      if LayoutOk(b) && |fields| <= Count(b) {
        forall i | 0 <= i < |fields|
          ensures FieldOk(mem, seg, fields[i], i, Count(b), compatible) <==> Valid(fields[i], Part(b, i), compatible)
        {
          FieldMatch(mem, seg, fields[i], i, compatible);
        }
      }
    }
  }

  /** The verdict is local even where the loop is not: only bytes inside the segment decide acceptance. */
  lemma AcceptanceIsLocal(mem: Memory, mem': Memory, seg: Segment, s: Schema, compatible: bool)
    requires forall p :: seg.ptr <= p < seg.ptr + seg.size ==> mem(p) == mem'(p)
    ensures Verdict(mem, seg, s, compatible) == Ok <==> Verdict(mem', seg, s, compatible) == Ok
  {
    VerdictExact(mem, seg, s, compatible);
    VerdictExact(mem', seg, s, compatible);
    assert Bytes(mem, seg) == Bytes(mem', seg);
  }

  lemma OverrunVerdict(mem: Memory)
    requires ReadNum(mem, 0) == 12 && ReadNum(mem, 4) == 12 && ReadNum(mem, 8) == 20
    ensures Verdict(mem, Segment(0, 12), DynVec(FixVec(1)), false) == if ReadNum(mem, 12) == 4 then ErrOffset else ErrData
  {
    hide ReadNum;
    var seg := Segment(0, 12);
    assert Between(seg, 12, 20) == Segment(12, 8);
    assert (Verdict(mem, Segment(12, 8), FixVec(1), false) == Ok) == (ReadNum(mem, 12) == 4);
    assert ItemsVerdict(mem, seg, FixVec(1), 20, 2, 2, false) == ErrOffset;
    assert EntryOffset(mem, seg, 1, 2) == 20;
    assert EntryCount(mem, seg) == 2;
  }

  /**
   Which error a rejection reports is not local: a 12-byte vector of byte
   strings whose second offset is 20 is rejected with one code or another
   depending on the bytes after its end.
   */
  lemma ErrorCodeIsNotLocal() returns (mem: Memory, mem': Memory, seg: Segment)
    ensures forall p :: seg.ptr <= p < seg.ptr + seg.size ==> mem(p) == mem'(p)
    ensures Verdict(mem, seg, DynVec(FixVec(1)), false) == ErrOffset
    ensures Verdict(mem', seg, DynVec(FixVec(1)), false) == ErrData
  {
    seg := Segment(0, 12);
    mem := (p: int) => if p == 0 || p == 4 then 12 else if p == 8 then 20 else if p == 12 then 4 else 0;
    mem' := (p: int) => if p == 0 || p == 4 then 12 else if p == 8 then 20 else 0;
    OverrunVerdict(mem);
    OverrunVerdict(mem');
  }
}
