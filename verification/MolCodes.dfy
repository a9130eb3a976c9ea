/** Which code a rejection reports, in terms of the bytes that are rejected. */
module MolCodes {
  import opened Octet
  import opened MolLayout
  import opened MolSchema
  import opened MolReader

  /** Both sizes of a table's or vector's header are there and the first is right. */
  predicate SizesAgree(b: seq<byte>) {
    |b| >= 8 && Num(b, 0) == |b|
  }

  /** The first offset can be the end of an offset table. */
  predicate FirstOffsetOk(b: seq<byte>) {
    SizesAgree(b) && Num(b, NUM_SIZE) % 4 == 0 && Num(b, NUM_SIZE) >= 8
  }

  predicate CountFits(fields: seq<Schema>, b: seq<byte>, compatible: bool) {
    FirstOffsetOk(b) && if compatible then Count(b) >= |fields| else Count(b) == |fields|
  }

  /** Exactly one of the six holds of every input, and it is the code that the reader returns. */
  predicate TableReports(fields: seq<Schema>, b: seq<byte>, compatible: bool, r: Errno) {
    match r
    case Ok => Valid(Table(fields), b, compatible)
    case ErrTotalSize => |b| >= NUM_SIZE && Num(b, 0) != |b|
    case ErrHeader =>
      || |b| < NUM_SIZE
      || (Num(b, 0) == |b| && |b| < 8)
      || (CountFits(fields, b, compatible) && Num(b, NUM_SIZE) > |b|)
    case ErrFieldCount => FirstOffsetOk(b) && !CountFits(fields, b, compatible)
    case ErrOffset =>
      || (SizesAgree(b) && !FirstOffsetOk(b))
      || (CountFits(fields, b, compatible) && Num(b, NUM_SIZE) <= |b| && !LayoutOk(b))
    case ErrData =>
      && CountFits(fields, b, compatible) && LayoutOk(b)
      && exists i :: 0 <= i < |fields| && !Valid(fields[i], Part(b, i), compatible)
  }

  lemma HeaderCodes(mem: Memory, seg: Segment)
    ensures var b, r := Bytes(mem, seg), HeaderVerdict(mem, seg);
            && (r == Ok <==> FirstOffsetOk(b))
            && (r == ErrHeader <==> |b| < NUM_SIZE || (Num(b, 0) == |b| && |b| < 8))
            && (r == ErrTotalSize <==> |b| >= NUM_SIZE && Num(b, 0) != |b|)
            && (r == ErrOffset <==> SizesAgree(b) && !FirstOffsetOk(b))
            && (r == Ok ==> EntryCount(mem, seg) == Count(b) && ReadNum(mem, seg.ptr + 4) == Num(b, NUM_SIZE))
  {
    if seg.size >= NUM_SIZE { NumOfBytes(mem, seg, 0); }
    if seg.size >= 8 { NumOfBytes(mem, seg, NUM_SIZE); }
  }

  /** The code of a table's reader says what is wrong with the bytes, whatever they are. */
  lemma TableCodes(mem: Memory, seg: Segment, fields: seq<Schema>, compatible: bool, r: Errno)
    ensures TableVerdict(mem, seg, fields, compatible) == r <==> TableReports(fields, Bytes(mem, seg), compatible, r)
  {
    var b := Bytes(mem, seg);
    HeaderCodes(mem, seg);
    TableExact(mem, seg, fields, compatible);
    hide ReadNum, Bytes, Num, Valid, FieldsVerdict;
    if FirstOffsetOk(b) && CountFits(fields, b, compatible) && Num(b, NUM_SIZE) <= |b| {
      OrderExact(mem, seg);
      if LayoutOk(b) {
        FieldCodes(mem, seg, fields, compatible);
      }
    }
  }

  lemma FieldCodes(mem: Memory, seg: Segment, fields: seq<Schema>, compatible: bool)
    requires LayoutOk(Bytes(mem, seg)) && |fields| <= Count(Bytes(mem, seg))
    ensures var b := Bytes(mem, seg);
            FieldsVerdict(mem, seg, fields, 0, Count(b), compatible) ==
            if exists i :: 0 <= i < |fields| && !Valid(fields[i], Part(b, i), compatible) then ErrData else Ok
  {
    var b := Bytes(mem, seg);
    FieldsExact(mem, seg, fields, 0, Count(b), compatible);
    OkOrData(mem, seg, fields, 0, Count(b), compatible);
    forall i | 0 <= i < |fields|
      ensures FieldOk(mem, seg, fields[i], i, Count(b), compatible) <==> Valid(fields[i], Part(b, i), compatible)
    {
      FieldMatch(mem, seg, fields[i], i, compatible);
    }
  }

  lemma {:induction false} OkOrData(mem: Memory, seg: Segment, fields: seq<Schema>, i: nat, count: nat, compatible: bool)
    requires i <= |fields|
    ensures FieldsVerdict(mem, seg, fields, i, count, compatible) in {Ok, ErrData}
    decreases |fields| - i
  {
    if i < |fields| { OkOrData(mem, seg, fields, i + 1, count, compatible); }
  }

  /** A dynamic vector whose header is wrong: the code says what is wrong with it. */
  lemma VectorHeaderCodes(mem: Memory, seg: Segment, item: Schema, compatible: bool)
    requires Bytes(mem, seg) != Pack(NUM_SIZE) && !HeaderOk(Bytes(mem, seg))
    ensures var b := Bytes(mem, seg);
            DynVecVerdict(mem, seg, item, compatible) ==
            if |b| < NUM_SIZE then ErrHeader
            else if Num(b, 0) != |b| then ErrTotalSize
            else if SizesAgree(b) && !FirstOffsetOk(b) then ErrOffset
            else ErrHeader
  {
    var b := Bytes(mem, seg);
    HeaderCodes(mem, seg);
    NotEmptyVector(mem, seg);
    hide ReadNum, Bytes, Num;
  }

  lemma NotEmptyVector(mem: Memory, seg: Segment)
    ensures Bytes(mem, seg) == Pack(NUM_SIZE) <==> seg.size == NUM_SIZE && ReadNum(mem, seg.ptr) == NUM_SIZE
  {
    if seg.size == NUM_SIZE {
      NumOfBytes(mem, seg, 0);
      NumOfPack(NUM_SIZE);
      PackOfNum(Bytes(mem, seg), 0);
    }
  }

  /** Element `i` is the first that the loop finds out of order or not acceptable. */
  predicate FirstBad(mem: Memory, seg: Segment, item: Schema, i: nat, count: nat, compatible: bool) {
    && i < count && !ItemOk(mem, seg, item, i, count, compatible)
    && forall j :: 0 <= j < i ==> ItemOk(mem, seg, item, j, count, compatible)
  }

  /**
   A dynamic vector with a good header: the first bad element decides, by its
   offsets when they are out of order, and else with the data code, but for the
   last element, whose own code comes through.
   */
  lemma VectorItemCodes(mem: Memory, seg: Segment, item: Schema, i: nat, compatible: bool)
    requires HeaderOk(Bytes(mem, seg)) && FirstBad(mem, seg, item, i, Count(Bytes(mem, seg)), compatible)
    ensures var n := Count(Bytes(mem, seg));
            DynVecVerdict(mem, seg, item, compatible) ==
            if EntryOffset(mem, seg, i, n) > EntryOffset(mem, seg, i + 1, n) then ErrOffset
            else if i + 1 < n then ErrData
            else Verdict(mem, Field(mem, seg, i, n), item, compatible)
  {
    HeaderExact(mem, seg);
    hide ReadNum, Bytes, ItemOk;
    LoopReaches(mem, seg, item, 0, i, Count(Bytes(mem, seg)), compatible);
    LoopStops(mem, seg, item, i, Count(Bytes(mem, seg)), compatible);
  }

  lemma LoopStops(mem: Memory, seg: Segment, item: Schema, i: nat, count: nat, compatible: bool)
    requires i < count && !ItemOk(mem, seg, item, i, count, compatible)
    ensures ItemsVerdict(mem, seg, item, EntryOffset(mem, seg, i, count), i + 1, count, compatible) ==
            if EntryOffset(mem, seg, i, count) > EntryOffset(mem, seg, i + 1, count) then ErrOffset
            else if i + 1 < count then ErrData
            else Verdict(mem, Field(mem, seg, i, count), item, compatible)
  {
    hide ReadNum, Bytes, Valid, Verdict;
    VerdictExact(mem, Field(mem, seg, i, count), item, compatible);
  }

  lemma LoopGoesOn(mem: Memory, seg: Segment, item: Schema, k: nat, count: nat, compatible: bool)
    requires k + 1 < count && ItemOk(mem, seg, item, k, count, compatible)
    ensures ItemsVerdict(mem, seg, item, EntryOffset(mem, seg, k, count), k + 1, count, compatible)
         == ItemsVerdict(mem, seg, item, EntryOffset(mem, seg, k + 1, count), k + 2, count, compatible)
  {
    hide ReadNum, Bytes, Valid, Verdict, EntryOffset;
    VerdictExact(mem, Field(mem, seg, k, count), item, compatible);
  }

  lemma {:induction false} LoopReaches(mem: Memory, seg: Segment, item: Schema, k: nat, i: nat, count: nat, compatible: bool)
    requires k <= i < count && forall j :: k <= j < i ==> ItemOk(mem, seg, item, j, count, compatible)
    ensures ItemsVerdict(mem, seg, item, EntryOffset(mem, seg, k, count), k + 1, count, compatible)
         == ItemsVerdict(mem, seg, item, EntryOffset(mem, seg, i, count), i + 1, count, compatible)
    decreases i - k
  {
    hide *;
    if k < i {
      LoopGoesOn(mem, seg, item, k, count, compatible);
      LoopReaches(mem, seg, item, k + 1, i, count, compatible);
    }
  }

  /** Structs report their size only; item vectors a missing or a disagreeing count. */
  lemma PlainCodes(mem: Memory, seg: Segment, n: nat, compatible: bool)
    ensures var b := Bytes(mem, seg);
            && Verdict(mem, seg, Fixed(n), compatible) == (if |b| == n then Ok else ErrTotalSize)
            && Verdict(mem, seg, FixVec(n), compatible) ==
               (if |b| < NUM_SIZE then ErrHeader else if |b| == NUM_SIZE + n * Num(b, 0) then Ok else ErrTotalSize)
  {
    if seg.size >= NUM_SIZE { NumOfBytes(mem, seg, 0); }
  }
}
