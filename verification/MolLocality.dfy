/**
 Which error a reader reports: for tables always, and for dynamic vectors
 whose loop stays inside its input, a matter of the input's bytes alone; and
 for every type exactly when it is not.
 */
module MolLocality {
  import opened Octet
  import opened MolLayout
  import opened MolSchema
  import opened MolExact
  import opened MolReader

  /** The two memories hold the same bytes in the segment. */
  predicate Agree(mem: Memory, mem': Memory, seg: Segment) {
    forall p :: seg.ptr <= p < seg.ptr + seg.size ==> mem(p) == mem'(p)
  }

  /**
   The element loop, up to where it stops, never hands out a segment that ends
   past the input; and the last element, whose own code is returned, is itself
   so.
   */
  predicate StaysInside(mem: Memory, seg: Segment, s: Schema, compatible: bool)
    decreases s, 1, 0
  {
    match s
    case Opt(item) => seg.size != 0 ==> StaysInside(mem, seg, item, compatible)
    case DynVec(item) =>
      HeaderVerdict(mem, seg) == Ok && seg.size >= ReadNum(mem, seg.ptr + 4) ==>
        ItemsInside(mem, seg, item, ReadNum(mem, seg.ptr + 4), 1, EntryCount(mem, seg), compatible)
    case _ => true
  }

  predicate ItemsInside(mem: Memory, seg: Segment, item: Schema, offset: nat, i: nat, count: nat, compatible: bool)
    decreases item, 2, count - i
  {
    if i >= count then
      offset <= seg.size ==> StaysInside(mem, Between(seg, offset, seg.size), item, compatible)
    else
      var end := EntryOffset(mem, seg, i, count);
      offset <= end ==>
        && end <= seg.size
        && (Verdict(mem, Between(seg, offset, end), item, compatible) == Ok ==>
              ItemsInside(mem, seg, item, end, i + 1, count, compatible))
  }

  // ---- local codes ----

  lemma ReadAgrees(mem: Memory, mem': Memory, seg: Segment, p: nat)
    requires Agree(mem, mem', seg) && p + NUM_SIZE <= seg.size
    ensures ReadNum(mem, seg.ptr + p) == ReadNum(mem', seg.ptr + p)
  {
  }

  lemma HeaderAgrees(mem: Memory, mem': Memory, seg: Segment)
    requires Agree(mem, mem', seg)
    ensures HeaderVerdict(mem, seg) == HeaderVerdict(mem', seg)
    ensures HeaderVerdict(mem, seg) == Ok ==>
              ReadNum(mem, seg.ptr + 4) == ReadNum(mem', seg.ptr + 4) && EntryCount(mem, seg) == EntryCount(mem', seg) >= 1
  {
    if seg.size >= 4 { ReadAgrees(mem, mem', seg, 0); }
    if seg.size >= 8 { ReadAgrees(mem, mem', seg, 4); }
  }

  /** The offset table lies inside. */
  predicate TableInside(seg: Segment, count: int) {
    count >= 1 && HeaderSize(count) <= seg.size
  }

  lemma EntryAgrees(mem: Memory, mem': Memory, seg: Segment, i: nat, count: int)
    requires Agree(mem, mem', seg) && TableInside(seg, count) && i <= count
    ensures EntryOffset(mem, seg, i, count) == EntryOffset(mem', seg, i, count)
  {
    if i < count { ReadAgrees(mem, mem', seg, 4 * i + 4); }
  }

  lemma AgreeBetween(mem: Memory, mem': Memory, seg: Segment, from: nat, to: nat)
    requires Agree(mem, mem', seg) && from <= seg.size && to <= seg.size
    ensures Agree(mem, mem', Between(seg, from, to))
  {
  }

  lemma AcceptanceAgrees(mem: Memory, mem': Memory, seg: Segment, s: Schema, compatible: bool)
    requires Agree(mem, mem', seg)
    ensures Verdict(mem, seg, s, compatible) == Ok <==> Verdict(mem', seg, s, compatible) == Ok
  {
    AcceptanceIsLocal(mem, mem', seg, s, compatible);
  }

  lemma {:induction false} FieldsAgree(mem: Memory, mem': Memory, seg: Segment, fields: seq<Schema>, i: nat, count: nat, compatible: bool)
    requires Agree(mem, mem', seg) && TableInside(seg, count) && |fields| <= count && i <= |fields| && Ordered(mem, seg, count)
    ensures FieldsVerdict(mem, seg, fields, i, count, compatible) == FieldsVerdict(mem', seg, fields, i, count, compatible)
    decreases |fields| - i
  {
    hide ReadNum, Agree, Ordered, EntryOffset, Verdict;
    if i < |fields| {
      EntryAgrees(mem, mem', seg, i, count);
      EntryAgrees(mem, mem', seg, i + 1, count);
      EntryInside(mem, seg, i, count);
      EntryInside(mem, seg, i + 1, count);
      AgreeBetween(mem, mem', seg, EntryOffset(mem, seg, i, count), EntryOffset(mem, seg, i + 1, count));
      AcceptanceAgrees(mem, mem', Field(mem, seg, i, count), fields[i], compatible);
      FieldsAgree(mem, mem', seg, fields, i + 1, count, compatible);
    }
  }

  lemma {:induction false} EntryInside(mem: Memory, seg: Segment, i: nat, count: nat)
    requires Ordered(mem, seg, count) && i <= count
    ensures EntryOffset(mem, seg, i, count) <= seg.size
    decreases count - i
  {
    if i < count { EntryInside(mem, seg, i + 1, count); }
  }

  lemma OrderAgrees(mem: Memory, mem': Memory, seg: Segment, count: nat)
    requires Agree(mem, mem', seg) && TableInside(seg, count)
    ensures Ordered(mem, seg, count) <==> Ordered(mem', seg, count)
  {
    forall i | 0 <= i <= count ensures EntryOffset(mem, seg, i, count) == EntryOffset(mem', seg, i, count) {
      EntryAgrees(mem, mem', seg, i, count);
    }
  }

  /** A table reader's whole verdict depends on the bytes of its input alone. */
  lemma TableCodeIsLocal(mem: Memory, mem': Memory, seg: Segment, fields: seq<Schema>, compatible: bool)
    requires Agree(mem, mem', seg)
    ensures Verdict(mem, seg, Table(fields), compatible) == Verdict(mem', seg, Table(fields), compatible)
  {
    HeaderAgrees(mem, mem', seg);
    if HeaderVerdict(mem, seg) == Ok && seg.size >= ReadNum(mem, seg.ptr + 4) {
      var count := EntryCount(mem, seg);
      OrderAgrees(mem, mem', seg, count);
      if |fields| <= count && Ordered(mem, seg, count) { FieldsAgree(mem, mem', seg, fields, 0, count, compatible); }
    }
  }

  // ---- elements that end past the input ----

  /** The bytes of the element between two offsets that lie inside the input. */
  function Known(mem: Memory, seg: Segment, offset: nat, end: nat): seq<byte>
    requires offset <= end
  {
    var to := if end <= seg.size then end else seg.size;
    Bytes(mem, Between(seg, offset, to))
  }

  predicate Completes(b: seq<byte>, known: seq<byte>, size: nat) {
    |b| == size && known <= b
  }

  /** The known first bytes can go on to make `size` acceptable bytes. */
  ghost predicate Completable(item: Schema, known: seq<byte>, size: nat, compatible: bool) {
    exists b :: Completes(b, known, size) && Valid(item, b, compatible)
  }

  /** They can go on to make `size` bytes that are not acceptable. */
  ghost predicate Spoilable(item: Schema, known: seq<byte>, size: nat, compatible: bool) {
    exists b :: Completes(b, known, size) && !Valid(item, b, compatible)
  }

  /** The loop goes on to an element between `offset` and entry `i`. */
  predicate MoreElements(mem: Memory, seg: Segment, offset: nat, i: nat, count: nat) {
    i < count && offset <= EntryOffset(mem, seg, i, count)
  }

  ghost predicate AllCompletable(mem: Memory, seg: Segment, item: Schema, offset: nat, i: nat, count: nat, compatible: bool)
    decreases count - i
  {
    MoreElements(mem, seg, offset, i, count) ==>
      var end := EntryOffset(mem, seg, i, count);
      && Completable(item, Known(mem, seg, offset, end), end - offset, compatible)
      && AllCompletable(mem, seg, item, end, i + 1, count, compatible)
  }

  ghost predicate SomeSpoilable(mem: Memory, seg: Segment, item: Schema, offset: nat, i: nat, count: nat, compatible: bool)
    decreases count - i
  {
    && MoreElements(mem, seg, offset, i, count)
    && var end := EntryOffset(mem, seg, i, count);
       || Spoilable(item, Known(mem, seg, offset, end), end - offset, compatible)
       || SomeSpoilable(mem, seg, item, end, i + 1, count, compatible)
  }

  /**
   The code depends on bytes outside: the loop accepts its way to an element
   that ends past the input, from there on every element may be accepted as far
   as its bytes inside say, and some may be rejected; or the last element's own
   code, which is returned, depends on bytes outside.
   */
  ghost predicate CodeOpen(mem: Memory, seg: Segment, s: Schema, compatible: bool)
    decreases s, 1, 0
  {
    match s
    case Opt(item) => seg.size != 0 && CodeOpen(mem, seg, item, compatible)
    case DynVec(item) =>
      && HeaderVerdict(mem, seg) == Ok && seg.size >= ReadNum(mem, seg.ptr + 4)
      && LoopOpen(mem, seg, item, ReadNum(mem, seg.ptr + 4), 1, EntryCount(mem, seg), compatible)
    case _ => false
  }

  ghost predicate LoopOpen(mem: Memory, seg: Segment, item: Schema, offset: nat, i: nat, count: nat, compatible: bool)
    decreases item, 2, count - i
  {
    if i >= count then
      offset <= seg.size && CodeOpen(mem, Between(seg, offset, seg.size), item, compatible)
    else
      var end := EntryOffset(mem, seg, i, count);
      && offset <= end
      && if end <= seg.size
         then Verdict(mem, Between(seg, offset, end), item, compatible) == Ok && LoopOpen(mem, seg, item, end, i + 1, count, compatible)
         else AllCompletable(mem, seg, item, offset, i, count, compatible) && SomeSpoilable(mem, seg, item, offset, i, count, compatible)
  }

  /** The element begins past the input or ends there. */
  predicate Overruns(mem: Memory, seg: Segment, offset: nat, i: nat, count: nat) {
    offset > seg.size || (MoreElements(mem, seg, offset, i, count) && EntryOffset(mem, seg, i, count) > seg.size)
  }

  lemma KnownStarts(mem: Memory, mem': Memory, seg: Segment, offset: nat, end: nat)
    requires Agree(mem, mem', seg) && offset <= end
    ensures Completes(Bytes(mem', Between(seg, offset, end)), Known(mem, seg, offset, end), end - offset)
  {
  }

  // ---- closed: the code is local ----

  /** An element that cannot be completed is rejected in every memory. */
  lemma {:induction false} RestRejects(mem: Memory, mem': Memory, seg: Segment, item: Schema, offset: nat, i: nat, count: nat, compatible: bool)
    requires Agree(mem, mem', seg) && TableInside(seg, count) && !AllCompletable(mem, seg, item, offset, i, count, compatible)
    ensures ItemsVerdict(mem', seg, item, offset, i, count, compatible) == ErrData
    decreases count - i
  {
    hide ReadNum, Agree, TableInside, Valid, Bytes, Known, Completes, Verdict;
    var end := EntryOffset(mem, seg, i, count);
    EntryAgrees(mem, mem', seg, i, count);
    if Verdict(mem', Between(seg, offset, end), item, compatible) == Ok {
      KnownStarts(mem, mem', seg, offset, end);
      VerdictExact(mem', Between(seg, offset, end), item, compatible);
      RestRejects(mem, mem', seg, item, end, i + 1, count, compatible);
    }
  }

  /** Where none can be spoilt all are accepted in every memory, and the loop ends in an offset error. */
  lemma {:induction false} RestEnds(mem: Memory, mem': Memory, seg: Segment, item: Schema, offset: nat, i: nat, count: nat, compatible: bool)
    requires Agree(mem, mem', seg) && TableInside(seg, count) && Overruns(mem, seg, offset, i, count)
    requires !SomeSpoilable(mem, seg, item, offset, i, count, compatible)
    ensures ItemsVerdict(mem', seg, item, offset, i, count, compatible) == ErrOffset
    decreases count - i
  {
    hide ReadNum, Agree, TableInside, Valid, Bytes, Known, Completes, Verdict;
    if i < count { EntryAgrees(mem, mem', seg, i, count); }
    if MoreElements(mem, seg, offset, i, count) {
      var end := EntryOffset(mem, seg, i, count);
      KnownStarts(mem, mem', seg, offset, end);
      VerdictExact(mem', Between(seg, offset, end), item, compatible);
      RestEnds(mem, mem', seg, item, end, i + 1, count, compatible);
    }
  }

  lemma OverrunSettled(mem: Memory, mem': Memory, seg: Segment, item: Schema, offset: nat, i: nat, count: nat, compatible: bool)
    requires Agree(mem, mem', seg) && TableInside(seg, count) && Overruns(mem, seg, offset, i, count)
    requires !(AllCompletable(mem, seg, item, offset, i, count, compatible) && SomeSpoilable(mem, seg, item, offset, i, count, compatible))
    ensures ItemsVerdict(mem, seg, item, offset, i, count, compatible) == ItemsVerdict(mem', seg, item, offset, i, count, compatible)
  {
    AgreeSelf(mem, seg);
    hide *;
    if !AllCompletable(mem, seg, item, offset, i, count, compatible) {
      RestRejects(mem, mem, seg, item, offset, i, count, compatible);
      RestRejects(mem, mem', seg, item, offset, i, count, compatible);
    } else {
      RestEnds(mem, mem, seg, item, offset, i, count, compatible);
      RestEnds(mem, mem', seg, item, offset, i, count, compatible);
    }
  }

  lemma AgreeSelf(mem: Memory, seg: Segment)
    ensures Agree(mem, mem, seg)
  {
  }

  lemma {:induction false} ClosedLoop(mem: Memory, mem': Memory, seg: Segment, item: Schema, offset: nat, i: nat, count: nat, compatible: bool)
    requires Agree(mem, mem', seg) && TableInside(seg, count) && offset <= seg.size
    requires !LoopOpen(mem, seg, item, offset, i, count, compatible)
    ensures ItemsVerdict(mem, seg, item, offset, i, count, compatible) == ItemsVerdict(mem', seg, item, offset, i, count, compatible)
    decreases item, 2, count - i
  {
    hide ReadNum, Agree, EntryOffset, TableInside, AllCompletable, SomeSpoilable;
    if i >= count {
      AgreeBetween(mem, mem', seg, offset, seg.size);
      ClosedIsLocal(mem, mem', Between(seg, offset, seg.size), item, compatible);
    } else {
      var end := EntryOffset(mem, seg, i, count);
      EntryAgrees(mem, mem', seg, i, count);
      if offset <= end {
        if end <= seg.size {
          AgreeBetween(mem, mem', seg, offset, end);
          AcceptanceAgrees(mem, mem', Between(seg, offset, end), item, compatible);
          if Verdict(mem, Between(seg, offset, end), item, compatible) == Ok {
            ClosedLoop(mem, mem', seg, item, end, i + 1, count, compatible);
          }
        } else {
          OverrunSettled(mem, mem', seg, item, offset, i, count, compatible);
        }
      }
    }
  }

  lemma {:induction false} ClosedIsLocal(mem: Memory, mem': Memory, seg: Segment, s: Schema, compatible: bool)
    requires Agree(mem, mem', seg) && !CodeOpen(mem, seg, s, compatible)
    ensures Verdict(mem, seg, s, compatible) == Verdict(mem', seg, s, compatible)
    decreases s, 1, 0
  {
    match s
    case Fixed(_) =>
    case FixVec(_) =>
      if seg.size >= 4 { ReadAgrees(mem, mem', seg, 0); }
    case Opt(item) =>
      if seg.size != 0 { ClosedIsLocal(mem, mem', seg, item, compatible); }
    case DynVec(item) =>
      ClosedVector(mem, mem', seg, item, compatible);
    case Table(fields) =>
      TableCodeIsLocal(mem, mem', seg, fields, compatible);
  }

  lemma ClosedVector(mem: Memory, mem': Memory, seg: Segment, item: Schema, compatible: bool)
    requires Agree(mem, mem', seg) && !CodeOpen(mem, seg, DynVec(item), compatible)
    ensures DynVecVerdict(mem, seg, item, compatible) == DynVecVerdict(mem', seg, item, compatible)
    decreases item, 3, 0
  {
    HeaderAgrees(mem, mem', seg);
    if seg.size == NUM_SIZE { ReadAgrees(mem, mem', seg, 0); }
    if HeaderVerdict(mem, seg) == Ok && seg.size >= ReadNum(mem, seg.ptr + 4) {
      assert TableInside(seg, EntryCount(mem, seg));
      hide ReadNum, HeaderVerdict, EntryCount;
      ClosedLoop(mem, mem', seg, item, ReadNum(mem, seg.ptr + 4), 1, EntryCount(mem, seg), compatible);
    }
  }

  lemma {:induction false} InsideLoopClosed(mem: Memory, seg: Segment, item: Schema, offset: nat, i: nat, count: nat, compatible: bool)
    requires ItemsInside(mem, seg, item, offset, i, count, compatible)
    ensures !LoopOpen(mem, seg, item, offset, i, count, compatible)
    decreases item, 2, count - i
  {
    hide ReadNum, EntryOffset;
    if i >= count {
      if offset <= seg.size { InsideIsClosed(mem, Between(seg, offset, seg.size), item, compatible); }
    } else {
      var end := EntryOffset(mem, seg, i, count);
      if offset <= end && Verdict(mem, Between(seg, offset, end), item, compatible) == Ok {
        InsideLoopClosed(mem, seg, item, end, i + 1, count, compatible);
      }
    }
  }

  lemma {:induction false} InsideIsClosed(mem: Memory, seg: Segment, s: Schema, compatible: bool)
    requires StaysInside(mem, seg, s, compatible)
    ensures !CodeOpen(mem, seg, s, compatible)
    decreases s, 1, 0
  {
    match s
    case Opt(item) =>
      if seg.size != 0 { InsideIsClosed(mem, seg, item, compatible); }
    case DynVec(item) =>
      if HeaderVerdict(mem, seg) == Ok && seg.size >= ReadNum(mem, seg.ptr + 4) {
        InsideLoopClosed(mem, seg, item, ReadNum(mem, seg.ptr + 4), 1, EntryCount(mem, seg), compatible);
      }
    case _ =>
  }

  /** Where the loop stays inside its input, the whole verdict depends on the bytes of the input alone. */
  lemma CodeIsLocal(mem: Memory, mem': Memory, seg: Segment, s: Schema, compatible: bool)
    requires Agree(mem, mem', seg) && StaysInside(mem, seg, s, compatible)
    ensures Verdict(mem, seg, s, compatible) == Verdict(mem', seg, s, compatible)
  {
    InsideIsClosed(mem, seg, s, compatible);
    ClosedIsLocal(mem, mem', seg, s, compatible);
  }

  // ---- readers look ahead only ----

  ghost predicate Ahead(mem: Memory, mem': Memory, at: int) {
    forall p :: p >= at ==> mem(p) == mem'(p)
  }

  lemma AheadReads(mem: Memory, mem': Memory, at: int, p: int)
    requires Ahead(mem, mem', at) && p >= at
    ensures ReadNum(mem, p) == ReadNum(mem', p) && Ahead(mem, mem', p)
  {
  }

  lemma {:induction false} ItemsAhead(mem: Memory, mem': Memory, seg: Segment, item: Schema, offset: nat, i: nat, count: nat, compatible: bool)
    requires Ahead(mem, mem', seg.ptr + offset)
    requires forall j :: i <= j <= count ==> EntryOffset(mem, seg, j, count) == EntryOffset(mem', seg, j, count)
    ensures ItemsVerdict(mem, seg, item, offset, i, count, compatible) == ItemsVerdict(mem', seg, item, offset, i, count, compatible)
    decreases item, 1, count - i
  {
    hide ReadNum, EntryOffset, Ahead;
    if i >= count {
      VerdictAhead(mem, mem', Between(seg, offset, seg.size), item, compatible);
    } else {
      var end := EntryOffset(mem, seg, i, count);
      VerdictAhead(mem, mem', Between(seg, offset, end), item, compatible);
      if offset <= end {
        AheadReads(mem, mem', seg.ptr + offset, seg.ptr + end);
        ItemsAhead(mem, mem', seg, item, end, i + 1, count, compatible);
      }
    }
  }

  lemma {:induction false} FieldsAhead(mem: Memory, mem': Memory, seg: Segment, fields: seq<Schema>, i: nat, count: nat, compatible: bool)
    requires Ahead(mem, mem', seg.ptr) && i <= |fields|
    ensures FieldsVerdict(mem, seg, fields, i, count, compatible) == FieldsVerdict(mem', seg, fields, i, count, compatible)
    decreases fields, 1, |fields| - i
  {
    hide ReadNum, Ahead, EntryOffset;
    if i < |fields| {
      EntryAhead(mem, mem', seg, i, count);
      EntryAhead(mem, mem', seg, i + 1, count);
      AheadReads(mem, mem', seg.ptr, Field(mem, seg, i, count).ptr);
      VerdictAhead(mem, mem', Field(mem, seg, i, count), fields[i], compatible);
      FieldsAhead(mem, mem', seg, fields, i + 1, count, compatible);
    }
  }

  lemma EntryAhead(mem: Memory, mem': Memory, seg: Segment, i: nat, count: int)
    requires Ahead(mem, mem', seg.ptr)
    ensures EntryOffset(mem, seg, i, count) == EntryOffset(mem', seg, i, count)
  {
    AheadReads(mem, mem', seg.ptr, seg.ptr + 4 * i + 4);
  }

  lemma HeaderAhead(mem: Memory, mem': Memory, seg: Segment)
    requires Ahead(mem, mem', seg.ptr)
    ensures HeaderVerdict(mem, seg) == HeaderVerdict(mem', seg) && EntryCount(mem, seg) == EntryCount(mem', seg)
    ensures ReadNum(mem, seg.ptr) == ReadNum(mem', seg.ptr) && ReadNum(mem, seg.ptr + 4) == ReadNum(mem', seg.ptr + 4)
  {
    AheadReads(mem, mem', seg.ptr, seg.ptr);
    AheadReads(mem, mem', seg.ptr, seg.ptr + 4);
  }

  lemma {:induction false} VerdictAhead(mem: Memory, mem': Memory, seg: Segment, s: Schema, compatible: bool)
    requires Ahead(mem, mem', seg.ptr)
    ensures Verdict(mem, seg, s, compatible) == Verdict(mem', seg, s, compatible)
    decreases s, 0, 0
  {
    hide ReadNum, Ahead, HeaderVerdict, EntryCount, EntryOffset, ItemsVerdict, FieldsVerdict;
    HeaderAhead(mem, mem', seg);
    match s
    case Opt(item) =>
      VerdictAhead(mem, mem', seg, item, compatible);
    case DynVec(item) =>
      var first := ReadNum(mem, seg.ptr + 4);
      forall j: nat | 1 <= j <= EntryCount(mem, seg)
        ensures EntryOffset(mem, seg, j, EntryCount(mem, seg)) == EntryOffset(mem', seg, j, EntryCount(mem, seg))
      {
        EntryAhead(mem, mem', seg, j, EntryCount(mem, seg));
      }
      if HeaderVerdict(mem, seg) == Ok {
        CountPositive(mem, seg);
        AheadReads(mem, mem', seg.ptr, seg.ptr + first);
        ItemsAhead(mem, mem', seg, item, first, 1, EntryCount(mem, seg), compatible);
      }
    case Table(fields) =>
      if HeaderVerdict(mem, seg) == Ok {
        CountPositive(mem, seg);
        OrderAhead(mem, mem', seg, EntryCount(mem, seg));
        FieldsAhead(mem, mem', seg, fields, 0, EntryCount(mem, seg), compatible);
      }
    case _ =>
  }

  lemma CountPositive(mem: Memory, seg: Segment)
    requires HeaderVerdict(mem, seg) == Ok
    ensures EntryCount(mem, seg) >= 1
  {
  }

  lemma OrderAhead(mem: Memory, mem': Memory, seg: Segment, count: nat)
    requires Ahead(mem, mem', seg.ptr)
    ensures Ordered(mem, seg, count) <==> Ordered(mem', seg, count)
  {
    hide Ahead, EntryOffset;
    forall i: nat | i <= count ensures EntryOffset(mem, seg, i, count) == EntryOffset(mem', seg, i, count) {
      EntryAhead(mem, mem', seg, i, count);
    }
  }

  // ---- open: two memories with different codes ----

  /** `mem` inside the segment, `other` outside. */
  function Around(mem: Memory, other: Memory, seg: Segment): Memory {
    (p: int) => if seg.ptr <= p < seg.ptr + seg.size then mem(p) else other(p)
  }

  /** `mem` with `bytes` written at an offset of the segment, but for what lies inside it. */
  function WrittenOutside(mem: Memory, seg: Segment, at: nat, bytes: seq<byte>): Memory {
    (p: int) =>
      if seg.ptr + at <= p < seg.ptr + at + |bytes| && !(seg.ptr <= p < seg.ptr + seg.size) then bytes[p - seg.ptr - at]
      else mem(p)
  }

  /** An element written over, with what it keeps of the input, holds the bytes written. */
  lemma WrittenElement(mem: Memory, other: Memory, seg: Segment, offset: nat, end: nat, b: seq<byte>)
    requires Agree(mem, other, seg) && offset <= end && Completes(b, Known(mem, seg, offset, end), end - offset)
    ensures var m := WrittenOutside(other, seg, offset, b);
            Agree(mem, m, seg) && Bytes(m, Between(seg, offset, end)) == b
  {
    var m := WrittenOutside(other, seg, offset, b);
    var known := Known(mem, seg, offset, end);
    forall j | 0 <= j < |b| ensures m(seg.ptr + offset + j) == b[j] {
      if offset + j < seg.size {
        assert known[j] == mem(seg.ptr + offset + j) == other(seg.ptr + offset + j);
      }
    }
  }

  lemma WrittenBefore(mem: Memory, seg: Segment, item: Schema, at: nat, bytes: seq<byte>, end: nat, i: nat, count: nat, compatible: bool)
    requires TableInside(seg, count) && at + |bytes| <= end
    ensures ItemsVerdict(WrittenOutside(mem, seg, at, bytes), seg, item, end, i, count, compatible) ==
            ItemsVerdict(mem, seg, item, end, i, count, compatible)
  {
    var m := WrittenOutside(mem, seg, at, bytes);
    assert Agree(mem, m, seg) && Ahead(mem, m, seg.ptr + end);
    hide ItemsVerdict, WrittenOutside, Agree, Ahead, EntryOffset;
    forall j: nat | i <= j <= count ensures EntryOffset(mem, seg, j, count) == EntryOffset(m, seg, j, count) {
      EntryAgrees(mem, m, seg, j, count);
    }
    ItemsAhead(mem, m, seg, item, end, i, count, compatible);
  }

  lemma Stepping(mem: Memory, m: Memory, seg: Segment, item: Schema, offset: nat, i: nat, count: nat, compatible: bool)
    requires TableInside(seg, count) && Agree(mem, m, seg) && MoreElements(mem, seg, offset, i, count)
    ensures var end := EntryOffset(mem, seg, i, count);
            ItemsVerdict(m, seg, item, offset, i, count, compatible) ==
              if Verdict(m, Between(seg, offset, end), item, compatible) == Ok
              then ItemsVerdict(m, seg, item, end, i + 1, count, compatible) else ErrData
  {
    hide ReadNum, Agree;
    EntryAgrees(mem, m, seg, i, count);
  }

  /** Some memory in which everything past the input is accepted, so that the loop ends in an offset error. */
  lemma {:induction false} Filled(mem: Memory, seg: Segment, item: Schema, offset: nat, i: nat, count: nat, compatible: bool)
    returns (a: Memory)
    requires TableInside(seg, count) && Overruns(mem, seg, offset, i, count)
    requires AllCompletable(mem, seg, item, offset, i, count, compatible)
    ensures Agree(mem, a, seg) && ItemsVerdict(a, seg, item, offset, i, count, compatible) == ErrOffset
    decreases count - i
  {
    hide ReadNum, Agree, TableInside, Valid, Bytes, Known, Completes, Verdict, WrittenOutside;
    if MoreElements(mem, seg, offset, i, count) {
      var end := EntryOffset(mem, seg, i, count);
      var below := Filled(mem, seg, item, end, i + 1, count, compatible);
      hide ItemsVerdict, EntryOffset;
      var b :| Completes(b, Known(mem, seg, offset, end), end - offset) && Valid(item, b, compatible);
      a := WrittenOutside(below, seg, offset, b);
      WrittenElement(mem, below, seg, offset, end, b);
      VerdictExact(a, Between(seg, offset, end), item, compatible);
      SizeOfCompletion(b, Known(mem, seg, offset, end), end - offset);
      WrittenBefore(below, seg, item, offset, b, end, i + 1, count, compatible);
      Stepping(mem, a, seg, item, offset, i, count, compatible);
    } else {
      a := mem;
      AgreeSelf(mem, seg);
    }
  }

  lemma SizeOfCompletion(b: seq<byte>, known: seq<byte>, size: nat)
    requires Completes(b, known, size)
    ensures |b| == size
  {
  }

  /** And one, the same before `offset`, in which one of those elements is rejected. */
  lemma {:induction false} Spoilt(mem: Memory, a: Memory, seg: Segment, item: Schema, offset: nat, i: nat, count: nat, compatible: bool)
    returns (b: Memory)
    requires TableInside(seg, count) && Agree(mem, a, seg) && SomeSpoilable(mem, seg, item, offset, i, count, compatible)
    requires ItemsVerdict(a, seg, item, offset, i, count, compatible) == ErrOffset
    ensures Agree(mem, b, seg) && ItemsVerdict(b, seg, item, offset, i, count, compatible) == ErrData
    ensures forall p :: p < seg.ptr + offset ==> b(p) == a(p)
    decreases count - i
  {
    hide ReadNum, Agree, TableInside, Valid, Bytes, Known, Completes, Verdict, ItemsVerdict, EntryOffset;
    var end := EntryOffset(mem, seg, i, count);
    Stepping(mem, a, seg, item, offset, i, count, compatible);
    if Spoilable(item, Known(mem, seg, offset, end), end - offset, compatible) {
      var bad :| Completes(bad, Known(mem, seg, offset, end), end - offset) && !Valid(item, bad, compatible);
      b := WrittenOutside(a, seg, offset, bad);
      WrittenElement(mem, a, seg, offset, end, bad);
      VerdictExact(b, Between(seg, offset, end), item, compatible);
    } else {
      b := Spoilt(mem, a, seg, item, end, i + 1, count, compatible);
      AcceptanceIsLocal(a, b, Between(seg, offset, end), item, compatible);
    }
    Stepping(mem, b, seg, item, offset, i, count, compatible);
  }

  lemma AroundAhead(mem: Memory, other: Memory, seg: Segment, offset: nat)
    requires offset <= seg.size && Agree(mem, other, Between(seg, offset, seg.size))
    ensures Agree(mem, Around(mem, other, seg), seg) && Ahead(other, Around(mem, other, seg), seg.ptr + offset)
  {
  }

  /** The last element's code is the loop's, in a memory that is as before inside the input. */
  lemma LastElement(mem: Memory, other: Memory, seg: Segment, item: Schema, offset: nat, i: nat, count: nat, compatible: bool)
    requires offset <= seg.size && i >= count && Agree(mem, other, Between(seg, offset, seg.size))
    ensures Agree(mem, Around(mem, other, seg), seg)
    ensures ItemsVerdict(Around(mem, other, seg), seg, item, offset, i, count, compatible) ==
            Verdict(other, Between(seg, offset, seg.size), item, compatible)
  {
    AroundAhead(mem, other, seg, offset);
    hide Ahead, Around, Agree, Verdict;
    VerdictAhead(other, Around(mem, other, seg), Between(seg, offset, seg.size), item, compatible);
  }

  lemma {:induction false} OpenLoop(mem: Memory, seg: Segment, item: Schema, offset: nat, i: nat, count: nat, compatible: bool)
    returns (a: Memory, b: Memory)
    requires TableInside(seg, count) && offset <= seg.size && LoopOpen(mem, seg, item, offset, i, count, compatible)
    ensures Agree(mem, a, seg) && Agree(mem, b, seg)
    ensures ItemsVerdict(a, seg, item, offset, i, count, compatible) != ItemsVerdict(b, seg, item, offset, i, count, compatible)
    decreases item, 2, count - i
  {
    hide ReadNum, Agree, TableInside, AllCompletable, SomeSpoilable, Verdict, ItemsVerdict, EntryOffset;
    if i >= count {
      a, b := OpenCodes(mem, Between(seg, offset, seg.size), item, compatible);
      LastElement(mem, a, seg, item, offset, i, count, compatible);
      LastElement(mem, b, seg, item, offset, i, count, compatible);
      a, b := Around(mem, a, seg), Around(mem, b, seg);
    } else {
      var end := EntryOffset(mem, seg, i, count);
      if end <= seg.size {
        a, b := OpenLoop(mem, seg, item, end, i + 1, count, compatible);
        StillAccepted(mem, a, seg, item, offset, i, count, compatible);
        StillAccepted(mem, b, seg, item, offset, i, count, compatible);
      } else {
        a := Filled(mem, seg, item, offset, i, count, compatible);
        b := Spoilt(mem, a, seg, item, offset, i, count, compatible);
      }
    }
  }

  lemma StillAccepted(mem: Memory, m: Memory, seg: Segment, item: Schema, offset: nat, i: nat, count: nat, compatible: bool)
    requires TableInside(seg, count) && offset <= seg.size && Agree(mem, m, seg) && i < count
    requires var end := EntryOffset(mem, seg, i, count);
             offset <= end <= seg.size && Verdict(mem, Between(seg, offset, end), item, compatible) == Ok
    ensures ItemsVerdict(m, seg, item, offset, i, count, compatible) ==
            ItemsVerdict(m, seg, item, EntryOffset(mem, seg, i, count), i + 1, count, compatible)
  {
    hide ReadNum, Agree, TableInside, EntryOffset;
    var end := EntryOffset(mem, seg, i, count);
    EntryAgrees(mem, m, seg, i, count);
    AgreeBetween(mem, m, seg, offset, end);
    AcceptanceAgrees(mem, m, Between(seg, offset, end), item, compatible);
  }

  lemma VectorVerdict(mem: Memory, m: Memory, seg: Segment, item: Schema, compatible: bool)
    requires Agree(mem, m, seg) && HeaderVerdict(mem, seg) == Ok && seg.size >= ReadNum(mem, seg.ptr + 4)
    ensures TableInside(seg, EntryCount(mem, seg))
    ensures Verdict(m, seg, DynVec(item), compatible) ==
            ItemsVerdict(m, seg, item, ReadNum(mem, seg.ptr + 4), 1, EntryCount(mem, seg), compatible)
  {
    HeaderAgrees(mem, m, seg);
  }

  lemma {:induction false} OpenCodes(mem: Memory, seg: Segment, s: Schema, compatible: bool) returns (a: Memory, b: Memory)
    requires CodeOpen(mem, seg, s, compatible)
    ensures Agree(mem, a, seg) && Agree(mem, b, seg)
    ensures Verdict(a, seg, s, compatible) != Verdict(b, seg, s, compatible)
    decreases s, 1, 0
  {
    match s {
      case Opt(item) => a, b := OpenCodes(mem, seg, item, compatible);
      case DynVec(item) =>
        AgreeSelf(mem, seg);
        VectorVerdict(mem, mem, seg, item, compatible);
        a, b := OpenLoop(mem, seg, item, ReadNum(mem, seg.ptr + 4), 1, EntryCount(mem, seg), compatible);
        VectorVerdict(mem, a, seg, item, compatible);
        VectorVerdict(mem, b, seg, item, compatible);
    }
  }

  /** For every type: bytes outside the input can change the code that its reader reports exactly when the code is open. */
  lemma CodeLocalExactly(mem: Memory, seg: Segment, s: Schema, compatible: bool)
    ensures (exists mem' :: Agree(mem, mem', seg) && Verdict(mem', seg, s, compatible) != Verdict(mem, seg, s, compatible))
            <==> CodeOpen(mem, seg, s, compatible)
  {
    hide Verdict, Agree;
    if CodeOpen(mem, seg, s, compatible) {
      var a, b := OpenCodes(mem, seg, s, compatible);
      assert Verdict(a, seg, s, compatible) != Verdict(mem, seg, s, compatible) || Verdict(b, seg, s, compatible) != Verdict(mem, seg, s, compatible);
    } else {
      forall mem' | Agree(mem, mem', seg) ensures Verdict(mem', seg, s, compatible) == Verdict(mem, seg, s, compatible) {
        ClosedIsLocal(mem, mem', seg, s, compatible);
      }
    }
  }

  // ---- what completing and spoiling come to ----

  /** Tables: parts can be found for the fields, whose layout has the size and begins with the known bytes. */
  lemma TableCompletable(fields: seq<Schema>, known: seq<byte>, size: nat, compatible: bool)
    ensures Completable(Table(fields), known, size, compatible) <==>
            exists parts :: FieldsFit(fields, parts, compatible) && LayoutSize(parts) == size < U32_LIMIT && known <= Layout(parts)
  {
    if Completable(Table(fields), known, size, compatible) {
      var b :| Completes(b, known, size) && Valid(Table(fields), b, compatible);
      LayoutOfSplit(b);
      assert FieldsFit(fields, Split(b), compatible);
    }
    forall parts | FieldsFit(fields, parts, compatible) && LayoutSize(parts) == size < U32_LIMIT && known <= Layout(parts)
      ensures Completable(Table(fields), known, size, compatible)
    {
      SplitOfLayout(parts);
      assert Completes(Layout(parts), known, size) && Valid(Table(fields), Layout(parts), compatible);
    }
  }

  predicate FieldsFit(fields: seq<Schema>, parts: seq<seq<byte>>, compatible: bool) {
    && parts != []
    && (if compatible then |parts| >= |fields| else |parts| == |fields|)
    && forall i :: 0 <= i < |fields| ==> Valid(fields[i], parts[i], compatible)
  }

  lemma {:induction false} DivOfProduct(n: nat, k: nat)
    requires k > 0
    ensures (n * k) / k == n && (n * k) % k == 0
  {
    if n > 0 {
      DivOfProduct(n - 1, k);
      assert n * k == (n - 1) * k + k;
    }
  }

  /** How many `k`-byte items a vector of them has, if it has `size` bytes. */
  predicate ItemCountIs(k: nat, size: nat, n: nat) {
    size == NUM_SIZE + k * n && n < U32_LIMIT
  }

  lemma CountOfValid(k: nat, b: seq<byte>, compatible: bool)
    requires k > 0
    ensures Valid(FixVec(k), b, compatible) <==> |b| >= NUM_SIZE && ItemCountIs(k, |b|, Num(b, 0)) && b[..4] == Pack(Num(b, 0))
  {
    if |b| >= 4 {
      PackOfNum(b, 0);
      NumOfPack(Num(b, 0));
      assert b[0..4] == b[..4];
    }
  }

  lemma ItemCountUnique(k: nat, size: nat, m: nat, n: nat)
    requires k > 0 && ItemCountIs(k, size, m) && ItemCountIs(k, size, n)
    ensures m == n
  {
    DivOfProduct(m, k);
    DivOfProduct(n, k);
    assert m * k == n * k;
  }

  /** Byte strings and other vectors of `k`-byte items: the size names a count, and what is known of the header agrees with it. */
  lemma ItemsCompletable(k: nat, known: seq<byte>, size: nat, compatible: bool)
    requires k > 0 && |known| <= size
    ensures Completable(FixVec(k), known, size, compatible) <==>
            exists n :: ItemCountIs(k, size, n) && forall j :: 0 <= j < |known| && j < 4 ==> known[j] == Pack(n)[j]
  {
    if Completable(FixVec(k), known, size, compatible) {
      var b :| Completes(b, known, size) && Valid(FixVec(k), b, compatible);
      CountOfValid(k, b, compatible);
      var n := Num(b, 0);
      forall j | 0 <= j < |known| && j < 4 ensures known[j] == Pack(n)[j] {
        assert known[j] == b[j] == b[..4][j];
      }
      assert ItemCountIs(k, size, n);
    }
    forall n | ItemCountIs(k, size, n) && forall j :: 0 <= j < |known| && j < 4 ==> known[j] == Pack(n)[j]
      ensures Completable(FixVec(k), known, size, compatible)
    {
      CompletedItems(k, known, size, n, compatible);
    }
  }

  lemma CompletedItems(k: nat, known: seq<byte>, size: nat, n: nat, compatible: bool)
    requires k > 0 && |known| <= size && ItemCountIs(k, size, n)
    requires forall j :: 0 <= j < |known| && j < 4 ==> known[j] == Pack(n)[j]
    ensures Completable(FixVec(k), known, size, compatible)
  {
    NumOfPack(n);
    var b := seq(size, i requires 0 <= i < size => if i < |known| then known[i] else if i < 4 then Pack(n)[i] else 0);
    assert b[..4] == Pack(n);
    NumOfPrefix(b, n);
    assert Completes(b, known, size) && Valid(FixVec(k), b, compatible);
  }

  lemma NumOfPrefix(b: seq<byte>, n: nat)
    requires |b| >= 4 && n < U32_LIMIT && b[..4] == Pack(n)
    ensures Num(b, 0) == n
  {
    NumOfPack(n);
    assert Num(b[..4], 0) == Num(b, 0);
  }

  /** Of those that can be completed, the ones that can be spoilt are the ones whose header is not all known. */
  lemma ItemsSpoilable(k: nat, known: seq<byte>, size: nat, compatible: bool)
    requires k > 0 && Completable(FixVec(k), known, size, compatible)
    ensures Spoilable(FixVec(k), known, size, compatible) <==> |known| < 4
  {
    var good :| Completes(good, known, size) && Valid(FixVec(k), good, compatible);
    CountOfValid(k, good, compatible);
    if |known| < 4 {
      var bad := good[3 := if good[3] == 0 then 1 else 0];
      assert Num(bad, 0) != Num(good, 0);
      if Valid(FixVec(k), bad, compatible) {
        CountOfValid(k, bad, compatible);
        ItemCountUnique(k, size, Num(good, 0), Num(bad, 0));
        assert false;
      }
      assert Completes(bad, known, size);
    } else {
      forall b | Completes(b, known, size) ensures Valid(FixVec(k), b, compatible) {
        assert b[..4] == known[..4] == good[..4];
        assert Num(b, 0) == Num(b[..4], 0) && Num(good, 0) == Num(good[..4], 0);
      }
    }
  }
}
