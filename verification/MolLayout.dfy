/**
 Little-endian 32-bit numbers and the offset-table layout that Molecule
 tables and dynamic vectors share: the total size, one offset per part, then
 the parts back to back.
 */
module MolLayout {
  import opened Octet
  import opened Seqs

  const NUM_SIZE := 4
  const U32_LIMIT := 0x1_0000_0000

  /** The four bytes of a 32-bit number, lowest first. */
  function Pack(n: nat): (b: seq<byte>)
    ensures |b| == NUM_SIZE
  {
    [n % 256, n / 0x100 % 256, n / 0x1_0000 % 256, n / 0x100_0000 % 256]
  }

  /** The 32-bit number stored at position `p`. */
  function Num(b: seq<byte>, p: nat): (n: nat)
    requires p + NUM_SIZE <= |b|
    ensures n < U32_LIMIT
  {
    var (b0: int, b1: int, b2: int, b3: int) := (b[p], b[p + 1], b[p + 2], b[p + 3]);
    b0 + 0x100 * b1 + 0x1_0000 * b2 + 0x100_0000 * b3
  }

  lemma NumOfPack(n: nat)
    requires n < U32_LIMIT
    ensures Num(Pack(n), 0) == n
  {
    assert n / 0x100_0000 < 256;
    assert n == n % 256 + 0x100 * (n / 0x100);
    assert n / 0x100 == n / 0x100 % 256 + 0x100 * (n / 0x1_0000);
    assert n / 0x1_0000 == n / 0x1_0000 % 256 + 0x100 * (n / 0x100_0000);
  }

  lemma PackOfNum(b: seq<byte>, p: nat)
    requires p + NUM_SIZE <= |b|
    ensures Pack(Num(b, p)) == b[p..p + NUM_SIZE]
  {
    var n := Num(b, p);
    var b0: int, b1: int, b2: int, b3: int := b[p], b[p + 1], b[p + 2], b[p + 3];
    assert n / 0x100 == b1 + 0x100 * b2 + 0x1_0000 * b3;
    assert n / 0x1_0000 == b2 + 0x100 * b3;
    assert n / 0x100_0000 == b3;
  }

  /** The offsets of `parts` when the first one starts at `start`. */
  function OffsetTable(parts: seq<seq<byte>>, start: nat): (t: seq<byte>)
    ensures |t| == 4 * |parts|
  {
    if parts == [] then [] else Pack(start) + OffsetTable(parts[1..], start + |parts[0]|)
  }

  function HeaderSize(count: nat): nat {
    4 * count + 4
  }

  function LayoutSize(parts: seq<seq<byte>>): nat {
    HeaderSize(|parts|) + |Flatten(parts)|
  }

  function Layout(parts: seq<seq<byte>>): (b: seq<byte>)
    ensures |b| == LayoutSize(parts)
  {
    Pack(LayoutSize(parts)) + OffsetTable(parts, HeaderSize(|parts|)) + Flatten(parts)
  }

  /** The number of parts that the first offset announces. */
  function Count(b: seq<byte>): (n: int)
    requires |b| >= 8
    ensures Num(b, NUM_SIZE) % 4 == 0 && Num(b, NUM_SIZE) >= 8 ==> n >= 1 && HeaderSize(n) == Num(b, NUM_SIZE)
  {
    Num(b, NUM_SIZE) / 4 - 1
  }

  /** The header fits: sizes agree and the first offset ends the offset table. */
  predicate HeaderOk(b: seq<byte>) {
    && |b| >= 8
    && Num(b, 0) == |b|
    && Num(b, NUM_SIZE) % 4 == 0
    && 8 <= Num(b, NUM_SIZE) <= |b|
  }

  /** Offset number `i`; one past the last is the total size. */
  function Offset(b: seq<byte>, i: nat): nat
    requires HeaderOk(b) && i <= Count(b)
  {
    if i == Count(b) then |b| else Num(b, HeaderSize(i))
  }

  predicate LayoutOk(b: seq<byte>) {
    && HeaderOk(b)
    && forall i :: 0 <= i < Count(b) ==> Offset(b, i) <= Offset(b, i + 1)
  }

  lemma {:induction false} OffsetInside(b: seq<byte>, i: nat)
    requires LayoutOk(b) && i <= Count(b)
    ensures Offset(b, i) <= |b|
    decreases Count(b) - i
  {
    if i < Count(b) {
      OffsetInside(b, i + 1);
    }
  }

  function Part(b: seq<byte>, i: nat): seq<byte>
    requires LayoutOk(b) && i < Count(b)
  {
    OffsetInside(b, i + 1);
    b[Offset(b, i)..Offset(b, i + 1)]
  }

  function Split(b: seq<byte>): (parts: seq<seq<byte>>)
    requires LayoutOk(b)
    ensures |parts| == Count(b)
  {
    seq(Count(b), i requires 0 <= i < Count(b) => Part(b, i))
  }

  // ---- a well-formed byte string is the layout of its parts ----

  lemma {:induction false} FlattenOfSplit(b: seq<byte>, k: nat)
    requires LayoutOk(b) && k <= Count(b)
    ensures Offset(b, k) <= |b|
    ensures Flatten(Split(b)[k..]) == b[Offset(b, k)..]
    decreases Count(b) - k
  {
    OffsetInside(b, k);
    if k < Count(b) {
      FlattenOfSplit(b, k + 1);
      assert Split(b)[k..][1..] == Split(b)[k + 1..];
    }
  }

  lemma {:induction false} TableOfSplit(b: seq<byte>, k: nat)
    requires LayoutOk(b) && k <= Count(b)
    ensures OffsetTable(Split(b)[k..], Offset(b, k)) == b[HeaderSize(k)..HeaderSize(Count(b))]
    decreases Count(b) - k
  {
    if k < Count(b) {
      TableOfSplit(b, k + 1);
      assert Split(b)[k..][1..] == Split(b)[k + 1..];
      assert Split(b)[k..][0] == Part(b, k);
      OffsetInside(b, k + 1);
      PackOfNum(b, HeaderSize(k));
      var end := HeaderSize(Count(b));
      assert b[HeaderSize(k)..end] == b[HeaderSize(k)..HeaderSize(k) + 4] + b[HeaderSize(k + 1)..end];
    }
  }

  lemma LayoutOfSplit(b: seq<byte>)
    requires LayoutOk(b)
    ensures Layout(Split(b)) == b
  {
    FlattenOfSplit(b, 0);
    TableOfSplit(b, 0);
    assert Split(b)[0..] == Split(b);
    PackOfNum(b, 0);
    assert b[0..4] + b[4..HeaderSize(Count(b))] + b[HeaderSize(Count(b))..] == b;
  }

  // ---- the layout of parts is well formed and splits into them ----

  lemma FlattenNext(parts: seq<seq<byte>>, i: nat)
    requires i < |parts|
    ensures Flatten(parts[..i + 1]) == Flatten(parts[..i]) + parts[i]
  {
    assert parts[..i + 1] == parts[..i] + [parts[i]];
    FlattenAppend(parts[..i], [parts[i]]);
  }

  lemma FlattenAt(parts: seq<seq<byte>>, i: nat)
    requires i < |parts|
    ensures Flatten(parts) == Flatten(parts[..i]) + parts[i] + Flatten(parts[i + 1..])
    ensures Flatten(parts[..i + 1]) == Flatten(parts[..i]) + parts[i]
  {
    assert parts == parts[..i + 1] + parts[i + 1..];
    FlattenAppend(parts[..i + 1], parts[i + 1..]);
    FlattenNext(parts, i);
  }

  lemma {:induction false} OffsetTableAt(parts: seq<seq<byte>>, start: nat, i: nat)
    requires i < |parts| && start + |Flatten(parts)| < U32_LIMIT
    ensures Num(OffsetTable(parts, start), 4 * i) == start + |Flatten(parts[..i])|
  {
    var rest := OffsetTable(parts[1..], start + |parts[0]|);
    assert OffsetTable(parts, start) == Pack(start) + rest;
    if i == 0 {
      NumOfPack(start);
    } else {
      OffsetTableAt(parts[1..], start + |parts[0]|, i - 1);
      assert parts[..i][1..] == parts[1..][..i - 1];
      assert Num(rest, 4 * (i - 1)) == Num(OffsetTable(parts, start), 4 * i);
    }
  }

  lemma TableOfLayout(parts: seq<seq<byte>>, i: nat)
    requires i < |parts| && LayoutSize(parts) < U32_LIMIT
    ensures Num(Layout(parts), 0) == LayoutSize(parts)
    ensures Num(Layout(parts), HeaderSize(i)) == HeaderSize(|parts|) + |Flatten(parts[..i])|
  {
    var size, table := Pack(LayoutSize(parts)), OffsetTable(parts, HeaderSize(|parts|));
    NumOfPack(LayoutSize(parts));
    OffsetTableAt(parts, HeaderSize(|parts|), i);
  }

  lemma HeaderOfLayout(parts: seq<seq<byte>>)
    requires 1 <= |parts| && LayoutSize(parts) < U32_LIMIT
    ensures HeaderOk(Layout(parts)) && Count(Layout(parts)) == |parts|
  {
    TableOfLayout(parts, 0);
    assert parts[..0] == [];
    var first := 4 * |parts| + 4;
    assert Num(Layout(parts), NUM_SIZE) == first;
    assert first % 4 == 0 && first / 4 == |parts| + 1;
  }

  lemma OffsetOfLayout(parts: seq<seq<byte>>, i: nat)
    requires 1 <= |parts| && i <= |parts| && LayoutSize(parts) < U32_LIMIT
    ensures HeaderOk(Layout(parts)) && Count(Layout(parts)) == |parts|
    ensures Offset(Layout(parts), i) == HeaderSize(|parts|) + |Flatten(parts[..i])|
  {
    HeaderOfLayout(parts);
    if i == |parts| {
      assert parts[..i] == parts;
    } else {
      TableOfLayout(parts, i);
    }
  }

  lemma LayoutIsOk(parts: seq<seq<byte>>)
    requires 1 <= |parts| && LayoutSize(parts) < U32_LIMIT
    ensures LayoutOk(Layout(parts)) && Count(Layout(parts)) == |parts|
  {
    var b := Layout(parts);
    OffsetOfLayout(parts, 0);
    forall i | 0 <= i < |parts|
      ensures Offset(b, i) <= Offset(b, i + 1)
    {
      OffsetOfLayout(parts, i);
      OffsetOfLayout(parts, i + 1);
      FlattenAt(parts, i);
    }
  }

  lemma PartOfLayout(parts: seq<seq<byte>>, i: nat)
    requires i < |parts| && LayoutSize(parts) < U32_LIMIT
    ensures LayoutOk(Layout(parts)) && Count(Layout(parts)) == |parts|
    ensures Part(Layout(parts), i) == parts[i]
  {
    LayoutIsOk(parts);
    OffsetOfLayout(parts, i);
    OffsetOfLayout(parts, i + 1);
    FlattenAt(parts, i);
    var before := Pack(LayoutSize(parts)) + OffsetTable(parts, HeaderSize(|parts|)) + Flatten(parts[..i]);
    assert Layout(parts) == before + parts[i] + Flatten(parts[i + 1..]);
  }

  /** A layout splits into exactly the parts it was made of. */
  lemma SplitOfLayout(parts: seq<seq<byte>>)
    requires 1 <= |parts| && LayoutSize(parts) < U32_LIMIT
    ensures LayoutOk(Layout(parts)) && Split(Layout(parts)) == parts
  {
    LayoutIsOk(parts);
    forall i | 0 <= i < |parts|
      ensures Part(Layout(parts), i) == parts[i]
    {
      PartOfLayout(parts, i);
    }
  }
}
