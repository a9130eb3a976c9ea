/**
 The chain types of the generated header, their default tables, and what the
 generic results say about them.
 */
module MolBlockchain {
  import opened Octet
  import opened Seqs
  import opened MolLayout
  import opened MolSchema
  import opened MolExact
  import opened MolReader
  import opened MolBuilder

  const UINT32 := Fixed(4)
  const UINT64 := Fixed(8)
  const BYTE32 := Fixed(32)
  const PROPOSAL_SHORT_ID := Fixed(10)
  const CELL_DEP := Fixed(37)
  const CELL_INPUT := Fixed(44)
  const HEADER := Fixed(208)
  const BYTES := FixVec(1)
  const BYTES_OPT := Opt(BYTES)
  const BYTES_VEC := DynVec(BYTES)
  const BYTE32_VEC := FixVec(32)
  const PROPOSAL_SHORT_ID_VEC := FixVec(10)
  const CELL_DEP_VEC := FixVec(37)
  const CELL_INPUT_VEC := FixVec(44)
  const SCRIPT := Table([BYTE32, Fixed(1), BYTES])
  const SCRIPT_OPT := Opt(SCRIPT)
  const CELL_OUTPUT := Table([UINT64, SCRIPT, SCRIPT_OPT])
  const CELL_OUTPUT_VEC := DynVec(CELL_OUTPUT)
  const RAW_TRANSACTION := Table([UINT32, CELL_DEP_VEC, BYTE32_VEC, CELL_INPUT_VEC, CELL_OUTPUT_VEC, BYTES_VEC])
  const TRANSACTION := Table([RAW_TRANSACTION, BYTES_VEC])
  const TRANSACTION_VEC := DynVec(TRANSACTION)
  const UNCLE_BLOCK := Table([HEADER, PROPOSAL_SHORT_ID_VEC])
  const UNCLE_BLOCK_VEC := DynVec(UNCLE_BLOCK)
  const BLOCK := Table([HEADER, UNCLE_BLOCK_VEC, TRANSACTION_VEC, PROPOSAL_SHORT_ID_VEC])
  const CELLBASE_WITNESS := Table([SCRIPT, BYTES])
  const WITNESS_ARGS := Table([BYTES_OPT, BYTES_OPT, BYTES_OPT])

  function Zeros(n: nat): (b: seq<byte>)
    ensures |b| == n
  {
    seq(n, _ => 0)
  }

  const EMPTY_FIX_VEC: seq<byte> := [0, 0, 0, 0]
  const EMPTY_DYN_VEC: seq<byte> := [0x04, 0, 0, 0]
  const DEFAULT_SCRIPT: seq<byte> :=
    [0x35, 0, 0, 0, 0x10, 0, 0, 0, 0x30, 0, 0, 0, 0x31, 0, 0, 0] + Zeros(37)
  const DEFAULT_CELL_OUTPUT: seq<byte> :=
    [0x4d, 0, 0, 0, 0x10, 0, 0, 0, 0x18, 0, 0, 0, 0x4d, 0, 0, 0] + Zeros(8) + DEFAULT_SCRIPT
  const DEFAULT_RAW_TRANSACTION: seq<byte> :=
    [0x34, 0, 0, 0, 0x1c, 0, 0, 0, 0x20, 0, 0, 0, 0x24, 0, 0, 0, 0x28, 0, 0, 0, 0x2c, 0, 0, 0, 0x30, 0, 0, 0]
    + Zeros(16) + [0x04, 0, 0, 0, 0x04, 0, 0, 0]
  const DEFAULT_TRANSACTION: seq<byte> :=
    [0x44, 0, 0, 0, 0x0c, 0, 0, 0, 0x40, 0, 0, 0] + DEFAULT_RAW_TRANSACTION + [0x04, 0, 0, 0]
  const DEFAULT_UNCLE_BLOCK: seq<byte> :=
    [0xe0, 0, 0, 0, 0x0c, 0, 0, 0, 0xdc, 0, 0, 0] + Zeros(212)
  const DEFAULT_BLOCK: seq<byte> :=
    [0xf0, 0, 0, 0, 0x14, 0, 0, 0, 0xe4, 0, 0, 0, 0xe8, 0, 0, 0, 0xec, 0, 0, 0]
    + Zeros(208) + [0x04, 0, 0, 0, 0x04, 0, 0, 0, 0, 0, 0, 0]
  const DEFAULT_CELLBASE_WITNESS: seq<byte> :=
    [0x45, 0, 0, 0, 0x0c, 0, 0, 0, 0x41, 0, 0, 0] + DEFAULT_SCRIPT + [0, 0, 0, 0]
  const DEFAULT_WITNESS_ARGS: seq<byte> :=
    [0x10, 0, 0, 0, 0x10, 0, 0, 0, 0x10, 0, 0, 0, 0x10, 0, 0, 0]

  /** What each builder copies for a field that was not set. */
  const SCRIPT_FIELDS: seq<seq<byte>> := [Zeros(32), [0], EMPTY_FIX_VEC]
  const CELL_OUTPUT_FIELDS: seq<seq<byte>> := [Zeros(8), DEFAULT_SCRIPT, []]
  const RAW_TRANSACTION_FIELDS: seq<seq<byte>> :=
    [Zeros(4), EMPTY_FIX_VEC, EMPTY_FIX_VEC, EMPTY_FIX_VEC, EMPTY_DYN_VEC, EMPTY_DYN_VEC]
  const TRANSACTION_FIELDS: seq<seq<byte>> := [DEFAULT_RAW_TRANSACTION, EMPTY_DYN_VEC]
  const UNCLE_BLOCK_FIELDS: seq<seq<byte>> := [Zeros(208), EMPTY_FIX_VEC]
  const BLOCK_FIELDS: seq<seq<byte>> := [Zeros(208), EMPTY_DYN_VEC, EMPTY_DYN_VEC, EMPTY_FIX_VEC]
  const CELLBASE_WITNESS_FIELDS: seq<seq<byte>> := [DEFAULT_SCRIPT, EMPTY_FIX_VEC]
  const WITNESS_ARGS_FIELDS: seq<seq<byte>> := [[], [], []]

  lemma ChainTypesWellFormed()
    ensures WellFormed(BLOCK) && WellFormed(TRANSACTION) && WellFormed(RAW_TRANSACTION)
    ensures WellFormed(CELL_OUTPUT) && WellFormed(SCRIPT) && WellFormed(UNCLE_BLOCK)
    ensures WellFormed(CELLBASE_WITNESS) && WellFormed(WITNESS_ARGS)
    ensures WellFormed(SCRIPT_OPT) && WellFormed(BYTES_OPT) && WellFormed(BYTES_VEC)
  {
    assert WellFormed(SCRIPT);
    assert WellFormed(CELL_OUTPUT_VEC);
    assert WellFormed(RAW_TRANSACTION);
    assert WellFormed(TRANSACTION_VEC);
    assert WellFormed(UNCLE_BLOCK_VEC);
  }

  /** A strict reader accepts a segment exactly when it holds the encoding of some value, and of one only. */
  lemma StrictReaderIsExact(mem: Memory, seg: Segment, s: Schema)
    requires WellFormed(s) && seg.size < U32_LIMIT
    ensures Verdict(mem, seg, s, false) == Ok <==> exists v :: HasType(s, v) && Encode(s, v) == Bytes(mem, seg)
    ensures forall v, w | HasType(s, v) && HasType(s, w) && Encode(s, v) == Bytes(mem, seg) == Encode(s, w) :: v == w
  {
    VerdictExact(mem, seg, s, false);
    StrictIsEncoderImage(s, Bytes(mem, seg));
  }

  /** A compatible reader's input, cut to its known fields, is what a strict reader accepts with the same value. */
  lemma CompatibleReaderIsConservative(mem: Memory, seg: Segment, cut: Segment, s: Schema)
    requires WellFormed(s) && seg.size < U32_LIMIT
    ensures Verdict(mem, seg, s, false) == Ok ==> Verdict(mem, seg, s, true) == Ok
    ensures Verdict(mem, seg, s, true) == Ok ==>
              && Valid(s, Bytes(mem, seg), true)
              && (Bytes(mem, cut) == Trim(s, Bytes(mem, seg)) ==>
                    && Verdict(mem, cut, s, false) == Ok
                    && Valid(s, Bytes(mem, cut), false)
                    && Decode(s, Bytes(mem, cut), false) == Decode(s, Bytes(mem, seg), true))
  {
    VerdictExact(mem, seg, s, false);
    VerdictExact(mem, seg, s, true);
    VerdictExact(mem, cut, s, false);
    StrictIsTrimmedCompatible(s, Bytes(mem, seg));
    if Valid(s, Bytes(mem, seg), true) {
      TrimIsStrict(s, Bytes(mem, seg));
    }
  }

  // ---- the default tables are what the untouched builders produce ----

  lemma Peel(a: seq<byte>, rest: seq<seq<byte>>, start: nat)
    ensures Flatten([a] + rest) == a + Flatten(rest)
    ensures OffsetTable([a] + rest, start) == Pack(start) + OffsetTable(rest, start + |a|)
  {
    assert ([a] + rest)[1..] == rest;
  }

  lemma LayoutOf2(a: seq<byte>, b: seq<byte>)
    ensures Layout([a, b]) == Pack(12 + |a| + |b|) + Pack(12) + Pack(12 + |a|) + a + b
  {
    Peel(b, [], 12 + |a|);
    Peel(a, [b], 12);
    assert [b] + [] == [b] && [a] + [b] == [a, b];
  }

  lemma TailOf3(a: seq<byte>, b: seq<byte>, c: seq<byte>, start: nat)
    ensures Flatten([a, b, c]) == a + b + c
    ensures OffsetTable([a, b, c], start) == Pack(start) + Pack(start + |a|) + Pack(start + |a| + |b|)
  {
    Peel(c, [], start + |a| + |b|);
    Peel(b, [c], start + |a|);
    Peel(a, [b, c], start);
    assert [c] + [] == [c] && [b] + [c] == [b, c] && [a] + [b, c] == [a, b, c];
  }

  lemma LayoutOf3(a: seq<byte>, b: seq<byte>, c: seq<byte>)
    ensures Layout([a, b, c])
         == Pack(16 + |a| + |b| + |c|) + Pack(16) + Pack(16 + |a|) + Pack(16 + |a| + |b|) + a + b + c
  {
    TailOf3(a, b, c, 16);
  }

  lemma DefaultScript()
    ensures Layout(SCRIPT_FIELDS) == DEFAULT_SCRIPT
  {
    LayoutOf3(Zeros(32), [0], EMPTY_FIX_VEC);
  }

  lemma DefaultCellOutput()
    ensures Layout(CELL_OUTPUT_FIELDS) == DEFAULT_CELL_OUTPUT
  {
    LayoutOf3(Zeros(8), DEFAULT_SCRIPT, []);
  }

  lemma RawTransactionTail(start: nat)
    ensures Flatten(RAW_TRANSACTION_FIELDS[2..]) == Zeros(8) + [0x04, 0, 0, 0, 0x04, 0, 0, 0]
    ensures OffsetTable(RAW_TRANSACTION_FIELDS[2..], start) == Pack(start) + Pack(start + 4) + Pack(start + 8) + Pack(start + 12)
  {
    var f, d := EMPTY_FIX_VEC, EMPTY_DYN_VEC;
    TailOf3(f, d, d, start + 4);
    Peel(f, [f, d, d], start);
    assert [f] + [f, d, d] == RAW_TRANSACTION_FIELDS[2..];
  }

  lemma RawTransactionParts()
    ensures Flatten(RAW_TRANSACTION_FIELDS) == Zeros(16) + [0x04, 0, 0, 0, 0x04, 0, 0, 0]
    ensures OffsetTable(RAW_TRANSACTION_FIELDS, 28)
         == Pack(28) + (Pack(32) + (Pack(36) + Pack(40) + Pack(44) + Pack(48)))
  {
    var tail := RAW_TRANSACTION_FIELDS[2..];
    RawTransactionTail(36);
    Peel(EMPTY_FIX_VEC, tail, 32);
    Peel(Zeros(4), [EMPTY_FIX_VEC] + tail, 28);
    assert [Zeros(4)] + ([EMPTY_FIX_VEC] + tail) == RAW_TRANSACTION_FIELDS;
  }

  lemma DefaultRawTransaction()
    ensures Layout(RAW_TRANSACTION_FIELDS) == DEFAULT_RAW_TRANSACTION
  {
    RawTransactionParts();
  }

  lemma DefaultTransaction()
    ensures Layout(TRANSACTION_FIELDS) == DEFAULT_TRANSACTION
  {
    LayoutOf2(DEFAULT_RAW_TRANSACTION, EMPTY_DYN_VEC);
  }

  lemma DefaultUncleBlock()
    ensures Layout(UNCLE_BLOCK_FIELDS) == DEFAULT_UNCLE_BLOCK
  {
    LayoutOf2(Zeros(208), EMPTY_FIX_VEC);
  }

  lemma DefaultBlock()
    ensures Layout(BLOCK_FIELDS) == DEFAULT_BLOCK
  {
    var h, f, d := Zeros(208), EMPTY_FIX_VEC, EMPTY_DYN_VEC;
    TailOf3(d, d, f, 228);
    Peel(h, [d, d, f], 20);
    assert [h] + [d, d, f] == BLOCK_FIELDS;
  }

  lemma DefaultCellbaseWitness()
    ensures Layout(CELLBASE_WITNESS_FIELDS) == DEFAULT_CELLBASE_WITNESS
  {
    LayoutOf2(DEFAULT_SCRIPT, EMPTY_FIX_VEC);
  }

  lemma DefaultWitnessArgs()
    ensures Layout(WITNESS_ARGS_FIELDS) == DEFAULT_WITNESS_ARGS
  {
    LayoutOf3([], [], []);
  }

  // ---- and they are strictly valid ----

  lemma LayoutValid(fields: seq<Schema>, parts: seq<seq<byte>>)
    requires |parts| == |fields| && fields != [] && LayoutSize(parts) < U32_LIMIT
    requires forall i :: 0 <= i < |fields| ==> Valid(fields[i], parts[i], false)
    ensures Valid(Table(fields), Layout(parts), false)
  {
    SplitOfLayout(parts);
    forall i | 0 <= i < |fields| ensures Valid(fields[i], Part(Layout(parts), i), false) {
      assert Split(Layout(parts))[i] == parts[i];
    }
  }

  lemma DefaultScriptValid()
    ensures Valid(SCRIPT, DEFAULT_SCRIPT, false)
  {
    DefaultScript();
    LayoutValid([BYTE32, Fixed(1), BYTES], SCRIPT_FIELDS);
  }

  lemma DefaultCellOutputValid()
    ensures Valid(CELL_OUTPUT, DEFAULT_CELL_OUTPUT, false)
  {
    DefaultScriptValid();
    DefaultCellOutput();
    LayoutValid([UINT64, SCRIPT, SCRIPT_OPT], CELL_OUTPUT_FIELDS);
  }

  lemma DefaultWitnessesValid()
    ensures Valid(CELLBASE_WITNESS, DEFAULT_CELLBASE_WITNESS, false)
    ensures Valid(WITNESS_ARGS, DEFAULT_WITNESS_ARGS, false)
  {
    DefaultScriptValid();
    DefaultCellbaseWitness();
    LayoutValid([SCRIPT, BYTES], CELLBASE_WITNESS_FIELDS);
    DefaultWitnessArgs();
    LayoutValid([BYTES_OPT, BYTES_OPT, BYTES_OPT], WITNESS_ARGS_FIELDS);
  }

  lemma DefaultTransactionsValid()
    ensures Valid(RAW_TRANSACTION, DEFAULT_RAW_TRANSACTION, false) && Valid(TRANSACTION, DEFAULT_TRANSACTION, false)
  {
    DefaultRawTransaction();
    LayoutValid([UINT32, CELL_DEP_VEC, BYTE32_VEC, CELL_INPUT_VEC, CELL_OUTPUT_VEC, BYTES_VEC], RAW_TRANSACTION_FIELDS);
    DefaultTransaction();
    LayoutValid([RAW_TRANSACTION, BYTES_VEC], TRANSACTION_FIELDS);
  }

  lemma DefaultBlocksValid()
    ensures Valid(UNCLE_BLOCK, DEFAULT_UNCLE_BLOCK, false) && Valid(BLOCK, DEFAULT_BLOCK, false)
  {
    DefaultUncleBlock();
    LayoutValid([HEADER, PROPOSAL_SHORT_ID_VEC], UNCLE_BLOCK_FIELDS);
    DefaultBlock();
    LayoutValid([HEADER, UNCLE_BLOCK_VEC, TRANSACTION_VEC, PROPOSAL_SHORT_ID_VEC], BLOCK_FIELDS);
  }
}
