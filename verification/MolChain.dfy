/**
 The chain's own records (scripts, cells, transactions, blocks, witnesses) as
 the accessors see them, and that the strict readers accept exactly their
 bytes.
 */
module MolChain {
  import opened Octet
  import opened Options
  import opened Seqs
  import opened MolLayout
  import opened MolSchema
  import opened MolExact
  import opened MolBlockchain

  // ---- records, with the sizes that their accessors give ----

  datatype OutPoint = OutPoint(txHash: seq<byte>, index: seq<byte>)

  datatype CellDep = CellDep(outPoint: OutPoint, depType: seq<byte>)

  datatype CellInput = CellInput(since: seq<byte>, previousOutput: OutPoint)

  datatype Script = Script(codeHash: seq<byte>, hashType: seq<byte>, args: seq<byte>)

  datatype CellOutput = CellOutput(capacity: seq<byte>, lock: Script, type_: Option<Script>)

  datatype RawTransaction = RawTransaction(
    version: seq<byte>, cellDeps: seq<CellDep>, headerDeps: seq<seq<byte>>, inputs: seq<CellInput>,
    outputs: seq<CellOutput>, outputsData: seq<seq<byte>>)

  datatype Transaction = Transaction(raw: RawTransaction, witnesses: seq<seq<byte>>)

  datatype RawHeader = RawHeader(
    version: seq<byte>, compactTarget: seq<byte>, timestamp: seq<byte>, number: seq<byte>, epoch: seq<byte>,
    parentHash: seq<byte>, transactionsRoot: seq<byte>, proposalsHash: seq<byte>, unclesHash: seq<byte>, dao: seq<byte>)

  datatype Header = Header(raw: RawHeader, nonce: seq<byte>)

  datatype UncleBlock = UncleBlock(header: Header, proposals: seq<seq<byte>>)

  datatype Block = Block(header: Header, uncles: seq<UncleBlock>, transactions: seq<Transaction>, proposals: seq<seq<byte>>)

  datatype CellbaseWitness = CellbaseWitness(lock: Script, message: seq<byte>)

  datatype WitnessArgs = WitnessArgs(lock: Option<seq<byte>>, inputType: Option<seq<byte>>, outputType: Option<seq<byte>>)

  predicate Sized(items: seq<seq<byte>>, size: nat) {
    forall i :: 0 <= i < |items| ==> |items[i]| == size
  }

  predicate OutPointOk(x: OutPoint) {
    |x.txHash| == 32 && |x.index| == 4
  }

  predicate CellDepOk(x: CellDep) {
    OutPointOk(x.outPoint) && |x.depType| == 1
  }

  predicate CellInputOk(x: CellInput) {
    |x.since| == 8 && OutPointOk(x.previousOutput)
  }

  predicate ScriptOk(x: Script) {
    |x.codeHash| == 32 && |x.hashType| == 1
  }

  predicate CellOutputOk(x: CellOutput) {
    |x.capacity| == 8 && ScriptOk(x.lock) && (x.type_.Some? ==> ScriptOk(x.type_.value))
  }

  predicate AllDepsOk(xs: seq<CellDep>) {
    forall i :: 0 <= i < |xs| ==> CellDepOk(xs[i])
  }

  predicate AllInputsOk(xs: seq<CellInput>) {
    forall i :: 0 <= i < |xs| ==> CellInputOk(xs[i])
  }

  predicate AllOutputsOk(xs: seq<CellOutput>) {
    forall i :: 0 <= i < |xs| ==> CellOutputOk(xs[i])
  }

  predicate RawTransactionOk(x: RawTransaction) {
    && |x.version| == 4 && Sized(x.headerDeps, 32)
    && AllDepsOk(x.cellDeps) && AllInputsOk(x.inputs) && AllOutputsOk(x.outputs)
  }

  predicate TransactionOk(x: Transaction) {
    RawTransactionOk(x.raw)
  }

  predicate RawHeaderOk(x: RawHeader) {
    && |x.version| == 4 && |x.compactTarget| == 4 && |x.timestamp| == 8 && |x.number| == 8 && |x.epoch| == 8
    && |x.parentHash| == 32 && |x.transactionsRoot| == 32 && |x.proposalsHash| == 32 && |x.unclesHash| == 32 && |x.dao| == 32
  }

  predicate HeaderOk(x: Header) {
    RawHeaderOk(x.raw) && |x.nonce| == 16
  }

  predicate UncleBlockOk(x: UncleBlock) {
    HeaderOk(x.header) && Sized(x.proposals, 10)
  }

  predicate AllUnclesOk(xs: seq<UncleBlock>) {
    forall i :: 0 <= i < |xs| ==> UncleBlockOk(xs[i])
  }

  predicate AllTransactionsOk(xs: seq<Transaction>) {
    forall i :: 0 <= i < |xs| ==> TransactionOk(xs[i])
  }

  predicate BlockOk(x: Block) {
    && HeaderOk(x.header) && Sized(x.proposals, 10)
    && AllUnclesOk(x.uncles) && AllTransactionsOk(x.transactions)
  }

  predicate CellbaseWitnessOk(x: CellbaseWitness) {
    ScriptOk(x.lock)
  }

  // ---- their bytes ----

  /** The bytes of each record of a vector. */
  function Each<X>(f: X -> seq<byte>, xs: seq<X>): (parts: seq<seq<byte>>)
    ensures |parts| == |xs| && forall i :: 0 <= i < |xs| ==> parts[i] == f(xs[i])
  {
    seq(|xs|, i requires 0 <= i < |xs| => f(xs[i]))
  }

  /** A vector of items of one size: their number and the items. */
  function Counted(items: seq<seq<byte>>): seq<byte> {
    Pack(|items|) + Flatten(items)
  }

  /** A byte string: its length and itself. */
  function Prefixed(b: seq<byte>): seq<byte> {
    Pack(|b|) + b
  }

  function PrefixedOpt(b: Option<seq<byte>>): seq<byte> {
    if b.Some? then Prefixed(b.value) else []
  }

  function OutPointBytes(x: OutPoint): seq<byte> {
    x.txHash + x.index
  }

  function CellDepBytes(x: CellDep): seq<byte> {
    OutPointBytes(x.outPoint) + x.depType
  }

  function CellInputBytes(x: CellInput): seq<byte> {
    x.since + OutPointBytes(x.previousOutput)
  }

  function ScriptBytes(x: Script): seq<byte> {
    Layout([x.codeHash, x.hashType, Prefixed(x.args)])
  }

  function ScriptOptBytes(x: Option<Script>): seq<byte> {
    if x.Some? then ScriptBytes(x.value) else []
  }

  function CellOutputBytes(x: CellOutput): seq<byte> {
    Layout([x.capacity, ScriptBytes(x.lock), ScriptOptBytes(x.type_)])
  }

  function RawTransactionParts(x: RawTransaction): seq<seq<byte>> {
    [ x.version, Counted(Each(CellDepBytes, x.cellDeps)), Counted(x.headerDeps), Counted(Each(CellInputBytes, x.inputs)),
      Layout(Each(CellOutputBytes, x.outputs)), Layout(Each(Prefixed, x.outputsData)) ]
  }

  function RawTransactionBytes(x: RawTransaction): seq<byte> {
    Layout(RawTransactionParts(x))
  }

  function TransactionBytes(x: Transaction): seq<byte> {
    Layout([RawTransactionBytes(x.raw), Layout(Each(Prefixed, x.witnesses))])
  }

  function RawHeaderBytes(x: RawHeader): seq<byte> {
    x.version + x.compactTarget + x.timestamp + x.number + x.epoch
    + x.parentHash + x.transactionsRoot + x.proposalsHash + x.unclesHash + x.dao
  }

  function HeaderBytes(x: Header): seq<byte> {
    RawHeaderBytes(x.raw) + x.nonce
  }

  function UncleBlockBytes(x: UncleBlock): seq<byte> {
    Layout([HeaderBytes(x.header), Counted(x.proposals)])
  }

  function BlockParts(x: Block): seq<seq<byte>> {
    [ HeaderBytes(x.header), Layout(Each(UncleBlockBytes, x.uncles)), Layout(Each(TransactionBytes, x.transactions)),
      Counted(x.proposals) ]
  }

  function BlockBytes(x: Block): seq<byte> {
    Layout(BlockParts(x))
  }

  function CellbaseWitnessBytes(x: CellbaseWitness): seq<byte> {
    Layout([ScriptBytes(x.lock), Prefixed(x.message)])
  }

  function WitnessArgsBytes(x: WitnessArgs): seq<byte> {
    Layout([PrefixedOpt(x.lock), PrefixedOpt(x.inputType), PrefixedOpt(x.outputType)])
  }

  // ---- vectors and tables, once ----

  lemma {:induction false} FlattenSize(items: seq<seq<byte>>, k: nat)
    requires Sized(items, k)
    ensures |Flatten(items)| == k * |items|
  {
    if items != [] {
      FlattenSize(items[1..], k);
      assert k * |items| == k + k * (|items| - 1);
    }
  }

  /** Vectors of items of one size: what is accepted is a count and that many items. */
  lemma CountedExact(k: nat, b: seq<byte>)
    requires k > 0 && |b| < U32_LIMIT
    ensures Valid(FixVec(k), b, false) <==> exists items :: Sized(items, k) && Counted(items) == b
  {
    if Valid(FixVec(k), b, false) {
      var n := Num(b, 0);
      var items := Chunk(b[NUM_SIZE..], k, n);
      PackOfNum(b, 0);
      FlattenOfChunk(b[NUM_SIZE..], k, n);
      assert b == b[0..4] + b[4..];
      assert Sized(items, k) && Counted(items) == b;
    }
    forall items | Sized(items, k) && Counted(items) == b ensures Valid(FixVec(k), b, false) {
      FlattenSize(items, k);
      assert |items| <= k * |items| by { AtLeast(k, |items|); }
      NumOfCounted(items);
    }
  }

  lemma {:induction false} FlattenOfChunk(b: seq<byte>, k: nat, n: nat)
    requires |b| == k * n
    ensures Flatten(Chunk(b, k, n)) == b
  {
    if n > 0 {
      assert k * n == k + k * (n - 1);
      FlattenOfChunk(b[k..], k, n - 1);
      assert Chunk(b, k, n)[1..] == Chunk(b[k..], k, n - 1);
    }
  }

  lemma {:induction false} AtLeast(k: nat, n: nat)
    requires k > 0
    ensures n <= k * n
  {
    if n > 0 {
      AtLeast(k, n - 1);
      assert k * n == k + k * (n - 1);
    }
  }

  lemma NumOfCounted(items: seq<seq<byte>>)
    requires |items| < U32_LIMIT
    ensures Num(Counted(items), 0) == |items|
  {
    NumOfPack(|items|);
  }

  lemma PrefixedBack(b: seq<byte>)
    requires Valid(BYTES, b, false)
    ensures |b| >= 4 && Prefixed(b[4..]) == b
  {
    assert |b| == 4 + Num(b, 0);
    hide Valid, Num, Pack;
    PackOfNum(b, 0);
    assert b == b[0..4] + b[4..];
  }

  lemma PrefixedValid(x: seq<byte>)
    requires |Prefixed(x)| < U32_LIMIT
    ensures Valid(BYTES, Prefixed(x), false)
  {
    NumOfPack(|x|);
  }

  lemma PrefixedExact(b: seq<byte>)
    requires |b| < U32_LIMIT
    ensures Valid(BYTES, b, false) <==> |b| >= 4 && Prefixed(b[4..]) == b
  {
    if Valid(BYTES, b, false) { PrefixedBack(b); }
    if |b| >= 4 && Prefixed(b[4..]) == b { PrefixedValid(b[4..]); }
  }

  lemma PrefixedOptExact(b: seq<byte>)
    requires |b| < U32_LIMIT
    ensures Valid(BYTES_OPT, b, false) <==> exists x :: PrefixedOpt(x) == b
  {
    PrefixedExact(b);
    if Valid(BYTES_OPT, b, false) {
      assert PrefixedOpt(if b == [] then None else Some(b[4..])) == b;
    }
    forall x | PrefixedOpt(x) == b ensures Valid(BYTES_OPT, b, false) {
      if x.Some? { PrefixedValid(x.value); }
    }
  }

  predicate AllValid(item: Schema, parts: seq<seq<byte>>) {
    forall i :: 0 <= i < |parts| ==> Valid(item, parts[i], false)
  }

  predicate FieldsValid(fields: seq<Schema>, parts: seq<seq<byte>>)
    requires |parts| == |fields|
  {
    forall i :: 0 <= i < |fields| ==> Valid(fields[i], parts[i], false)
  }

  /** Vectors of items of any size: what is accepted is a layout of accepted items. */
  lemma VectorExact(item: Schema, b: seq<byte>)
    requires |b| < U32_LIMIT
    ensures Valid(DynVec(item), b, false) <==> exists parts :: AllValid(item, parts) && Layout(parts) == b
  {
    assert Layout([]) == Pack(4);
    if Valid(DynVec(item), b, false) {
      if b == Pack(4) {
        assert AllValid(item, []) && Layout([]) == b;
      } else {
        LayoutOfSplit(b);
        assert AllValid(item, Split(b));
      }
    }
    forall parts | AllValid(item, parts) && Layout(parts) == b ensures Valid(DynVec(item), b, false) {
      if parts != [] {
        SplitOfLayout(parts);
        forall i | 0 <= i < Count(b) ensures Valid(item, Part(b, i), false) {
          assert Split(b)[i] == parts[i];
        }
      }
    }
  }

  /** Tables: what is accepted is the layout of accepted fields, as many as there are. */
  lemma TableExact(fields: seq<Schema>, b: seq<byte>)
    requires |b| < U32_LIMIT && fields != []
    ensures Valid(Table(fields), b, false) <==> exists parts :: |parts| == |fields| && FieldsValid(fields, parts) && Layout(parts) == b
  {
    if Valid(Table(fields), b, false) {
      LayoutOfSplit(b);
      assert |Split(b)| == |fields| && FieldsValid(fields, Split(b));
    }
    forall parts | |parts| == |fields| && FieldsValid(fields, parts) && Layout(parts) == b ensures Valid(Table(fields), b, false) {
      LayoutValid(fields, parts);
    }
  }

  lemma {:induction false} PartsSmaller(parts: seq<seq<byte>>, i: nat)
    requires i < |parts|
    ensures |parts[i]| < |Layout(parts)|
  {
    FlattenAt(parts, i);
  }

  /** The accessors' slices of a table give back what it was made of. */
  lemma Slices(parts: seq<seq<byte>>, i: nat)
    requires i < |parts| && |Layout(parts)| < U32_LIMIT
    ensures LayoutOk(Layout(parts)) && Count(Layout(parts)) == |parts| && Part(Layout(parts), i) == parts[i]
  {
    PartOfLayout(parts, i);
  }

  ghost predicate IsOneOf<X(!new)>(f: X -> seq<byte>, ok: X -> bool, b: seq<byte>) {
    exists x :: ok(x) && f(x) == b
  }

  /** Records behind a list of parts each of which is the bytes of one. */
  lemma {:induction false} Behind<X(!new)>(f: X -> seq<byte>, ok: X -> bool, parts: seq<seq<byte>>) returns (xs: seq<X>)
    requires forall i :: 0 <= i < |parts| ==> IsOneOf(f, ok, parts[i])
    ensures Each(f, xs) == parts && forall i :: 0 <= i < |xs| ==> ok(xs[i])
  {
    if parts == [] {
      xs := [];
    } else {
      var last := |parts| - 1;
      var init := Behind(f, ok, parts[..last]);
      assert IsOneOf(f, ok, parts[last]);
      var x :| ok(x) && f(x) == parts[last];
      xs := init + [x];
      assert parts == parts[..last] + [parts[last]];
    }
  }

  /** What a reader for `s` accepts is the bytes of exactly these records. */
  ghost predicate Reads<X(!new)>(s: Schema, f: X -> seq<byte>, ok: X -> bool) {
    forall b: seq<byte> :: |b| < U32_LIMIT ==> (Valid(s, b, false) <==> IsOneOf(f, ok, b))
  }

  ghost predicate IsVectorOf<X(!new)>(f: X -> seq<byte>, ok: X -> bool, b: seq<byte>) {
    exists xs: seq<X> :: (forall i :: 0 <= i < |xs| ==> ok(xs[i])) && Layout(Each(f, xs)) == b
  }

  lemma VectorOf<X(!new)>(s: Schema, f: X -> seq<byte>, ok: X -> bool, b: seq<byte>)
    requires Reads(s, f, ok) && |b| < U32_LIMIT
    ensures Valid(DynVec(s), b, false) <==> IsVectorOf(f, ok, b)
  {
    VectorExact(s, b);
    if Valid(DynVec(s), b, false) {
      var parts :| AllValid(s, parts) && Layout(parts) == b;
      forall i | 0 <= i < |parts| ensures IsOneOf(f, ok, parts[i]) {
        PartsSmaller(parts, i);
        assert Valid(s, parts[i], false);
      }
      var xs := Behind(f, ok, parts);
      assert Layout(Each(f, xs)) == b;
    }
    if IsVectorOf(f, ok, b) {
      var xs :| (forall i :: 0 <= i < |xs| ==> ok(xs[i])) && Layout(Each(f, xs)) == b;
      var parts := Each(f, xs);
      forall i | 0 <= i < |parts| ensures Valid(s, parts[i], false) {
        PartsSmaller(parts, i);
        assert IsOneOf(f, ok, parts[i]);
      }
    }
  }

  ghost predicate IsCountedOf<X(!new)>(f: X -> seq<byte>, ok: X -> bool, b: seq<byte>) {
    exists xs: seq<X> :: (forall i :: 0 <= i < |xs| ==> ok(xs[i])) && Counted(Each(f, xs)) == b
  }

  /** Vectors of records of one size. */
  lemma CountedOf<X(!new)>(k: nat, f: X -> seq<byte>, ok: X -> bool, b: seq<byte>)
    requires k > 0 && |b| < U32_LIMIT
    requires forall x :: ok(x) ==> |f(x)| == k
    requires forall c: seq<byte> :: |c| == k ==> IsOneOf(f, ok, c)
    ensures Valid(FixVec(k), b, false) <==> IsCountedOf(f, ok, b)
  {
    CountedExact(k, b);
    if Valid(FixVec(k), b, false) {
      var items :| Sized(items, k) && Counted(items) == b;
      var xs := Behind(f, ok, items);
      assert Counted(Each(f, xs)) == b;
    }
    if IsCountedOf(f, ok, b) {
      var xs :| (forall i :: 0 <= i < |xs| ==> ok(xs[i])) && Counted(Each(f, xs)) == b;
      assert Sized(Each(f, xs), k);
    }
  }

  // ---- each reader accepts exactly the bytes of its records ----

  lemma OutPointOf(c: seq<byte>) returns (x: OutPoint)
    requires |c| == 36
    ensures OutPointOk(x) && OutPointBytes(x) == c
  {
    x := OutPoint(c[..32], c[32..]);
  }

  lemma CellDepOf(c: seq<byte>)
    requires |c| == 37
    ensures IsOneOf(CellDepBytes, CellDepOk, c)
  {
    var o := OutPointOf(c[..36]);
    var x := CellDep(o, c[36..]);
    assert CellDepOk(x) && CellDepBytes(x) == c;
  }

  lemma CellInputOf(c: seq<byte>)
    requires |c| == 44
    ensures IsOneOf(CellInputBytes, CellInputOk, c)
  {
    var o := OutPointOf(c[8..]);
    var x := CellInput(c[..8], o);
    assert CellInputOk(x) && CellInputBytes(x) == c;
  }

  lemma CellDepsExact(b: seq<byte>)
    requires |b| < U32_LIMIT
    ensures Valid(CELL_DEP_VEC, b, false) <==> IsCountedOf(CellDepBytes, CellDepOk, b)
  {
    forall c: seq<byte> | |c| == 37 ensures IsOneOf(CellDepBytes, CellDepOk, c) {
      CellDepOf(c);
    }
    CountedOf(37, CellDepBytes, CellDepOk, b);
  }

  lemma CellInputsExact(b: seq<byte>)
    requires |b| < U32_LIMIT
    ensures Valid(CELL_INPUT_VEC, b, false) <==> IsCountedOf(CellInputBytes, CellInputOk, b)
  {
    forall c: seq<byte> | |c| == 44 ensures IsOneOf(CellInputBytes, CellInputOk, c) {
      CellInputOf(c);
    }
    CountedOf(44, CellInputBytes, CellInputOk, b);
  }

  lemma ScriptFrom(p: seq<seq<byte>>)
    requires |p| == |SCRIPT.fields| && FieldsValid(SCRIPT.fields, p) && |Layout(p)| < U32_LIMIT
    ensures IsOneOf(ScriptBytes, ScriptOk, Layout(p))
  {
    PartsSmaller(p, 2);
    hide Layout;
    assert Valid(BYTE32, p[0], false) && Valid(Fixed(1), p[1], false) && Valid(BYTES, p[2], false);
    PrefixedExact(p[2]);
    var x := Script(p[0], p[1], p[2][4..]);
    assert p == [p[0], p[1], p[2]];
    assert ScriptOk(x) && ScriptBytes(x) == Layout(p);
  }

  lemma ScriptFields(x: Script)
    requires ScriptOk(x) && |ScriptBytes(x)| < U32_LIMIT
    ensures Valid(SCRIPT, ScriptBytes(x), false)
  {
    var p := [x.codeHash, x.hashType, Prefixed(x.args)];
    PartsSmaller(p, 2);
    PrefixedValid(x.args);
    hide Prefixed;
    assert FieldsValid(SCRIPT.fields, p);
    LayoutValid(SCRIPT.fields, p);
  }

  /** For every record: the bytes that the strict reader accepts are those of some record. */
  lemma ScriptExact(b: seq<byte>)
    requires |b| < U32_LIMIT
    ensures Valid(SCRIPT, b, false) <==> IsOneOf(ScriptBytes, ScriptOk, b)
  {
    TableExact(SCRIPT.fields, b);
    if Valid(SCRIPT, b, false) {
      var p :| |p| == |SCRIPT.fields| && FieldsValid(SCRIPT.fields, p) && Layout(p) == b;
      ScriptFrom(p);
    }
    forall x | ScriptOk(x) && ScriptBytes(x) == b ensures Valid(SCRIPT, b, false) {
      ScriptFields(x);
    }
  }

  lemma ScriptReads()
    ensures Reads(SCRIPT, ScriptBytes, ScriptOk)
  {
    forall b: seq<byte> | |b| < U32_LIMIT ensures Valid(SCRIPT, b, false) <==> IsOneOf(ScriptBytes, ScriptOk, b) {
      ScriptExact(b);
    }
  }

  lemma ScriptOptExact(b: seq<byte>)
    requires |b| < U32_LIMIT
    ensures Valid(SCRIPT_OPT, b, false) <==> exists x: Option<Script> :: (x.Some? ==> ScriptOk(x.value)) && ScriptOptBytes(x) == b
  {
    ScriptExact(b);
    assert Valid(SCRIPT_OPT, b, false) <==> b == [] || Valid(SCRIPT, b, false);
    if Valid(SCRIPT, b, false) {
      var x :| ScriptOk(x) && ScriptBytes(x) == b;
      assert ScriptOptBytes(Some(x)) == b;
    }
    if b == [] { assert ScriptOptBytes(None) == b; }
    forall x: Option<Script> | (x.Some? ==> ScriptOk(x.value)) && ScriptOptBytes(x) == b ensures b == [] || IsOneOf(ScriptBytes, ScriptOk, b) {
      if x.Some? { assert ScriptOk(x.value) && ScriptBytes(x.value) == b; }
    }
  }

  lemma CellOutputFrom(p: seq<seq<byte>>)
    requires |p| == |CELL_OUTPUT.fields| && FieldsValid(CELL_OUTPUT.fields, p) && |Layout(p)| < U32_LIMIT
    ensures IsOneOf(CellOutputBytes, CellOutputOk, Layout(p))
  {
    PartsSmaller(p, 1);
    PartsSmaller(p, 2);
    hide Layout;
    ScriptExact(p[1]);
    ScriptOptExact(p[2]);
    assert Valid(UINT64, p[0], false) && Valid(SCRIPT, p[1], false) && Valid(SCRIPT_OPT, p[2], false);
    var lock :| ScriptOk(lock) && ScriptBytes(lock) == p[1];
    var type_: Option<Script> :| (type_.Some? ==> ScriptOk(type_.value)) && ScriptOptBytes(type_) == p[2];
    var x := CellOutput(p[0], lock, type_);
    assert p == [p[0], p[1], p[2]];
    assert CellOutputOk(x) && CellOutputBytes(x) == Layout(p);
  }

  lemma CellOutputFields(x: CellOutput)
    requires CellOutputOk(x) && |CellOutputBytes(x)| < U32_LIMIT
    ensures Valid(CELL_OUTPUT, CellOutputBytes(x), false)
  {
    var p := [x.capacity, ScriptBytes(x.lock), ScriptOptBytes(x.type_)];
    PartsSmaller(p, 1);
    PartsSmaller(p, 2);
    ScriptExact(p[1]);
    ScriptOptExact(p[2]);
    hide ScriptBytes, ScriptOptBytes;
    assert Valid(SCRIPT, p[1], false);
    assert FieldsValid(CELL_OUTPUT.fields, p);
    LayoutValid(CELL_OUTPUT.fields, p);
  }

  lemma CellOutputExact(b: seq<byte>)
    requires |b| < U32_LIMIT
    ensures Valid(CELL_OUTPUT, b, false) <==> IsOneOf(CellOutputBytes, CellOutputOk, b)
  {
    TableExact(CELL_OUTPUT.fields, b);
    if Valid(CELL_OUTPUT, b, false) {
      var p :| |p| == |CELL_OUTPUT.fields| && FieldsValid(CELL_OUTPUT.fields, p) && Layout(p) == b;
      CellOutputFrom(p);
    }
    forall x | CellOutputOk(x) && CellOutputBytes(x) == b ensures Valid(CELL_OUTPUT, b, false) {
      CellOutputFields(x);
    }
  }

  lemma CellOutputReads()
    ensures Reads(CELL_OUTPUT, CellOutputBytes, CellOutputOk)
  {
    forall b: seq<byte> | |b| < U32_LIMIT ensures Valid(CELL_OUTPUT, b, false) <==> IsOneOf(CellOutputBytes, CellOutputOk, b) {
      CellOutputExact(b);
    }
  }

  predicate Any(b: seq<byte>) {
    true
  }

  lemma BytesReads()
    ensures Reads(BYTES, Prefixed, Any)
  {
    forall b: seq<byte> | |b| < U32_LIMIT ensures Valid(BYTES, b, false) <==> IsOneOf(Prefixed, Any, b) {
      PrefixedExact(b);
      if Valid(BYTES, b, false) { assert Any(b[4..]) && Prefixed(b[4..]) == b; }
      forall x | Any(x) && Prefixed(x) == b ensures Valid(BYTES, b, false) {
        PrefixedValid(x);
      }
    }
  }

  // ---- transactions ----

  ghost predicate IsByteStrings(b: seq<byte>) {
    exists xs :: Layout(Each(Prefixed, xs)) == b
  }

  lemma ByteStringsExact(b: seq<byte>)
    requires |b| < U32_LIMIT
    ensures Valid(BYTES_VEC, b, false) <==> IsByteStrings(b)
  {
    BytesReads();
    VectorOf(BYTES, Prefixed, Any, b);
    hide Layout, Each, Prefixed, Reads;
    if IsVectorOf(Prefixed, Any, b) {
      var xs :| (forall i :: 0 <= i < |xs| ==> Any(xs[i])) && Layout(Each(Prefixed, xs)) == b;
      assert IsByteStrings(b);
    }
    if IsByteStrings(b) {
      var xs :| Layout(Each(Prefixed, xs)) == b;
      assert forall i :: 0 <= i < |xs| ==> Any(xs[i]);
    }
  }

  lemma CellOutputsExact(b: seq<byte>)
    requires |b| < U32_LIMIT
    ensures Valid(CELL_OUTPUT_VEC, b, false) <==> IsVectorOf(CellOutputBytes, CellOutputOk, b)
  {
    CellOutputReads();
    hide Reads, CellOutputBytes, CellOutputOk;
    VectorOf(CELL_OUTPUT, CellOutputBytes, CellOutputOk, b);
  }

  lemma CellDepsFrom(b: seq<byte>) returns (xs: seq<CellDep>)
    requires |b| < U32_LIMIT && Valid(CELL_DEP_VEC, b, false)
    ensures AllDepsOk(xs) && Counted(Each(CellDepBytes, xs)) == b
  {
    CellDepsExact(b);
    hide CellDepBytes, CellDepOk, Counted, Each;
    xs :| (forall i :: 0 <= i < |xs| ==> CellDepOk(xs[i])) && Counted(Each(CellDepBytes, xs)) == b;
  }

  lemma CellDepsValid(xs: seq<CellDep>)
    requires AllDepsOk(xs) && |Counted(Each(CellDepBytes, xs))| < U32_LIMIT
    ensures Valid(CELL_DEP_VEC, Counted(Each(CellDepBytes, xs)), false)
  {
    CellDepsExact(Counted(Each(CellDepBytes, xs)));
  }

  lemma CellInputsFrom(b: seq<byte>) returns (xs: seq<CellInput>)
    requires |b| < U32_LIMIT && Valid(CELL_INPUT_VEC, b, false)
    ensures AllInputsOk(xs) && Counted(Each(CellInputBytes, xs)) == b
  {
    CellInputsExact(b);
    hide CellInputBytes, CellInputOk, Counted, Each;
    xs :| (forall i :: 0 <= i < |xs| ==> CellInputOk(xs[i])) && Counted(Each(CellInputBytes, xs)) == b;
  }

  lemma CellInputsValid(xs: seq<CellInput>)
    requires AllInputsOk(xs) && |Counted(Each(CellInputBytes, xs))| < U32_LIMIT
    ensures Valid(CELL_INPUT_VEC, Counted(Each(CellInputBytes, xs)), false)
  {
    CellInputsExact(Counted(Each(CellInputBytes, xs)));
  }

  lemma CellOutputsFrom(b: seq<byte>) returns (xs: seq<CellOutput>)
    requires |b| < U32_LIMIT && Valid(CELL_OUTPUT_VEC, b, false)
    ensures AllOutputsOk(xs) && Layout(Each(CellOutputBytes, xs)) == b
  {
    CellOutputsExact(b);
    hide CellOutputBytes, CellOutputOk, Layout, Each;
    xs :| (forall i :: 0 <= i < |xs| ==> CellOutputOk(xs[i])) && Layout(Each(CellOutputBytes, xs)) == b;
  }

  lemma CellOutputsValid(xs: seq<CellOutput>)
    requires AllOutputsOk(xs) && |Layout(Each(CellOutputBytes, xs))| < U32_LIMIT
    ensures Valid(CELL_OUTPUT_VEC, Layout(Each(CellOutputBytes, xs)), false)
  {
    CellOutputsExact(Layout(Each(CellOutputBytes, xs)));
  }

  lemma HashesFrom(k: nat, b: seq<byte>) returns (xs: seq<seq<byte>>)
    requires k > 0 && |b| < U32_LIMIT && Valid(FixVec(k), b, false)
    ensures Sized(xs, k) && Counted(xs) == b
  {
    CountedExact(k, b);
    hide Counted;
    xs :| Sized(xs, k) && Counted(xs) == b;
  }

  lemma HashesValid(k: nat, xs: seq<seq<byte>>)
    requires k > 0 && Sized(xs, k) && |Counted(xs)| < U32_LIMIT
    ensures Valid(FixVec(k), Counted(xs), false)
  {
    CountedExact(k, Counted(xs));
  }

  lemma ByteStringsFrom(b: seq<byte>) returns (xs: seq<seq<byte>>)
    requires |b| < U32_LIMIT && Valid(BYTES_VEC, b, false)
    ensures Layout(Each(Prefixed, xs)) == b
  {
    ByteStringsExact(b);
    hide Prefixed, Layout, Each;
    xs :| Layout(Each(Prefixed, xs)) == b;
  }

  lemma ByteStringsValid(xs: seq<seq<byte>>)
    requires |Layout(Each(Prefixed, xs))| < U32_LIMIT
    ensures Valid(BYTES_VEC, Layout(Each(Prefixed, xs)), false)
  {
    ByteStringsExact(Layout(Each(Prefixed, xs)));
  }

  lemma RawTransactionFrom(p: seq<seq<byte>>)
    requires |p| == |RAW_TRANSACTION.fields| && FieldsValid(RAW_TRANSACTION.fields, p) && |Layout(p)| < U32_LIMIT
    ensures IsOneOf(RawTransactionBytes, RawTransactionOk, Layout(p))
  {
    forall i | 0 <= i < |p| ensures |p[i]| < U32_LIMIT {
      PartsSmaller(p, i);
    }
    assert Valid(UINT32, p[0], false) && Valid(CELL_DEP_VEC, p[1], false) && Valid(BYTE32_VEC, p[2], false);
    assert Valid(CELL_INPUT_VEC, p[3], false) && Valid(CELL_OUTPUT_VEC, p[4], false) && Valid(BYTES_VEC, p[5], false);
    assert |p| == 6;
    SizeOfFixed(4, p[0]);
    hide Layout, Valid, FieldsValid, Counted, Each, AllDepsOk, AllInputsOk, AllOutputsOk, Sized;
    var deps := CellDepsFrom(p[1]);
    var headers := HashesFrom(32, p[2]);
    var inputs := CellInputsFrom(p[3]);
    var outputs := CellOutputsFrom(p[4]);
    var data := ByteStringsFrom(p[5]);
    var x := RawTransaction(p[0], deps, headers, inputs, outputs, data);
    assert p == RawTransactionParts(x);
    assert RawTransactionOk(x) && RawTransactionBytes(x) == Layout(p);
  }

  lemma SizeOfFixed(n: nat, b: seq<byte>)
    ensures Valid(Fixed(n), b, false) <==> |b| == n
  {
  }

  lemma RawTransactionFields(x: RawTransaction)
    requires RawTransactionOk(x) && |RawTransactionBytes(x)| < U32_LIMIT
    ensures Valid(RAW_TRANSACTION, RawTransactionBytes(x), false)
  {
    var p := RawTransactionParts(x);
    forall i | 0 <= i < |p| ensures |p[i]| < U32_LIMIT {
      PartsSmaller(p, i);
    }
    SizeOfFixed(4, p[0]);
    assert |p| == |RAW_TRANSACTION.fields| && LayoutSize(p) < U32_LIMIT;
    assert |p[1]| < U32_LIMIT && |p[2]| < U32_LIMIT && |p[3]| < U32_LIMIT && |p[4]| < U32_LIMIT && |p[5]| < U32_LIMIT;
    hide LayoutSize, Layout, Valid, Counted, Each, AllDepsOk, AllInputsOk, AllOutputsOk, Sized;
    CellDepsValid(x.cellDeps);
    HashesValid(32, x.headerDeps);
    CellInputsValid(x.inputs);
    CellOutputsValid(x.outputs);
    ByteStringsValid(x.outputsData);
    assert FieldsValid(RAW_TRANSACTION.fields, p);
    LayoutValid(RAW_TRANSACTION.fields, p);
  }

  lemma RawTransactionExact(b: seq<byte>)
    requires |b| < U32_LIMIT
    ensures Valid(RAW_TRANSACTION, b, false) <==> IsOneOf(RawTransactionBytes, RawTransactionOk, b)
  {
    TableExact(RAW_TRANSACTION.fields, b);
    if Valid(RAW_TRANSACTION, b, false) {
      var p :| |p| == |RAW_TRANSACTION.fields| && FieldsValid(RAW_TRANSACTION.fields, p) && Layout(p) == b;
      RawTransactionFrom(p);
    }
    forall x | RawTransactionOk(x) && RawTransactionBytes(x) == b ensures Valid(RAW_TRANSACTION, b, false) {
      RawTransactionFields(x);
    }
  }

  lemma TransactionFrom(p: seq<seq<byte>>)
    requires |p| == |TRANSACTION.fields| && FieldsValid(TRANSACTION.fields, p) && |Layout(p)| < U32_LIMIT
    ensures IsOneOf(TransactionBytes, TransactionOk, Layout(p))
  {
    PartsSmaller(p, 0);
    PartsSmaller(p, 1);
    assert Valid(RAW_TRANSACTION, p[0], false) && Valid(BYTES_VEC, p[1], false);
    hide Layout, Valid, Each, Prefixed, RawTransactionBytes, RawTransactionOk;
    RawTransactionExact(p[0]);
    ByteStringsExact(p[1]);
    var raw :| RawTransactionOk(raw) && RawTransactionBytes(raw) == p[0];
    var witnesses :| Layout(Each(Prefixed, witnesses)) == p[1];
    var x := Transaction(raw, witnesses);
    assert p == [p[0], p[1]];
    assert TransactionOk(x) && TransactionBytes(x) == Layout(p);
  }

  lemma TransactionFields(x: Transaction)
    requires TransactionOk(x) && |TransactionBytes(x)| < U32_LIMIT
    ensures Valid(TRANSACTION, TransactionBytes(x), false)
  {
    var p := [RawTransactionBytes(x.raw), Layout(Each(Prefixed, x.witnesses))];
    PartsSmaller(p, 0);
    PartsSmaller(p, 1);
    assert LayoutSize(p) < U32_LIMIT;
    hide LayoutSize, Layout, Valid, Each, Prefixed, RawTransactionBytes, RawTransactionOk;
    RawTransactionExact(p[0]);
    ByteStringsExact(p[1]);
    assert IsOneOf(RawTransactionBytes, RawTransactionOk, p[0]);
    assert IsByteStrings(p[1]);
    assert FieldsValid(TRANSACTION.fields, p);
    LayoutValid(TRANSACTION.fields, p);
  }

  lemma TransactionExact(b: seq<byte>)
    requires |b| < U32_LIMIT
    ensures Valid(TRANSACTION, b, false) <==> IsOneOf(TransactionBytes, TransactionOk, b)
  {
    TableExact(TRANSACTION.fields, b);
    if Valid(TRANSACTION, b, false) {
      var p :| |p| == |TRANSACTION.fields| && FieldsValid(TRANSACTION.fields, p) && Layout(p) == b;
      TransactionFrom(p);
    }
    forall x | TransactionOk(x) && TransactionBytes(x) == b ensures Valid(TRANSACTION, b, false) {
      TransactionFields(x);
    }
  }

  lemma TransactionReads()
    ensures Reads(TRANSACTION, TransactionBytes, TransactionOk)
  {
    forall b: seq<byte> | |b| < U32_LIMIT ensures Valid(TRANSACTION, b, false) <==> IsOneOf(TransactionBytes, TransactionOk, b) {
      TransactionExact(b);
    }
  }

  // ---- blocks ----

  lemma HeaderFrom(b: seq<byte>) returns (x: Header)
    requires Valid(HEADER, b, false)
    ensures HeaderOk(x) && HeaderBytes(x) == b
  {
    var raw := RawHeader(b[..4], b[4..8], b[8..16], b[16..24], b[24..32], b[32..64], b[64..96], b[96..128], b[128..160], b[160..192]);
    assert RawHeaderBytes(raw) == b[..192];
    x := Header(raw, b[192..]);
  }

  lemma HeaderValid(x: Header)
    requires HeaderOk(x)
    ensures Valid(HEADER, HeaderBytes(x), false)
  {
  }

  lemma HeaderExact(b: seq<byte>)
    ensures Valid(HEADER, b, false) <==> IsOneOf(HeaderBytes, HeaderOk, b)
  {
    if Valid(HEADER, b, false) { var x := HeaderFrom(b); }
    hide HeaderOk, HeaderBytes, Valid;
    forall x | HeaderOk(x) && HeaderBytes(x) == b ensures Valid(HEADER, b, false) {
      HeaderValid(x);
    }
  }

  lemma UncleBlockFrom(p: seq<seq<byte>>)
    requires |p| == |UNCLE_BLOCK.fields| && FieldsValid(UNCLE_BLOCK.fields, p) && |Layout(p)| < U32_LIMIT
    ensures IsOneOf(UncleBlockBytes, UncleBlockOk, Layout(p))
  {
    PartsSmaller(p, 1);
    assert Valid(HEADER, p[0], false) && Valid(PROPOSAL_SHORT_ID_VEC, p[1], false);
    hide Layout, Valid, HeaderBytes, HeaderOk, Counted;
    HeaderExact(p[0]);
    CountedExact(10, p[1]);
    var header :| HeaderOk(header) && HeaderBytes(header) == p[0];
    var proposals :| Sized(proposals, 10) && Counted(proposals) == p[1];
    var x := UncleBlock(header, proposals);
    assert p == [p[0], p[1]];
    assert UncleBlockOk(x) && UncleBlockBytes(x) == Layout(p);
  }

  lemma UncleBlockFields(x: UncleBlock)
    requires UncleBlockOk(x) && |UncleBlockBytes(x)| < U32_LIMIT
    ensures Valid(UNCLE_BLOCK, UncleBlockBytes(x), false)
  {
    var p := [HeaderBytes(x.header), Counted(x.proposals)];
    PartsSmaller(p, 1);
    assert LayoutSize(p) < U32_LIMIT;
    hide LayoutSize, Layout, Valid, HeaderBytes, HeaderOk, Counted;
    HeaderExact(p[0]);
    CountedExact(10, p[1]);
    assert IsOneOf(HeaderBytes, HeaderOk, p[0]);
    assert FieldsValid(UNCLE_BLOCK.fields, p);
    LayoutValid(UNCLE_BLOCK.fields, p);
  }

  lemma UncleBlockExact(b: seq<byte>)
    requires |b| < U32_LIMIT
    ensures Valid(UNCLE_BLOCK, b, false) <==> IsOneOf(UncleBlockBytes, UncleBlockOk, b)
  {
    TableExact(UNCLE_BLOCK.fields, b);
    if Valid(UNCLE_BLOCK, b, false) {
      var p :| |p| == |UNCLE_BLOCK.fields| && FieldsValid(UNCLE_BLOCK.fields, p) && Layout(p) == b;
      UncleBlockFrom(p);
    }
    forall x | UncleBlockOk(x) && UncleBlockBytes(x) == b ensures Valid(UNCLE_BLOCK, b, false) {
      UncleBlockFields(x);
    }
  }

  lemma UncleBlockReads()
    ensures Reads(UNCLE_BLOCK, UncleBlockBytes, UncleBlockOk)
  {
    forall b: seq<byte> | |b| < U32_LIMIT ensures Valid(UNCLE_BLOCK, b, false) <==> IsOneOf(UncleBlockBytes, UncleBlockOk, b) {
      UncleBlockExact(b);
    }
  }

  lemma UnclesExact(b: seq<byte>)
    requires |b| < U32_LIMIT
    ensures Valid(UNCLE_BLOCK_VEC, b, false) <==> IsVectorOf(UncleBlockBytes, UncleBlockOk, b)
  {
    UncleBlockReads();
    hide Reads, UncleBlockBytes, UncleBlockOk;
    VectorOf(UNCLE_BLOCK, UncleBlockBytes, UncleBlockOk, b);
  }

  lemma TransactionsExact(b: seq<byte>)
    requires |b| < U32_LIMIT
    ensures Valid(TRANSACTION_VEC, b, false) <==> IsVectorOf(TransactionBytes, TransactionOk, b)
  {
    TransactionReads();
    hide Reads, TransactionBytes, TransactionOk;
    VectorOf(TRANSACTION, TransactionBytes, TransactionOk, b);
  }

  lemma UnclesFrom(b: seq<byte>) returns (xs: seq<UncleBlock>)
    requires |b| < U32_LIMIT && Valid(UNCLE_BLOCK_VEC, b, false)
    ensures AllUnclesOk(xs) && Layout(Each(UncleBlockBytes, xs)) == b
  {
    UnclesExact(b);
    hide UncleBlockBytes, UncleBlockOk, Layout, Each;
    xs :| (forall i :: 0 <= i < |xs| ==> UncleBlockOk(xs[i])) && Layout(Each(UncleBlockBytes, xs)) == b;
  }

  lemma UnclesValid(xs: seq<UncleBlock>)
    requires AllUnclesOk(xs) && |Layout(Each(UncleBlockBytes, xs))| < U32_LIMIT
    ensures Valid(UNCLE_BLOCK_VEC, Layout(Each(UncleBlockBytes, xs)), false)
  {
    UnclesExact(Layout(Each(UncleBlockBytes, xs)));
  }

  lemma TransactionsFrom(b: seq<byte>) returns (xs: seq<Transaction>)
    requires |b| < U32_LIMIT && Valid(TRANSACTION_VEC, b, false)
    ensures AllTransactionsOk(xs) && Layout(Each(TransactionBytes, xs)) == b
  {
    TransactionsExact(b);
    hide TransactionBytes, TransactionOk, Layout, Each;
    xs :| (forall i :: 0 <= i < |xs| ==> TransactionOk(xs[i])) && Layout(Each(TransactionBytes, xs)) == b;
  }

  lemma TransactionsValid(xs: seq<Transaction>)
    requires AllTransactionsOk(xs) && |Layout(Each(TransactionBytes, xs))| < U32_LIMIT
    ensures Valid(TRANSACTION_VEC, Layout(Each(TransactionBytes, xs)), false)
  {
    TransactionsExact(Layout(Each(TransactionBytes, xs)));
  }

  lemma BlockPartsValid(p: seq<seq<byte>>)
    requires |p| == |BLOCK.fields| && FieldsValid(BLOCK.fields, p) && |Layout(p)| < U32_LIMIT
    ensures |p| == 4 && Valid(HEADER, p[0], false) && Valid(UNCLE_BLOCK_VEC, p[1], false)
    ensures Valid(TRANSACTION_VEC, p[2], false) && Valid(PROPOSAL_SHORT_ID_VEC, p[3], false)
    ensures |p[1]| < U32_LIMIT && |p[2]| < U32_LIMIT && |p[3]| < U32_LIMIT
  {
    forall i | 0 <= i < |p| ensures |p[i]| < U32_LIMIT && Valid(BLOCK.fields[i], p[i], false) {
      PartsSmaller(p, i);
    }
    hide Valid;
  }

  lemma BlockFrom(p: seq<seq<byte>>)
    requires |p| == |BLOCK.fields| && FieldsValid(BLOCK.fields, p) && |Layout(p)| < U32_LIMIT
    ensures IsOneOf(BlockBytes, BlockOk, Layout(p))
  {
    BlockPartsValid(p);
    hide Layout, Valid, FieldsValid, Each, HeaderBytes, HeaderOk, Counted, Sized, AllUnclesOk, AllTransactionsOk,
         UncleBlockBytes, TransactionBytes;
    var header := HeaderFrom(p[0]);
    var uncles := UnclesFrom(p[1]);
    var txs := TransactionsFrom(p[2]);
    var proposals := HashesFrom(10, p[3]);
    var x := Block(header, uncles, txs, proposals);
    assert p == BlockParts(x);
    assert BlockOk(x) && BlockBytes(x) == Layout(p);
  }

  lemma BlockFields(x: Block)
    requires BlockOk(x) && |BlockBytes(x)| < U32_LIMIT
    ensures Valid(BLOCK, BlockBytes(x), false)
  {
    var p := BlockParts(x);
    forall i | 0 <= i < |p| ensures |p[i]| < U32_LIMIT {
      PartsSmaller(p, i);
    }
    assert |p| == |BLOCK.fields| && LayoutSize(p) < U32_LIMIT;
    assert |p[1]| < U32_LIMIT && |p[2]| < U32_LIMIT && |p[3]| < U32_LIMIT;
    hide LayoutSize, Layout, Valid, Each, HeaderBytes, HeaderOk, Counted, Sized, AllUnclesOk, AllTransactionsOk;
    HeaderValid(x.header);
    UnclesValid(x.uncles);
    TransactionsValid(x.transactions);
    HashesValid(10, x.proposals);
    assert FieldsValid(BLOCK.fields, p);
    LayoutValid(BLOCK.fields, p);
  }

  lemma BlockExact(b: seq<byte>)
    requires |b| < U32_LIMIT
    ensures Valid(BLOCK, b, false) <==> IsOneOf(BlockBytes, BlockOk, b)
  {
    TableExact(BLOCK.fields, b);
    if Valid(BLOCK, b, false) {
      var p :| |p| == |BLOCK.fields| && FieldsValid(BLOCK.fields, p) && Layout(p) == b;
      BlockFrom(p);
    }
    forall x | BlockOk(x) && BlockBytes(x) == b ensures Valid(BLOCK, b, false) {
      BlockFields(x);
    }
  }

  // ---- witnesses ----

  lemma CellbaseWitnessFrom(p: seq<seq<byte>>)
    requires |p| == |CELLBASE_WITNESS.fields| && FieldsValid(CELLBASE_WITNESS.fields, p) && |Layout(p)| < U32_LIMIT
    ensures IsOneOf(CellbaseWitnessBytes, CellbaseWitnessOk, Layout(p))
  {
    PartsSmaller(p, 0);
    PartsSmaller(p, 1);
    assert Valid(SCRIPT, p[0], false) && Valid(BYTES, p[1], false);
    hide Layout, Valid, ScriptBytes, ScriptOk;
    ScriptExact(p[0]);
    PrefixedExact(p[1]);
    var lock :| ScriptOk(lock) && ScriptBytes(lock) == p[0];
    var x := CellbaseWitness(lock, p[1][4..]);
    assert p == [p[0], p[1]];
    assert CellbaseWitnessOk(x) && CellbaseWitnessBytes(x) == Layout(p);
  }

  lemma CellbaseWitnessFields(x: CellbaseWitness)
    requires CellbaseWitnessOk(x) && |CellbaseWitnessBytes(x)| < U32_LIMIT
    ensures Valid(CELLBASE_WITNESS, CellbaseWitnessBytes(x), false)
  {
    var p := [ScriptBytes(x.lock), Prefixed(x.message)];
    PartsSmaller(p, 0);
    PartsSmaller(p, 1);
    assert LayoutSize(p) < U32_LIMIT;
    hide LayoutSize, Layout, Valid, ScriptBytes, ScriptOk, Prefixed;
    ScriptExact(p[0]);
    PrefixedValid(x.message);
    assert IsOneOf(ScriptBytes, ScriptOk, p[0]);
    assert FieldsValid(CELLBASE_WITNESS.fields, p);
    LayoutValid(CELLBASE_WITNESS.fields, p);
  }

  lemma CellbaseWitnessExact(b: seq<byte>)
    requires |b| < U32_LIMIT
    ensures Valid(CELLBASE_WITNESS, b, false) <==> IsOneOf(CellbaseWitnessBytes, CellbaseWitnessOk, b)
  {
    TableExact(CELLBASE_WITNESS.fields, b);
    if Valid(CELLBASE_WITNESS, b, false) {
      var p :| |p| == |CELLBASE_WITNESS.fields| && FieldsValid(CELLBASE_WITNESS.fields, p) && Layout(p) == b;
      CellbaseWitnessFrom(p);
    }
    forall x | CellbaseWitnessOk(x) && CellbaseWitnessBytes(x) == b ensures Valid(CELLBASE_WITNESS, b, false) {
      CellbaseWitnessFields(x);
    }
  }

  predicate WitnessArgsOk(x: WitnessArgs) {
    true
  }

  lemma WitnessArgsFrom(p: seq<seq<byte>>)
    requires |p| == |WITNESS_ARGS.fields| && FieldsValid(WITNESS_ARGS.fields, p) && |Layout(p)| < U32_LIMIT
    ensures IsOneOf(WitnessArgsBytes, WitnessArgsOk, Layout(p))
  {
    forall i | 0 <= i < 3 ensures exists x :: PrefixedOpt(x) == p[i] {
      PartsSmaller(p, i);
      PrefixedOptExact(p[i]);
      assert Valid(BYTES_OPT, p[i], false);
    }
    hide Layout, PrefixedOpt;
    var lock :| PrefixedOpt(lock) == p[0];
    var inputType :| PrefixedOpt(inputType) == p[1];
    var outputType :| PrefixedOpt(outputType) == p[2];
    var x := WitnessArgs(lock, inputType, outputType);
    assert p == [p[0], p[1], p[2]];
    assert WitnessArgsOk(x) && WitnessArgsBytes(x) == Layout(p);
  }

  lemma WitnessArgsFields(x: WitnessArgs)
    requires WitnessArgsOk(x) && |WitnessArgsBytes(x)| < U32_LIMIT
    ensures Valid(WITNESS_ARGS, WitnessArgsBytes(x), false)
  {
    var p := [PrefixedOpt(x.lock), PrefixedOpt(x.inputType), PrefixedOpt(x.outputType)];
    forall i | 0 <= i < 3 ensures Valid(BYTES_OPT, p[i], false) {
      PartsSmaller(p, i);
      PrefixedOptExact(p[i]);
    }
    assert LayoutSize(p) < U32_LIMIT;
    hide LayoutSize, Layout, Valid, PrefixedOpt;
    assert FieldsValid(WITNESS_ARGS.fields, p);
    LayoutValid(WITNESS_ARGS.fields, p);
  }

  lemma WitnessArgsExact(b: seq<byte>)
    requires |b| < U32_LIMIT
    ensures Valid(WITNESS_ARGS, b, false) <==> IsOneOf(WitnessArgsBytes, WitnessArgsOk, b)
  {
    TableExact(WITNESS_ARGS.fields, b);
    if Valid(WITNESS_ARGS, b, false) {
      var p :| |p| == |WITNESS_ARGS.fields| && FieldsValid(WITNESS_ARGS.fields, p) && Layout(p) == b;
      WitnessArgsFrom(p);
    }
    forall x | WitnessArgsOk(x) && WitnessArgsBytes(x) == b ensures Valid(WITNESS_ARGS, b, false) {
      WitnessArgsFields(x);
    }
  }

  // ---- the accessors ----

  /** `get_version`, `get_cell_deps`, `get_header_deps`, `get_inputs`, `get_outputs` and `get_outputs_data`, in this order. */
  lemma RawTransactionSlices(x: RawTransaction)
    requires |RawTransactionBytes(x)| < U32_LIMIT
    ensures var b := RawTransactionBytes(x);
            && LayoutOk(b) && Count(b) == 6
            && Part(b, 0) == x.version
            && Part(b, 1) == Counted(Each(CellDepBytes, x.cellDeps))
            && Part(b, 2) == Counted(x.headerDeps)
            && Part(b, 3) == Counted(Each(CellInputBytes, x.inputs))
            && Part(b, 4) == Layout(Each(CellOutputBytes, x.outputs))
            && Part(b, 5) == Layout(Each(Prefixed, x.outputsData))
  {
    var p := RawTransactionParts(x);
    hide Layout, Counted, Each;
    Slices(p, 0);
    Slices(p, 1);
    Slices(p, 2);
    Slices(p, 3);
    Slices(p, 4);
    Slices(p, 5);
  }

  /** Of transactions, blocks and uncles, each accessor's slice. */
  lemma BlockSlices(t: Transaction, k: Block, u: UncleBlock)
    requires |TransactionBytes(t)| < U32_LIMIT && |BlockBytes(k)| < U32_LIMIT && |UncleBlockBytes(u)| < U32_LIMIT
    ensures var b := TransactionBytes(t);
            && LayoutOk(b) && Count(b) == 2
            && Part(b, 0) == RawTransactionBytes(t.raw) && Part(b, 1) == Layout(Each(Prefixed, t.witnesses))
    ensures var b := BlockBytes(k);
            && LayoutOk(b) && Count(b) == 4
            && Part(b, 0) == HeaderBytes(k.header) && Part(b, 1) == Layout(Each(UncleBlockBytes, k.uncles))
            && Part(b, 2) == Layout(Each(TransactionBytes, k.transactions)) && Part(b, 3) == Counted(k.proposals)
    ensures var b := UncleBlockBytes(u);
            LayoutOk(b) && Count(b) == 2 && Part(b, 0) == HeaderBytes(u.header) && Part(b, 1) == Counted(u.proposals)
  {
    hide Layout, Counted, Each, HeaderBytes, RawTransactionBytes;
    var p := [RawTransactionBytes(t.raw), Layout(Each(Prefixed, t.witnesses))];
    Slices(p, 0);
    Slices(p, 1);
    var q := BlockParts(k);
    Slices(q, 0);
    Slices(q, 1);
    Slices(q, 2);
    Slices(q, 3);
    var r := [HeaderBytes(u.header), Counted(u.proposals)];
    Slices(r, 0);
    Slices(r, 1);
  }

  /** Of scripts, cells and witnesses. */
  lemma ScriptSlices(x: Script, o: CellOutput, c: CellbaseWitness, w: WitnessArgs)
    requires |ScriptBytes(x)| < U32_LIMIT && |CellOutputBytes(o)| < U32_LIMIT
    requires |CellbaseWitnessBytes(c)| < U32_LIMIT && |WitnessArgsBytes(w)| < U32_LIMIT
    ensures var b := ScriptBytes(x);
            LayoutOk(b) && Count(b) == 3 && Part(b, 0) == x.codeHash && Part(b, 1) == x.hashType && Part(b, 2) == Prefixed(x.args)
    ensures var b := CellOutputBytes(o);
            && LayoutOk(b) && Count(b) == 3
            && Part(b, 0) == o.capacity && Part(b, 1) == ScriptBytes(o.lock) && Part(b, 2) == ScriptOptBytes(o.type_)
    ensures var b := CellbaseWitnessBytes(c);
            LayoutOk(b) && Count(b) == 2 && Part(b, 0) == ScriptBytes(c.lock) && Part(b, 1) == Prefixed(c.message)
    ensures var b := WitnessArgsBytes(w);
            && LayoutOk(b) && Count(b) == 3
            && Part(b, 0) == PrefixedOpt(w.lock) && Part(b, 1) == PrefixedOpt(w.inputType) && Part(b, 2) == PrefixedOpt(w.outputType)
  {
    hide Layout, Prefixed, PrefixedOpt, ScriptOptBytes;
    var p := [x.codeHash, x.hashType, Prefixed(x.args)];
    Slices(p, 0);
    Slices(p, 1);
    Slices(p, 2);
    var q := [o.capacity, ScriptBytes(o.lock), ScriptOptBytes(o.type_)];
    Slices(q, 0);
    Slices(q, 1);
    Slices(q, 2);
    var r := [ScriptBytes(c.lock), Prefixed(c.message)];
    Slices(r, 0);
    Slices(r, 1);
    var t := [PrefixedOpt(w.lock), PrefixedOpt(w.inputType), PrefixedOpt(w.outputType)];
    Slices(t, 0);
    Slices(t, 1);
    Slices(t, 2);
  }

  /** Item `i` of a vector of items of one size, where the accessor looks for it. */
  lemma {:induction false} CountedSlice(items: seq<seq<byte>>, k: nat, i: nat)
    requires Sized(items, k) && i < |items|
    ensures 4 + k * i + k <= |Counted(items)| && Counted(items)[4 + k * i..4 + k * i + k] == items[i]
  {
    FlattenAt(items, i);
    FlattenSize(items[..i], k);
    FlattenSize(items[i + 1..], k);
    var before, after := Flatten(items[..i]), Flatten(items[i + 1..]);
    assert Counted(items) == Pack(|items|) + before + items[i] + after;
    assert |Pack(|items|) + before| == 4 + k * i;
  }

  /** `CellDep`, `CellInput` and `OutPoint`: slices by offset. */
  lemma StructSlices(d: CellDep, i: CellInput, o: OutPoint)
    requires CellDepOk(d) && CellInputOk(i) && OutPointOk(o)
    ensures |CellDepBytes(d)| == 37 && CellDepBytes(d)[0..36] == OutPointBytes(d.outPoint) && CellDepBytes(d)[36..37] == d.depType
    ensures |CellInputBytes(i)| == 44 && CellInputBytes(i)[0..8] == i.since && CellInputBytes(i)[8..44] == OutPointBytes(i.previousOutput)
    ensures |OutPointBytes(o)| == 36 && OutPointBytes(o)[0..32] == o.txHash && OutPointBytes(o)[32..36] == o.index
  {
  }

  /** The header's slices by offset. */
  lemma HeaderSlices(x: Header)
    requires HeaderOk(x)
    ensures var b := HeaderBytes(x);
            && |b| == 208 && b[0..192] == RawHeaderBytes(x.raw) && b[192..208] == x.nonce
            && b[0..4] == x.raw.version && b[4..8] == x.raw.compactTarget && b[8..16] == x.raw.timestamp
            && b[16..24] == x.raw.number && b[24..32] == x.raw.epoch && b[32..64] == x.raw.parentHash
            && b[64..96] == x.raw.transactionsRoot && b[96..128] == x.raw.proposalsHash
            && b[128..160] == x.raw.unclesHash && b[160..192] == x.raw.dao
  {
  }
}
