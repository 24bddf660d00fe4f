/** The transaction printer and parser of electrumx/lib/tx.py.

    `Tx.Serialize` and its parts are the printer.  The parser is the class `Deserializer`,
    whose methods step a cursor; each is proved against a `Read…` function of the bytes and
    the cursor, about which the round-trip and prefix theorems are proved. */
module Transactions {
  import opened ByteStrings

  datatype TxInput = TxInput(prevHash: Bytes, prevIdx: nat, script: Bytes, sequence: nat) {
    /** A coinbase-like input. */
    predicate IsGeneration() {
      prevIdx == 0xFFFF_FFFF && prevHash == Zeros(32)
    }

    function Serialize(): Bytes {
      prevHash + LE(prevIdx, 4) + PackVarbytes(script) + LE(sequence, 4)
    }

    predicate InRange() {
      |prevHash| == 32 && prevIdx < 0x1_0000_0000 && |script| < TWO_64 && sequence < 0x1_0000_0000
    }
  }

  datatype TxOutput = TxOutput(value: int, script: Bytes) {
    function Serialize(): Bytes {
      PackSigned(value, 8) + PackVarbytes(script)
    }

    predicate InRange() {
      -0x8000_0000_0000_0000 <= value < 0x8000_0000_0000_0000 && |script| < TWO_64
    }
  }

  datatype Tx = Tx(version: int, inputs: seq<TxInput>, outputs: seq<TxOutput>, locktime: nat) {
    predicate InRange() {
      && -0x8000_0000 <= version < 0x8000_0000
      && |inputs| < TWO_64 && InputsInRange(inputs)
      && |outputs| < TWO_64 && OutputsInRange(outputs)
      && locktime < 0x1_0000_0000
    }

    function Serialize(): Bytes {
      PackSigned(version, 4)
      + (PackVarint(|inputs|) + JoinInputs(inputs))
      + (PackVarint(|outputs|) + JoinOutputs(outputs))
      + LE(locktime, 4)
    }
  }

  predicate InputsInRange(ins: seq<TxInput>) {
    forall i :: 0 <= i < |ins| ==> ins[i].InRange()
  }

  predicate OutputsInRange(outs: seq<TxOutput>) {
    forall i :: 0 <= i < |outs| ==> outs[i].InRange()
  }

  predicate TxsInRange(txs: seq<Tx>) {
    forall i :: 0 <= i < |txs| ==> txs[i].InRange()
  }

  const TWO_64: nat := 0x1_0000_0000_0000_0000

  function JoinInputs(ins: seq<TxInput>): Bytes {
    if ins == [] then [] else ins[0].Serialize() + JoinInputs(ins[1..])
  }

  function JoinOutputs(outs: seq<TxOutput>): Bytes {
    if outs == [] then [] else outs[0].Serialize() + JoinOutputs(outs[1..])
  }

  function JoinTxs(txs: seq<Tx>): Bytes {
    if txs == [] then [] else txs[0].Serialize() + JoinTxs(txs[1..])
  }

  /** The transactions of a block, as they follow its header. */
  function BlockBody(txs: seq<Tx>): Bytes {
    PackVarint(|txs|) + JoinTxs(txs)
  }

  /** Two's complement in `w` bytes; the source raises on a number that does not fit. */
  function PackSigned(v: int, w: nat): (b: Bytes)
    ensures |b| == w
  {
    LE(if v >= 0 then v else if v + Range(w) >= 0 then v + Range(w) else 0, w)
  }

  function Signed(n: nat, w: nat): int {
    if 2 * n < Range(w) then n else n - Range(w)
  }

  /** The compact size prefix.  The source raises from 2^64 on, where nothing is claimed. */
  function PackVarint(n: nat): Bytes {
    if n < 253 then LE(n, 1)
    else if n < 0x1_0000 then [253] + LE(n, 2)
    else if n < 0x1_0000_0000 then [254] + LE(n, 4)
    else [255] + LE(n, 8)
  }

  function PackVarbytes(data: Bytes): Bytes {
    PackVarint(|data|) + data
  }

  // ----- The reader, as functions of the bytes and the cursor -----

  /** The exceptions a truncated input may raise. */
  datatype ParseError = IndexError | ValueError | AssertionError

  datatype Parse<+T> = Ok(value: T, next: nat) | Err(error: ParseError)

  function Prepend<T>(ts: seq<T>, p: Parse<seq<T>>): Parse<seq<T>> {
    match p
    case Ok(v, next) => Ok(ts + v, next)
    case Err(e) => Err(e)
  }

  lemma PrependNil<T>(p: Parse<seq<T>>)
    ensures Prepend([], p) == p
  {
    if p.Ok? {
      assert [] + p.value == p.value;
    }
  }

  lemma PrependMore<T>(ts: seq<T>, t: T, p: Parse<seq<T>>)
    ensures Prepend(ts + [t], p) == Prepend(ts, Prepend([t], p))
  {
    if p.Ok? {
      assert ts + [t] + p.value == ts + ([t] + p.value);
    }
  }

  function ReadUint(b: Bytes, c: nat, w: nat): Parse<nat> {
    if c + w > |b| then Err(ValueError) else Ok(FromLE(b[c..c + w]), c + w)
  }

  function ReadSigned(b: Bytes, c: nat, w: nat): Parse<int> {
    match ReadUint(b, c, w)
    case Ok(n, next) => Ok(Signed(n, w), next)
    case Err(e) => Err(e)
  }

  function ReadVarint(b: Bytes, c: nat): Parse<nat> {
    if c >= |b| then Err(IndexError)
    else if b[c] < 253 then Ok(b[c], c + 1)
    else if b[c] == 253 then ReadUint(b, c + 1, 2)
    else if b[c] == 254 then ReadUint(b, c + 1, 4)
    else ReadUint(b, c + 1, 8)
  }

  function ReadNbytes(b: Bytes, c: nat, n: nat): Parse<Bytes> {
    if c + n > |b| then Err(AssertionError) else Ok(b[c..c + n], c + n)
  }

  function ReadVarbytes(b: Bytes, c: nat): Parse<Bytes> {
    match ReadVarint(b, c)
    case Ok(n, next) => ReadNbytes(b, next, n)
    case Err(e) => Err(e)
  }

  function ReadInput(b: Bytes, c: nat): Parse<TxInput> {
    match ReadNbytes(b, c, 32)
    case Err(e) => Err(e)
    case Ok(hash, c1) =>
      match ReadUint(b, c1, 4)
      case Err(e) => Err(e)
      case Ok(idx, c2) =>
        match ReadVarbytes(b, c2)
        case Err(e) => Err(e)
        case Ok(script, c3) =>
          match ReadUint(b, c3, 4)
          case Err(e) => Err(e)
          case Ok(sequence, c4) => Ok(TxInput(hash, idx, script, sequence), c4)
  }

  function ReadOutput(b: Bytes, c: nat): Parse<TxOutput> {
    match ReadSigned(b, c, 8)
    case Err(e) => Err(e)
    case Ok(value, c1) =>
      match ReadVarbytes(b, c1)
      case Err(e) => Err(e)
      case Ok(script, c2) => Ok(TxOutput(value, script), c2)
  }

  function ReadInputs(b: Bytes, c: nat, n: nat): Parse<seq<TxInput>>
    decreases n
  {
    if n == 0 then Ok([], c) else
    match ReadInput(b, c)
    case Err(e) => Err(e)
    case Ok(one, c1) => Prepend([one], ReadInputs(b, c1, n - 1))
  }

  function ReadOutputs(b: Bytes, c: nat, n: nat): Parse<seq<TxOutput>>
    decreases n
  {
    if n == 0 then Ok([], c) else
    match ReadOutput(b, c)
    case Err(e) => Err(e)
    case Ok(one, c1) => Prepend([one], ReadOutputs(b, c1, n - 1))
  }

  function ReadInputList(b: Bytes, c: nat): Parse<seq<TxInput>> {
    match ReadVarint(b, c)
    case Err(e) => Err(e)
    case Ok(n, c1) => ReadInputs(b, c1, n)
  }

  function ReadOutputList(b: Bytes, c: nat): Parse<seq<TxOutput>> {
    match ReadVarint(b, c)
    case Err(e) => Err(e)
    case Ok(n, c1) => ReadOutputs(b, c1, n)
  }

  function ReadTx(b: Bytes, c: nat): Parse<Tx> {
    match ReadSigned(b, c, 4)
    case Err(e) => Err(e)
    case Ok(version, c1) =>
      match ReadInputList(b, c1)
      case Err(e) => Err(e)
      case Ok(ins, c2) =>
        match ReadOutputList(b, c2)
        case Err(e) => Err(e)
        case Ok(outs, c3) =>
          match ReadUint(b, c3, 4)
          case Err(e) => Err(e)
          case Ok(locktime, c4) => Ok(Tx(version, ins, outs, locktime), c4)
  }

  function ReadTxs(b: Bytes, c: nat, n: nat): Parse<seq<Tx>>
    decreases n
  {
    if n == 0 then Ok([], c) else
    match ReadTx(b, c)
    case Err(e) => Err(e)
    case Ok(one, c1) => Prepend([one], ReadTxs(b, c1, n - 1))
  }

  function ReadBlockBody(b: Bytes, c: nat): Parse<seq<Tx>> {
    match ReadVarint(b, c)
    case Err(e) => Err(e)
    case Ok(n, c1) => ReadTxs(b, c1, n)
  }

  // ----- Round trip -----

  /** `s` stands in `b` at offset `c`. */
  predicate At(b: Bytes, c: nat, s: Bytes) {
    c + |s| <= |b| && b[c..c + |s|] == s
  }

  lemma AtConcat(b: Bytes, c: nat, s: Bytes, t: Bytes)
    ensures At(b, c, s + t) <==> At(b, c, s) && At(b, c + |s|, t)
  {
    if c + |s| + |t| <= |b| {
      assert b[c..c + |s| + |t|] == b[c..c + |s|] + b[c + |s|..c + |s| + |t|];
      if b[c..c + |s| + |t|] == s + t {
        assert b[c..c + |s|] == (b[c..c + |s| + |t|])[..|s|] == s;
        assert b[c + |s|..c + |s| + |t|] == (b[c..c + |s| + |t|])[|s|..] == t;
      }
    }
  }

  lemma RangeValues()
    ensures Range(1) == 0x100 && Range(2) == 0x1_0000 && Range(4) == 0x1_0000_0000
    ensures Range(8) == TWO_64
  {
    assert Range(3) == 256 * Range(2) && Range(5) == 256 * Range(4);
    assert Range(6) == 256 * Range(5) && Range(7) == 256 * Range(6);
  }

  lemma UintRoundTrip(b: Bytes, c: nat, n: nat, w: nat)
    requires n < Range(w) && At(b, c, LE(n, w))
    ensures ReadUint(b, c, w) == Ok(n, c + w)
  {
    FromLeOfLe(n, w);
  }

  lemma SignedRoundTrip(b: Bytes, c: nat, v: int, w: nat)
    requires 0 <= 2 * v + Range(w) && 2 * v < Range(w) && At(b, c, PackSigned(v, w))
    ensures ReadSigned(b, c, w) == Ok(v, c + w)
  {
    UintRoundTrip(b, c, if v < 0 then v + Range(w) else v, w);
  }

  lemma VarintRoundTrip(b: Bytes, c: nat, n: nat)
    requires n < TWO_64 && At(b, c, PackVarint(n))
    ensures ReadVarint(b, c) == Ok(n, c + |PackVarint(n)|)
  {
    RangeValues();
    assert b[c] == PackVarint(n)[0];
    if n < 253 {
      assert LE(n, 1)[0] == n;
    } else {
      var w := if n < 0x1_0000 then 2 else if n < 0x1_0000_0000 then 4 else 8;
      AtConcat(b, c, [b[c]], LE(n, w));
      UintRoundTrip(b, c + 1, n, w);
    }
  }

  lemma VarbytesRoundTrip(b: Bytes, c: nat, data: Bytes)
    requires |data| < TWO_64 && At(b, c, PackVarbytes(data))
    ensures ReadVarbytes(b, c) == Ok(data, c + |PackVarbytes(data)|)
  {
    AtConcat(b, c, PackVarint(|data|), data);
    VarintRoundTrip(b, c, |data|);
    BytesAfterCount(b, c, c + |PackVarint(|data|)|, data);
  }

  lemma BytesAfterCount(b: Bytes, c: nat, next: nat, data: Bytes)
    requires ReadVarint(b, c) == Ok(|data|, next) && At(b, next, data)
    ensures ReadVarbytes(b, c) == Ok(data, next + |data|)
  {
  }

  lemma InputRoundTrip(b: Bytes, c: nat, i: TxInput)
    requires i.InRange() && At(b, c, i.Serialize())
    ensures ReadInput(b, c) == Ok(i, c + |i.Serialize()|)
  {
    RangeValues();
    var s0, s1, s2, s3 := i.prevHash, LE(i.prevIdx, 4), PackVarbytes(i.script), LE(i.sequence, 4);
    AtConcat(b, c, s0 + s1 + s2, s3);
    AtConcat(b, c, s0 + s1, s2);
    AtConcat(b, c, s0, s1);
    UintRoundTrip(b, c + 32, i.prevIdx, 4);
    VarbytesRoundTrip(b, c + 36, i.script);
    UintRoundTrip(b, c + 36 + |s2|, i.sequence, 4);
  }

  lemma OutputRoundTrip(b: Bytes, c: nat, o: TxOutput)
    requires o.InRange() && At(b, c, o.Serialize())
    ensures ReadOutput(b, c) == Ok(o, c + |o.Serialize()|)
  {
    RangeValues();
    AtConcat(b, c, PackSigned(o.value, 8), PackVarbytes(o.script));
    SignedRoundTrip(b, c, o.value, 8);
    VarbytesRoundTrip(b, c + 8, o.script);
  }

  lemma {:induction false} InputsRoundTrip(b: Bytes, c: nat, ins: seq<TxInput>)
    requires InputsInRange(ins) && At(b, c, JoinInputs(ins))
    ensures ReadInputs(b, c, |ins|) == Ok(ins, c + |JoinInputs(ins)|)
    decreases |ins|
  {
    hide ReadInput, At, TxInput.Serialize, TxInput.InRange;
    if ins != [] {
      AtConcat(b, c, ins[0].Serialize(), JoinInputs(ins[1..]));
      InputRoundTrip(b, c, ins[0]);
      InputsRoundTrip(b, c + |ins[0].Serialize()|, ins[1..]);
      assert [ins[0]] + ins[1..] == ins;
    }
  }

  lemma {:induction false} OutputsRoundTrip(b: Bytes, c: nat, outs: seq<TxOutput>)
    requires OutputsInRange(outs) && At(b, c, JoinOutputs(outs))
    ensures ReadOutputs(b, c, |outs|) == Ok(outs, c + |JoinOutputs(outs)|)
    decreases |outs|
  {
    hide ReadOutput, At, TxOutput.Serialize, TxOutput.InRange;
    if outs != [] {
      AtConcat(b, c, outs[0].Serialize(), JoinOutputs(outs[1..]));
      OutputRoundTrip(b, c, outs[0]);
      OutputsRoundTrip(b, c + |outs[0].Serialize()|, outs[1..]);
      assert [outs[0]] + outs[1..] == outs;
    }
  }

  lemma InputListRoundTrip(b: Bytes, c: nat, ins: seq<TxInput>)
    requires |ins| < TWO_64 && InputsInRange(ins)
    requires At(b, c, PackVarint(|ins|) + JoinInputs(ins))
    ensures ReadInputList(b, c) == Ok(ins, c + |PackVarint(|ins|)| + |JoinInputs(ins)|)
  {
    hide ReadInputs, ReadVarint, JoinInputs, PackVarint;
    AtConcat(b, c, PackVarint(|ins|), JoinInputs(ins));
    VarintRoundTrip(b, c, |ins|);
    InputsRoundTrip(b, c + |PackVarint(|ins|)|, ins);
  }

  lemma OutputListRoundTrip(b: Bytes, c: nat, outs: seq<TxOutput>)
    requires |outs| < TWO_64 && OutputsInRange(outs)
    requires At(b, c, PackVarint(|outs|) + JoinOutputs(outs))
    ensures ReadOutputList(b, c) == Ok(outs, c + |PackVarint(|outs|)| + |JoinOutputs(outs)|)
  {
    hide ReadOutputs, ReadVarint, JoinOutputs, PackVarint;
    AtConcat(b, c, PackVarint(|outs|), JoinOutputs(outs));
    VarintRoundTrip(b, c, |outs|);
    OutputsRoundTrip(b, c + |PackVarint(|outs|)|, outs);
  }

  /** Four strings standing one after the other. */
  lemma AtConcat4(b: Bytes, c: nat, s0: Bytes, s1: Bytes, s2: Bytes, s3: Bytes)
    requires At(b, c, s0 + s1 + s2 + s3)
    ensures At(b, c, s0) && At(b, c + |s0|, s1) && At(b, c + |s0| + |s1|, s2)
    ensures At(b, c + |s0| + |s1| + |s2|, s3)
  {
    AtConcat(b, c, s0 + s1 + s2, s3);
    AtConcat(b, c, s0 + s1, s2);
    AtConcat(b, c, s0, s1);
  }

  /** Parsing at any offset gives back the printed transaction and stops exactly after it. */
  lemma TxRoundTrip(b: Bytes, c: nat, t: Tx)
    requires t.InRange() && At(b, c, t.Serialize())
    ensures ReadTx(b, c) == Ok(t, c + |t.Serialize()|)
  {
    hide ReadInputList, ReadOutputList, ReadSigned, ReadUint, JoinInputs, JoinOutputs, PackVarint, PackSigned, LE, At;
    RangeValues();
    var s0, s3 := PackSigned(t.version, 4), LE(t.locktime, 4);
    var s1 := PackVarint(|t.inputs|) + JoinInputs(t.inputs);
    var s2 := PackVarint(|t.outputs|) + JoinOutputs(t.outputs);
    AtConcat4(b, c, s0, s1, s2, s3);
    SignedRoundTrip(b, c, t.version, 4);
    InputListRoundTrip(b, c + 4, t.inputs);
    OutputListRoundTrip(b, c + 4 + |s1|, t.outputs);
    UintRoundTrip(b, c + 4 + |s1| + |s2|, t.locktime, 4);
  }

  lemma {:induction false} TxsRoundTrip(b: Bytes, c: nat, txs: seq<Tx>)
    requires TxsInRange(txs) && At(b, c, JoinTxs(txs))
    ensures ReadTxs(b, c, |txs|) == Ok(txs, c + |JoinTxs(txs)|)
    decreases |txs|
  {
    hide ReadTx, At, Tx.Serialize, Tx.InRange;
    if txs != [] {
      AtConcat(b, c, txs[0].Serialize(), JoinTxs(txs[1..]));
      TxRoundTrip(b, c, txs[0]);
      TxsRoundTrip(b, c + |txs[0].Serialize()|, txs[1..]);
      assert [txs[0]] + txs[1..] == txs;
    }
  }

  /** The same for the transactions of a block. */
  lemma BlockRoundTrip(b: Bytes, c: nat, txs: seq<Tx>)
    requires |txs| < TWO_64 && TxsInRange(txs)
    requires At(b, c, BlockBody(txs))
    ensures ReadBlockBody(b, c) == Ok(txs, c + |BlockBody(txs)|)
  {
    hide ReadTxs, JoinTxs, ReadVarint, PackVarint;
    AtConcat(b, c, PackVarint(|txs|), JoinTxs(txs));
    VarintRoundTrip(b, c, |txs|);
    TxsRoundTrip(b, c + |PackVarint(|txs|)|, txs);
  }

  // ----- Truncated input -----

  /** A reader that succeeded read only bytes it has, so more bytes change nothing. */
  lemma VarintStable(b: Bytes, more: Bytes, c: nat)
    requires ReadVarint(b, c).Ok?
    ensures ReadVarint(b, c).next <= |b|
    ensures ReadVarint(b + more, c) == ReadVarint(b, c)
  {
    UintStable(b, more, c + 1, if b[c] == 253 then 2 else if b[c] == 254 then 4 else 8);
  }

  lemma UintStable(b: Bytes, more: Bytes, c: nat, w: nat)
    ensures ReadUint(b, c, w).Ok? ==> ReadUint(b + more, c, w) == ReadUint(b, c, w)
  {
    if c + w <= |b| {
      assert (b + more)[c..c + w] == b[c..c + w];
    }
  }

  lemma VarbytesStable(b: Bytes, more: Bytes, c: nat)
    requires ReadVarbytes(b, c).Ok?
    ensures ReadVarbytes(b, c).next <= |b|
    ensures ReadVarbytes(b + more, c) == ReadVarbytes(b, c)
  {
    VarintStable(b, more, c);
    var v := ReadVarint(b, c);
    assert (b + more)[v.next..v.next + v.value] == b[v.next..v.next + v.value];
  }

  lemma InputStable(b: Bytes, more: Bytes, c: nat)
    requires ReadInput(b, c).Ok?
    ensures ReadInput(b, c).next <= |b|
    ensures ReadInput(b + more, c) == ReadInput(b, c)
  {
    assert (b + more)[c..c + 32] == b[c..c + 32];
    UintStable(b, more, c + 32, 4);
    VarbytesStable(b, more, c + 36);
    UintStable(b, more, ReadVarbytes(b, c + 36).next, 4);
  }

  lemma OutputStable(b: Bytes, more: Bytes, c: nat)
    requires ReadOutput(b, c).Ok?
    ensures ReadOutput(b, c).next <= |b|
    ensures ReadOutput(b + more, c) == ReadOutput(b, c)
  {
    UintStable(b, more, c, 8);
    VarbytesStable(b, more, c + 8);
  }

  lemma {:induction false} InputsStable(b: Bytes, more: Bytes, c: nat, n: nat)
    requires c <= |b| && ReadInputs(b, c, n).Ok?
    ensures ReadInputs(b, c, n).next <= |b|
    ensures ReadInputs(b + more, c, n) == ReadInputs(b, c, n)
    decreases n
  {
    hide ReadInput;
    if n > 0 {
      InputStable(b, more, c);
      InputsStable(b, more, ReadInput(b, c).next, n - 1);
    }
  }

  lemma {:induction false} OutputsStable(b: Bytes, more: Bytes, c: nat, n: nat)
    requires c <= |b| && ReadOutputs(b, c, n).Ok?
    ensures ReadOutputs(b, c, n).next <= |b|
    ensures ReadOutputs(b + more, c, n) == ReadOutputs(b, c, n)
    decreases n
  {
    hide ReadOutput;
    if n > 0 {
      OutputStable(b, more, c);
      OutputsStable(b, more, ReadOutput(b, c).next, n - 1);
    }
  }

  lemma InputListStable(b: Bytes, more: Bytes, c: nat)
    requires ReadInputList(b, c).Ok?
    ensures ReadInputList(b, c).next <= |b|
    ensures ReadInputList(b + more, c) == ReadInputList(b, c)
  {
    VarintStable(b, more, c);
    var n := ReadVarint(b, c);
    InputsStable(b, more, n.next, n.value);
  }

  lemma OutputListStable(b: Bytes, more: Bytes, c: nat)
    requires ReadOutputList(b, c).Ok?
    ensures ReadOutputList(b, c).next <= |b|
    ensures ReadOutputList(b + more, c) == ReadOutputList(b, c)
  {
    VarintStable(b, more, c);
    var n := ReadVarint(b, c);
    OutputsStable(b, more, n.next, n.value);
  }

  lemma TxStable(b: Bytes, more: Bytes, c: nat)
    requires ReadTx(b, c).Ok?
    ensures ReadTx(b, c).next <= |b|
    ensures ReadTx(b + more, c) == ReadTx(b, c)
  {
    UintStable(b, more, c, 4);
    InputListStable(b, more, c + 4);
    var ins := ReadInputList(b, c + 4);
    OutputListStable(b, more, ins.next);
    UintStable(b, more, ReadOutputList(b, ins.next).next, 4);
  }

  lemma {:induction false} TxsStable(b: Bytes, more: Bytes, c: nat, n: nat)
    requires c <= |b| && ReadTxs(b, c, n).Ok?
    ensures ReadTxs(b, c, n).next <= |b|
    ensures ReadTxs(b + more, c, n) == ReadTxs(b, c, n)
    decreases n
  {
    hide ReadTx;
    if n > 0 {
      TxStable(b, more, c);
      TxsStable(b, more, ReadTx(b, c).next, n - 1);
    }
  }

  /** Every proper prefix of a printed transaction is rejected, never parsed as another one. */
  lemma TruncatedTxRejected(t: Tx, n: nat)
    requires t.InRange() && n < |t.Serialize()|
    ensures ReadTx(t.Serialize()[..n], 0).Err?
  {
    var s := t.Serialize();
    if ReadTx(s[..n], 0).Ok? {
      TxStable(s[..n], s[n..], 0);
      assert s[..n] + s[n..] == s;
      TxRoundTrip(s, 0, t);
    }
  }

  lemma TruncatedBlockRejected(txs: seq<Tx>, n: nat)
    requires |txs| < TWO_64 && TxsInRange(txs)
    requires n < |BlockBody(txs)|
    ensures ReadBlockBody(BlockBody(txs)[..n], 0).Err?
  {
    var s := BlockBody(txs);
    var p := s[..n];
    if ReadBlockBody(p, 0).Ok? {
      VarintStable(p, s[n..], 0);
      var count := ReadVarint(p, 0);
      TxsStable(p, s[n..], count.next, count.value);
      assert p + s[n..] == s;
      BlockRoundTrip(s, 0, txs);
    }
  }

  /** Distinct transactions are printed differently, even as the start of a longer string. */
  lemma SerializeInjective(t: Tx, u: Tx, rest: Bytes)
    requires t.InRange() && u.InRange() && t.Serialize() == u.Serialize() + rest
    ensures t == u && rest == []
  {
    assert t.Serialize()[..|u.Serialize()|] == u.Serialize();
    TxRoundTrip(t.Serialize(), 0, t);
    TxRoundTrip(t.Serialize(), 0, u);
  }

  // ----- The cursor-stepping parser -----

  datatype Outcome<+T> = Done(value: T) | Raised(error: ParseError)

  /** Reads from `binary` at `cursor`.  After an exception the object is abandoned, so its
      cursor is only described when the read succeeds. */
  class Deserializer {
    const binary: Bytes
    var cursor: nat

    constructor (binary: Bytes, start: nat)
      ensures this.binary == binary && cursor == start
    {
      this.binary := binary;
      cursor := start;
    }

    ghost predicate Agrees<T>(r: Outcome<T>, spec: Parse<T>)
      reads this
    {
      match spec
      case Ok(v, next) => r == Done(v) && cursor == next
      case Err(e) => r == Raised(e)
    }

    method ReadLeUint(w: nat) returns (r: Outcome<nat>)
      modifies this
      ensures Agrees(r, ReadUint(binary, old(cursor), w))
      ensures r.Raised? <==> |binary| < old(cursor) + w
      ensures cursor == if r.Raised? then old(cursor) else old(cursor) + w
    {
      if cursor + w > |binary| {
        return Raised(ValueError);
      }
      r := Done(FromLE(binary[cursor..cursor + w]));
      cursor := cursor + w;
    }

    method ReadLeInt(w: nat) returns (r: Outcome<int>)
      modifies this
      ensures Agrees(r, ReadSigned(binary, old(cursor), w))
    {
      var n := ReadLeUint(w);
      match n
      case Done(v) => r := Done(Signed(v, w));
      case Raised(e) => r := Raised(e);
    }

    method ReadCount() returns (r: Outcome<nat>)
      modifies this
      ensures Agrees(r, ReadVarint(binary, old(cursor)))
    {
      if cursor >= |binary| {
        return Raised(IndexError);
      }
      var n := binary[cursor];
      cursor := cursor + 1;
      if n < 253 {
        return Done(n);
      } else if n == 253 {
        r := ReadLeUint(2);
      } else if n == 254 {
        r := ReadLeUint(4);
      } else {
        r := ReadLeUint(8);
      }
    }

    method Nbytes(n: nat) returns (r: Outcome<Bytes>)
      modifies this
      ensures Agrees(r, ReadNbytes(binary, old(cursor), n))
    {
      var start := cursor;
      cursor := start + n;
      if |binary| < cursor {
        return Raised(AssertionError);
      }
      return Done(binary[start..cursor]);
    }

    method Varbytes() returns (r: Outcome<Bytes>)
      modifies this
      ensures Agrees(r, ReadVarbytes(binary, old(cursor)))
    {
      var n := ReadCount();
      match n
      case Done(v) => r := Nbytes(v);
      case Raised(e) => r := Raised(e);
    }

    method Input() returns (r: Outcome<TxInput>)
      modifies this
      ensures Agrees(r, ReadInput(binary, old(cursor)))
    {
      var hash := Nbytes(32);
      if hash.Raised? { return Raised(hash.error); }
      var idx := ReadLeUint(4);
      if idx.Raised? { return Raised(idx.error); }
      var script := Varbytes();
      if script.Raised? { return Raised(script.error); }
      var sequence := ReadLeUint(4);
      if sequence.Raised? { return Raised(sequence.error); }
      return Done(TxInput(hash.value, idx.value, script.value, sequence.value));
    }

    method Output() returns (r: Outcome<TxOutput>)
      modifies this
      ensures Agrees(r, ReadOutput(binary, old(cursor)))
    {
      var value := ReadLeInt(8);
      if value.Raised? { return Raised(value.error); }
      var script := Varbytes();
      if script.Raised? { return Raised(script.error); }
      return Done(TxOutput(value.value, script.value));
    }

    method Inputs() returns (r: Outcome<seq<TxInput>>)
      modifies this
      ensures Agrees(r, ReadInputList(binary, old(cursor)))
    {
      hide ReadInput, ReadVarint;
      var n := ReadCount();
      if n.Raised? { return Raised(n.error); }
      ghost var start := cursor;
      var ins := [];
      PrependNil(ReadInputs(binary, start, n.value));
      for i := 0 to n.value
        invariant ReadInputs(binary, start, n.value) == Prepend(ins, ReadInputs(binary, cursor, n.value - i))
      {
        var one := Input();
        if one.Raised? { return Raised(one.error); }
        PrependMore(ins, one.value, ReadInputs(binary, cursor, n.value - i - 1));
        ins := ins + [one.value];
      }
      assert ins + [] == ins;
      return Done(ins);
    }

    method Outputs() returns (r: Outcome<seq<TxOutput>>)
      modifies this
      ensures Agrees(r, ReadOutputList(binary, old(cursor)))
    {
      hide ReadOutput, ReadVarint;
      var n := ReadCount();
      if n.Raised? { return Raised(n.error); }
      ghost var start := cursor;
      var outs := [];
      PrependNil(ReadOutputs(binary, start, n.value));
      for i := 0 to n.value
        invariant ReadOutputs(binary, start, n.value) == Prepend(outs, ReadOutputs(binary, cursor, n.value - i))
      {
        var one := Output();
        if one.Raised? { return Raised(one.error); }
        PrependMore(outs, one.value, ReadOutputs(binary, cursor, n.value - i - 1));
        outs := outs + [one.value];
      }
      assert outs + [] == outs;
      return Done(outs);
    }

    method Transaction() returns (r: Outcome<Tx>)
      modifies this
      ensures Agrees(r, ReadTx(binary, old(cursor)))
    {
      var version := ReadLeInt(4);
      if version.Raised? { return Raised(version.error); }
      var ins := Inputs();
      if ins.Raised? { return Raised(ins.error); }
      var outs := Outputs();
      if outs.Raised? { return Raised(outs.error); }
      var locktime := ReadLeUint(4);
      if locktime.Raised? { return Raised(locktime.error); }
      return Done(Tx(version.value, ins.value, outs.value, locktime.value));
    }

    method BlockTransactions() returns (r: Outcome<seq<Tx>>)
      modifies this
      ensures Agrees(r, ReadBlockBody(binary, old(cursor)))
    {
      hide ReadTx, ReadVarint;
      var n := ReadCount();
      if n.Raised? { return Raised(n.error); }
      ghost var start := cursor;
      var txs := [];
      PrependNil(ReadTxs(binary, start, n.value));
      for i := 0 to n.value
        invariant ReadTxs(binary, start, n.value) == Prepend(txs, ReadTxs(binary, cursor, n.value - i))
      {
        var one := Transaction();
        if one.Raised? { return Raised(one.error); }
        PrependMore(txs, one.value, ReadTxs(binary, cursor, n.value - i - 1));
        txs := txs + [one.value];
      }
      assert txs + [] == txs;
      return Done(txs);
    }
  }
}
