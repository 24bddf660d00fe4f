/** Where the debits of the Glyph ledger come from: the `ri` and `rb` rows of a spent output give
    back the refs and the base hashX that the output was credited with
    (electrumx/server/block_processor.py). */
module LedgerRows {
  import opened ByteStrings
  import opened Utxos
  import opened RefRows
  import UndoCodec
  import Scripts
  import GlyphIndexes

  const ENTRY := 37

  lemma {:induction false} RefsInAppend(data: Bytes, entry: Bytes)
    requires |data| % ENTRY == 0 && |entry| == ENTRY
    ensures GlyphIndexes.RefsIn(data + entry) == GlyphIndexes.RefsIn(data) + [entry[..36]]
    decreases |data|
  {
    if data == [] {
      assert data + entry == entry;
      assert UndoCodec.Drop(entry, ENTRY) == [];
      assert GlyphIndexes.RefsIn([]) == [];
    } else {
      var rest := data[ENTRY..];
      assert UndoCodec.Drop(data, ENTRY) == rest && UndoCodec.Drop(data + entry, ENTRY) == rest + entry;
      assert (data + entry)[..36] == data[..36];
      RefsInAppend(rest, entry);
    }
  }

  /** The refs of an `ri` row read back, whatever their kinds. */
  lemma {:induction false} RefsReadBack(refs: seq<Bytes>, normals: set<Bytes>)
    requires forall i :: 0 <= i < |refs| ==> |refs[i]| == 36
    ensures GlyphIndexes.RefsIn(RefsValue(refs, normals)) == refs
    ensures |RefsValue(refs, normals)| % ENTRY == 0
  {
    hide GlyphIndexes.RefsIn;
    if refs == [] {
      NoRefsIn();
    } else {
      var init, last := refs[..|refs| - 1], refs[|refs| - 1];
      RefsReadBack(init, normals);
      var entry := last + [if last in normals then 0 else 1];
      RefsInAppend(RefsValue(init, normals), entry);
      assert RefsValue(refs, normals) == RefsValue(init, normals) + entry;
      assert entry[..36] == last && refs == init + [last];
    }
  }

  lemma NoRefsIn()
    ensures GlyphIndexes.RefsIn([]) == []
  {
  }

  /** The row of an output gives the refs of its script, each once. */
  lemma RiRowReads(script: Bytes)
    ensures GlyphIndexes.RefsIn(RiValue(script)) == Dedup(Scripts.AllRefs(OutputRefs(script)))
    ensures GlyphIndexes.GoodRefs(GlyphIndexes.RefsIn(RiValue(script)))
  {
    hide GlyphIndexes.RefsIn, RefsValue, Scripts.PushedRefs, Scripts.OutputIndexable;
    var all := Scripts.AllRefs(OutputRefs(script));
    var refs := Dedup(all);
    if Scripts.OutputIndexable(script) {
      RefLengths(script, 0);
    }
    AllLengths(OutputRefs(script));
    DedupDistinct(all);
    forall i | 0 <= i < |refs|
      ensures |refs[i]| == 36
    {
      assert refs[i] in all;
    }
    RefsReadBack(refs, OfKind(script, false));
  }

  lemma {:induction false} AllLengths(rs: seq<Scripts.PushedRef>)
    requires forall p :: p in rs ==> |p.ref| == 36
    ensures forall r :: r in Scripts.AllRefs(rs) ==> |r| == 36
  {
    if rs != [] {
      assert rs == [rs[0]] + rs[1..];
      AllLengths(rs[1..]);
    }
  }

  lemma {:induction false} DedupDistinct(s: seq<Bytes>)
    ensures forall i, j :: 0 <= i < j < |Dedup(s)| ==> Dedup(s)[i] != Dedup(s)[j]
  {
    if s != [] {
      DedupDistinct(s[..|s| - 1]);
    }
  }

  // ----- The rows stay as long as the output is in the chain -----

  /** The rows of output `i`. */
  predicate HasRows(base: Bytes -> Bytes, rows: Rows, t: BlockTx, i: nat)
    requires i < |t.tx.outputs|
  {
    var script, o := t.tx.outputs[i].script, PackedOutpoint(t.hash, i);
    OutputRefs(script) != [] ==>
      Ri(o) in rows && rows[Ri(o)] == RiValue(script) && Rb(o) in rows && rows[Rb(o)] == base(script)
  }

  lemma {:induction false} OutputRows(base: Bytes -> Bytes, rows: Rows, t: BlockTx, n: nat, i: nat)
    requires i < n <= |t.tx.outputs| <= Range(4)
    ensures HasRows(base, RowsTo(base, rows, t, n), t, i)
  {
    hide PackedOutpoint, RiValue, OutputRefs, OfKind, Spends, Range;
    PackedDiffer(t.hash, i, n - 1);
    if i < n - 1 {
      OutputRows(base, rows, t, n - 1, i);
    }
  }

  lemma RowsKept(base: Bytes -> Bytes, rows: Rows, m: Minted, t: BlockTx, u: BlockTx, i: nat)
    requires ValidRefsTx(rows, m, t) && MintRows(rows, m) && i < |u.tx.outputs| && HasRows(base, rows, u, i)
    ensures HasRows(base, RowsTx(base, rows, t), u, i)
  {
    hide PackedOutpoint, RiValue, OutputRefs, ValidRefsTx, MintRows, DeletedRows, RowsTo;
    var o := PackedOutpoint(u.hash, i);
    NewRows(rows, m, t, Ri(o));
    NewRows(rows, m, t, Rb(o));
    if OutputRefs(u.tx.outputs[i].script) != [] {
      RowsWritten(base, rows, t, |t.tx.outputs|, Ri(o));
      RowsWritten(base, rows, t, |t.tx.outputs|, Rb(o));
    }
  }

  lemma {:induction false} RowsKeptBlock(base: Bytes -> Bytes, rows: Rows, m: Minted, txs: Block, u: BlockTx, i: nat)
    requires ValidRefs(base, rows, m, txs) && MintRows(rows, m) && i < |u.tx.outputs| && HasRows(base, rows, u, i)
    ensures HasRows(base, RowsBlock(base, rows, txs), u, i)
    decreases |txs|
  {
    hide HasRows, ValidRefsTx, MintRows, RowsTx, Minted.With;
    if txs != [] {
      RowsKept(base, rows, m, txs[0], u, i);
      MintRowsTx(base, rows, m, txs[0]);
      RowsKeptBlock(base, RowsTx(base, rows, txs[0]), m.With(txs[0]), txs[1..], u, i);
    }
  }

  lemma {:induction false} RowsInBlock(base: Bytes -> Bytes, rows: Rows, m: Minted, txs: Block, j: nat, i: nat)
    requires ValidRefs(base, rows, m, txs) && MintRows(rows, m) && j < |txs| && i < |txs[j].tx.outputs|
    ensures HasRows(base, RowsBlock(base, rows, txs), txs[j], i)
    decreases |txs|
  {
    hide HasRows, MintRows, RowsTx, Minted.With, ValidRefsTx;
    MintRowsTx(base, rows, m, txs[0]);
    if j == 0 {
      FirstRows(base, rows, m, txs[0], i);
      RowsKeptBlock(base, RowsTx(base, rows, txs[0]), m.With(txs[0]), txs[1..], txs[0], i);
    } else {
      RowsInBlock(base, RowsTx(base, rows, txs[0]), m.With(txs[0]), txs[1..], j - 1, i);
    }
  }

  lemma FirstRows(base: Bytes -> Bytes, rows: Rows, m: Minted, t: BlockTx, i: nat)
    requires ValidRefsTx(rows, m, t) && i < |t.tx.outputs|
    ensures HasRows(base, RowsTx(base, rows, t), t, i)
  {
    hide HasRows, RowsTo, Range;
    OutputRows(base, rows, t, |t.tx.outputs|, i);
  }

  /** Every output of the chain that carries refs has its `ri` and `rb` rows, as it was credited. */
  lemma {:induction false} RowsOfOutput(base: Bytes -> Bytes, chain: seq<Block>, b: nat, j: nat, i: nat)
    requires ValidRefsChain(base, chain) && b < |chain| && j < |chain[b]| && i < |chain[b][j].tx.outputs|
    ensures HasRows(base, RowsAt(base, chain), chain[b][j], i)
    decreases |chain|
  {
    hide HasRows, MintRows, RowsBlock, ValidRefs, MintedAt;
    var before, last := chain[..|chain| - 1], chain[|chain| - 1];
    MintRowsChain(base, before);
    if b == |chain| - 1 {
      RowsInBlock(base, RowsAt(base, before), MintedAt(before), last, j, i);
    } else {
      RowsOfOutput(base, before, b, j, i);
      RowsKeptBlock(base, RowsAt(base, before), MintedAt(before), last, chain[b][j], i);
    }
  }
}
