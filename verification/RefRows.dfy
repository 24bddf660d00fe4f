/** The ref tables of electrumx/server/block_processor.py: which refs an output carries (`ri`),
    the base address it is held by (`rb`), where a ref was minted (`rm`) and where a singleton
    ref was last moved (`rl`); what a block does to them, and what backing it up does.

    `rl` rows are restored from undo information that holds the values the database had when
    the block was advanced, the others by deleting what the block wrote. */
module RefRows {
  import opened ByteStrings
  import opened Utxos
  import Scripts
  import Transactions

  datatype RefKey = Ri(outpoint: Bytes) | Rb(outpoint: Bytes) | Rm(ref: Bytes)

  type Rows = map<RefKey, Bytes>

  /** The `rl` rows. */
  type Locs = map<Bytes, Bytes>

  /** A ref is the packed outpoint it was minted from. */
  function PackedOutpoint(hash: Bytes, idx: nat): Bytes {
    hash + LE(idx, 4)
  }

  lemma PackedDiffer(hash: Bytes, i: nat, j: nat)
    requires i < Range(4) && j < Range(4)
    ensures PackedOutpoint(hash, i) == PackedOutpoint(hash, j) <==> i == j
  {
    hide LE, Range;
    FromLeOfLe(i, 4);
    FromLeOfLe(j, 4);
    assert PackedOutpoint(hash, i)[|hash|..] == LE(i, 4);
    assert PackedOutpoint(hash, j)[|hash|..] == LE(j, 4);
  }

  /** The outpoints a transaction spends, packed. */
  function Spends(t: BlockTx): set<Bytes> {
    set i | i in t.tx.inputs && !i.IsGeneration() :: PackedOutpoint(i.prevHash, i.prevIdx)
  }

  /** The refs of an output that is indexed. */
  function OutputRefs(script: Bytes): seq<Scripts.PushedRef> {
    if Scripts.OutputIndexable(script) then Scripts.PushedRefs(script, 0) else []
  }

  function OfKind(script: Bytes, singleton: bool): set<Bytes> {
    set p | p in OutputRefs(script) && p.singleton == singleton :: p.ref
  }

  /** The refs of the first `n` outputs. */
  function KindTo(t: BlockTx, singleton: bool, n: nat): set<Bytes>
    requires n <= |t.tx.outputs|
  {
    if n == 0 then {} else KindTo(t, singleton, n - 1) + OfKind(t.tx.outputs[n - 1].script, singleton)
  }

  function Singles(t: BlockTx): set<Bytes> {
    KindTo(t, true, |t.tx.outputs|)
  }

  function Normals(t: BlockTx): set<Bytes> {
    KindTo(t, false, |t.tx.outputs|)
  }

  /** Without repetitions, in order of first appearance. */
  function Dedup(s: seq<Bytes>): (r: seq<Bytes>)
    ensures forall x :: x in r <==> x in s
  {
    if s == [] then []
    else
      var init, x := Dedup(s[..|s| - 1]), s[|s| - 1];
      assert s == s[..|s| - 1] + [x];
      if x in init then init else init + [x]
  }

  /** The `ri` row of an output: each ref with a byte that tells singletons. */
  function RefsValue(refs: seq<Bytes>, normals: set<Bytes>): Bytes {
    if refs == [] then []
    else RefsValue(refs[..|refs| - 1], normals) + refs[|refs| - 1] + [if refs[|refs| - 1] in normals then 0 else 1]
  }

  function RiValue(script: Bytes): Bytes {
    RefsValue(Dedup(Scripts.AllRefs(OutputRefs(script))), OfKind(script, false))
  }

  // ----- Advancing -----

  /** The refs among `refs` that the transaction mints. */
  function WithMints(rows: Rows, refs: set<Bytes>, t: BlockTx): Rows {
    rows + map r | r in refs * Spends(t) :: Rm(r) := t.hash
  }

  /** The rows after output `i`.  `base` gives the hashX of the base script of a script. */
  function RowsOutput(base: Bytes -> Bytes, rows: Rows, t: BlockTx, i: nat): Rows
    requires i < |t.tx.outputs|
  {
    var script := t.tx.outputs[i].script;
    var o := PackedOutpoint(t.hash, i);
    if OutputRefs(script) == [] then rows
    else
      WithMints(rows[Ri(o) := RiValue(script)][Rb(o) := base(script)], OfKind(script, true) + OfKind(script, false), t)
  }

  function RowsTo(base: Bytes -> Bytes, rows: Rows, t: BlockTx, n: nat): Rows
    requires n <= |t.tx.outputs|
  {
    if n == 0 then rows else RowsOutput(base, RowsTo(base, rows, t, n - 1), t, n - 1)
  }

  function RowsTx(base: Bytes -> Bytes, rows: Rows, t: BlockTx): Rows {
    RowsTo(base, rows, t, |t.tx.outputs|)
  }

  function RowsBlock(base: Bytes -> Bytes, rows: Rows, txs: Block): Rows
    decreases |txs|
  {
    if txs == [] then rows else RowsBlock(base, RowsTx(base, rows, txs[0]), txs[1..])
  }

  /** Singleton refs that move, rather than being minted. */
  function Moved(t: BlockTx): set<Bytes> {
    Singles(t) - Spends(t)
  }

  /** The singletons among `refs` that the transaction moves. */
  function WithLocs(locs: Locs, refs: set<Bytes>, t: BlockTx): Locs {
    locs + map r | r in refs - Spends(t) :: t.hash
  }

  function LocsTx(locs: Locs, t: BlockTx): Locs {
    WithLocs(locs, Singles(t), t)
  }

  function LocsBlock(locs: Locs, txs: Block): Locs
    decreases |txs|
  {
    if txs == [] then locs else LocsBlock(LocsTx(locs, txs[0]), txs[1..])
  }

  function MovedIn(txs: Block): set<Bytes> {
    if txs == [] then {} else Moved(txs[0]) + MovedIn(txs[1..])
  }

  // ----- Backing up -----

  /** The rows deleted with the first `n` outputs of a transaction. */
  function DeletedRowsTo(t: BlockTx, n: nat): set<RefKey>
    requires n <= |t.tx.outputs|
  {
    (set i | 0 <= i < n && Scripts.OutputIndexable(t.tx.outputs[i].script) :: Ri(PackedOutpoint(t.hash, i)))
    + (set i | 0 <= i < n && Scripts.OutputIndexable(t.tx.outputs[i].script) :: Rb(PackedOutpoint(t.hash, i)))
    + (set r | r in (KindTo(t, true, n) + KindTo(t, false, n)) * Spends(t) :: Rm(r))
  }

  /** The locations deleted with them: of all their refs that the transaction does not mint. */
  function DeletedLocsTo(t: BlockTx, n: nat): set<Bytes>
    requires n <= |t.tx.outputs|
  {
    (KindTo(t, true, n) + KindTo(t, false, n)) - Spends(t)
  }

  function DeletedRows(t: BlockTx): set<RefKey> {
    DeletedRowsTo(t, |t.tx.outputs|)
  }

  function DeletedLocs(t: BlockTx): set<Bytes> {
    DeletedLocsTo(t, |t.tx.outputs|)
  }

  function RowsBack(rows: Rows, txs: Block): Rows {
    if txs == [] then rows else RowsBack(rows, txs[1..]) - DeletedRows(txs[0])
  }

  function LocsDeletedIn(txs: Block): set<Bytes> {
    if txs == [] then {} else LocsDeletedIn(txs[1..]) + DeletedLocs(txs[0])
  }

  /** The undo information of a block advanced over the committed locations `db`. */
  function LocsUndo(db: Locs, txs: Block): Locs {
    Kept(db, MovedIn(txs))
  }

  function Kept(db: Locs, moved: set<Bytes>): Locs {
    map r | r in moved && r in db :: db[r]
  }

  function LocsBack(locs: Locs, txs: Block, undo: Locs): Locs {
    (locs - LocsDeletedIn(txs)) + undo
  }

  // ----- Valid blocks -----

  /** The refs minted so far, by kind. */
  datatype Minted = Minted(singles: set<Bytes>, normals: set<Bytes>) {
    function With(t: BlockTx): Minted {
      Minted(singles + Singles(t) * Spends(t), normals + Normals(t) * Spends(t))
    }
  }

  /** A transaction of a consensus-valid chain: it is new; it mints only refs of outpoints that
      it spends, which are spent but once; the other refs have been minted before; and no ref is
      pushed both as a singleton and as a normal ref. */
  predicate ValidRefsTx(rows: Rows, m: Minted, t: BlockTx) {
    && |t.hash| == 32 && |t.tx.outputs| <= Range(4)
    && (forall i :: 0 <= i < |t.tx.outputs| ==>
          Ri(PackedOutpoint(t.hash, i)) !in rows && Rb(PackedOutpoint(t.hash, i)) !in rows)
    && Singles(t) - Spends(t) <= m.singles && Normals(t) - Spends(t) <= m.normals
    && (Singles(t) + Normals(t)) * Spends(t) !! m.singles + m.normals
    && Singles(t) !! Normals(t) + m.normals && Normals(t) !! m.singles
  }

  ghost predicate MintRows(rows: Rows, m: Minted) {
    m.singles !! m.normals && forall r :: Rm(r) in rows ==> r in m.singles + m.normals
  }

  predicate ValidRefs(base: Bytes -> Bytes, rows: Rows, m: Minted, txs: Block)
    decreases |txs|
  {
    txs == [] || (ValidRefsTx(rows, m, txs[0]) && ValidRefs(base, RowsTx(base, rows, txs[0]), m.With(txs[0]), txs[1..]))
  }

  function MintedIn(m: Minted, txs: Block): Minted
    decreases |txs|
  {
    if txs == [] then m else MintedIn(m.With(txs[0]), txs[1..])
  }

  // ----- Backing up undoes advancing, row by row -----

  lemma {:induction false} KindGrows(t: BlockTx, singleton: bool, i: nat, n: nat)
    requires i < n <= |t.tx.outputs|
    ensures OfKind(t.tx.outputs[i].script, singleton) <= KindTo(t, singleton, n)
  {
    hide OfKind;
    if i < n - 1 {
      KindGrows(t, singleton, i, n - 1);
    }
  }

  /** Only rows that backing up deletes are written. */
  lemma {:induction false} RowsWritten(base: Bytes -> Bytes, rows: Rows, t: BlockTx, n: nat, k: RefKey)
    requires n <= |t.tx.outputs| && k !in DeletedRows(t)
    ensures k in RowsTo(base, rows, t, n) <==> k in rows
    ensures k in rows ==> RowsTo(base, rows, t, n)[k] == rows[k]
  {
    hide RowsOutput, DeletedRows;
    if n > 0 {
      RowsWritten(base, rows, t, n - 1, k);
      OutputWritten(base, RowsTo(base, rows, t, n - 1), t, n - 1, k);
    }
  }

  lemma OutputWritten(base: Bytes -> Bytes, rows: Rows, t: BlockTx, i: nat, k: RefKey)
    requires i < |t.tx.outputs| && k !in DeletedRows(t)
    ensures k in RowsOutput(base, rows, t, i) <==> k in rows
    ensures k in rows ==> RowsOutput(base, rows, t, i)[k] == rows[k]
  {
    hide Scripts.OutputIndexable, Scripts.PushedRefs, KindTo, PackedOutpoint, RiValue;
    var script := t.tx.outputs[i].script;
    KindGrows(t, true, i, |t.tx.outputs|);
    KindGrows(t, false, i, |t.tx.outputs|);
    if OutputRefs(script) != [] {
      assert Scripts.OutputIndexable(script);
    }
  }

  lemma NewRows(rows: Rows, m: Minted, t: BlockTx, k: RefKey)
    requires ValidRefsTx(rows, m, t) && MintRows(rows, m)
    ensures k in rows ==> k !in DeletedRows(t)
  {
    hide PackedOutpoint, KindTo, Spends, Scripts.OutputIndexable, Range;
  }

  lemma RowsBackTx(base: Bytes -> Bytes, rows: Rows, m: Minted, t: BlockTx)
    requires ValidRefsTx(rows, m, t) && MintRows(rows, m)
    ensures RowsTx(base, rows, t) - DeletedRows(t) == rows
  {
    hide ValidRefsTx, DeletedRows, RowsTo;
    var after := RowsTx(base, rows, t) - DeletedRows(t);
    forall k
      ensures k in after <==> k in rows
      ensures k in rows ==> after[k] == rows[k]
    {
      NewRows(rows, m, t, k);
      if k !in DeletedRows(t) {
        RowsWritten(base, rows, t, |t.tx.outputs|, k);
      }
    }
  }

  lemma MintRowsTx(base: Bytes -> Bytes, rows: Rows, m: Minted, t: BlockTx)
    requires ValidRefsTx(rows, m, t) && MintRows(rows, m)
    ensures MintRows(RowsTx(base, rows, t), m.With(t))
  {
    hide PackedOutpoint, KindTo, Spends, Scripts.OutputIndexable, RowsTo, Range;
    forall r | Rm(r) in RowsTx(base, rows, t)
      ensures r in m.With(t).singles + m.With(t).normals
    {
      if Rm(r) !in DeletedRows(t) {
        RowsWritten(base, rows, t, |t.tx.outputs|, Rm(r));
      }
    }
  }

  /** The `ri`, `rb` and `rm` rows are exactly restored, block by block. */
  lemma {:induction false} RowsBackExact(base: Bytes -> Bytes, rows: Rows, m: Minted, txs: Block)
    requires ValidRefs(base, rows, m, txs) && MintRows(rows, m)
    ensures RowsBack(RowsBlock(base, rows, txs), txs) == rows
    ensures MintRows(RowsBlock(base, rows, txs), MintedIn(m, txs))
    decreases |txs|
  {
    hide RowsTx, DeletedRows, ValidRefsTx, MintRows, Minted.With;
    if txs != [] {
      MintRowsTx(base, rows, m, txs[0]);
      RowsBackExact(base, RowsTx(base, rows, txs[0]), m.With(txs[0]), txs[1..]);
      RowsBackTx(base, rows, m, txs[0]);
    }
  }

  // ----- Locations -----

  /** Locations are kept for minted singletons only. */
  predicate LocsOf(locs: Locs, m: Minted) {
    locs.Keys <= m.singles
  }

  lemma {:induction false} LocsOfBlock(base: Bytes -> Bytes, rows: Rows, locs: Locs, m: Minted, txs: Block)
    requires ValidRefs(base, rows, m, txs) && LocsOf(locs, m)
    ensures LocsOf(LocsBlock(locs, txs), MintedIn(m, txs))
    ensures MovedIn(txs) <= MintedIn(m, txs).singles && m.singles <= MintedIn(m, txs).singles
    decreases |txs|
  {
    hide RowsTx, KindTo, Spends, Range, PackedOutpoint;
    if txs != [] {
      LocsOfBlock(base, RowsTx(base, rows, txs[0]), LocsTx(locs, txs[0]), m.With(txs[0]), txs[1..]);
    }
  }

  lemma {:induction false} LocsOutside(locs: Locs, txs: Block, r: Bytes)
    requires r !in MovedIn(txs)
    ensures r in LocsBlock(locs, txs) <==> r in locs
    ensures r in locs ==> LocsBlock(locs, txs)[r] == locs[r]
    decreases |txs|
  {
    hide KindTo, Spends;
    if txs != [] {
      LocsOutside(LocsTx(locs, txs[0]), txs[1..], r);
    }
  }

  /** What is deleted are the locations of the block's moved singletons; normal refs have none. */
  lemma {:induction false} DeletedAreMoved(base: Bytes -> Bytes, rows: Rows, m: Minted, txs: Block)
    requires ValidRefs(base, rows, m, txs) && m.singles !! m.normals
    ensures MovedIn(txs) <= LocsDeletedIn(txs)
    ensures LocsDeletedIn(txs) - MovedIn(txs) <= MintedIn(m, txs).normals
    ensures MintedIn(m, txs).singles !! MintedIn(m, txs).normals && m.normals <= MintedIn(m, txs).normals
    decreases |txs|
  {
    hide RowsTx, KindTo, Spends, Range, PackedOutpoint;
    if txs != [] {
      DeletedAreMoved(base, RowsTx(base, rows, txs[0]), m.With(txs[0]), txs[1..]);
    }
  }

  /** Backing a block up sets the locations it moved to what the undo information says, and
      leaves the others. */
  lemma LocsBackIs(base: Bytes -> Bytes, rows: Rows, m: Minted, txs: Block, locs: Locs, db: Locs)
    requires ValidRefs(base, rows, m, txs) && m.singles !! m.normals && LocsOf(locs, MintedIn(m, txs))
    ensures LocsBack(locs, txs, LocsUndo(db, txs)) == Restored(locs, MovedIn(txs), db)
  {
    hide MovedIn, LocsDeletedIn, MintedIn, ValidRefs;
    DeletedAreMoved(base, rows, m, txs);
  }

  /** The locations with those of `moved` as they are in `db`. */
  function Restored(locs: Locs, moved: set<Bytes>, db: Locs): Locs {
    (locs - moved) + Kept(db, moved)
  }

  // ----- Unwinding a window -----

  /** The refs moved by the blocks from `i` on. */
  function MovedFrom(blocks: seq<Block>, i: nat): set<Bytes>
    requires i <= |blocks|
    decreases |blocks| - i
  {
    if i == |blocks| then {} else MovedIn(blocks[i]) + MovedFrom(blocks, i + 1)
  }

  /** The window's blocks from the last down to `i`, each with undo information of `db`. */
  function UnwindLocs(locs: Locs, blocks: seq<Block>, i: nat, db: Locs): Locs
    requires i <= |blocks|
    decreases |blocks| - i
  {
    if i == |blocks| then locs else Restored(UnwindLocs(locs, blocks, i + 1, db), MovedIn(blocks[i]), db)
  }

  lemma {:induction false} UnwindLocsIs(locs: Locs, blocks: seq<Block>, i: nat, db: Locs)
    requires i <= |blocks|
    ensures UnwindLocs(locs, blocks, i, db) == Restored(locs, MovedFrom(blocks, i), db)
    decreases |blocks| - i
  {
    hide MovedIn, Restored;
    if i < |blocks| {
      UnwindLocsIs(locs, blocks, i + 1, db);
      RestoredTwice(locs, MovedIn(blocks[i]), MovedFrom(blocks, i + 1), db);
    } else {
      RestoredNone(locs, db);
    }
  }

  lemma RestoredTwice(locs: Locs, a: set<Bytes>, b: set<Bytes>, db: Locs)
    ensures Restored(Restored(locs, b, db), a, db) == Restored(locs, a + b, db)
  {
  }

  lemma RestoredNone(locs: Locs, db: Locs)
    ensures Restored(locs, {}, db) == locs
  {
  }

  /** The locations after the first `n` blocks of a window. */
  function LocsAfter(locs: Locs, blocks: seq<Block>, n: nat): Locs
    requires n <= |blocks|
  {
    if n == 0 then locs else LocsBlock(LocsAfter(locs, blocks, n - 1), blocks[n - 1])
  }

  lemma {:induction false} LocsAfterOutside(locs: Locs, blocks: seq<Block>, i: nat, n: nat, r: Bytes)
    requires i <= n <= |blocks| && r !in MovedFrom(blocks, i)
    ensures r in LocsAfter(locs, blocks, n) <==> r in LocsAfter(locs, blocks, i)
    ensures r in LocsAfter(locs, blocks, i) ==> LocsAfter(locs, blocks, n)[r] == LocsAfter(locs, blocks, i)[r]
    decreases n - i
  {
    hide MovedIn, LocsBlock;
    if i < n {
      LocsOutside(LocsAfter(locs, blocks, i), blocks[i], r);
      LocsAfterOutside(locs, blocks, i + 1, n, r);
    }
  }

  function LocOf(locs: Locs, r: Bytes): Option<Bytes> {
    if r in locs then Some(locs[r]) else None
  }

  /** Unwinding part of a window gives the locations at that height if and only if every ref
      moved after it is where it was before the window. */
  lemma WindowLocsIff(locs: Locs, blocks: seq<Block>, i: nat)
    requires i <= |blocks|
    ensures UnwindLocs(LocsAfter(locs, blocks, |blocks|), blocks, i, locs) == LocsAfter(locs, blocks, i)
            <==> forall r :: r in MovedFrom(blocks, i) ==> LocOf(LocsAfter(locs, blocks, i), r) == LocOf(locs, r)
  {
    hide MovedFrom, LocsAfter, UnwindLocs;
    UnwindLocsIs(LocsAfter(locs, blocks, |blocks|), blocks, i, locs);
    var u, at := UnwindLocs(LocsAfter(locs, blocks, |blocks|), blocks, i, locs), LocsAfter(locs, blocks, i);
    forall r
      ensures r in MovedFrom(blocks, i) ==> LocOf(u, r) == LocOf(locs, r)
      ensures r !in MovedFrom(blocks, i) ==> LocOf(u, r) == LocOf(at, r)
    {
      if r !in MovedFrom(blocks, i) {
        LocsAfterOutside(locs, blocks, i, |blocks|, r);
      }
    }
    if forall r :: LocOf(u, r) == LocOf(at, r) {
      SameLocs(u, at);
    }
  }

  lemma SameLocs(a: Locs, b: Locs)
    requires forall r :: LocOf(a, r) == LocOf(b, r)
    ensures a == b
  {
    forall r ensures r in a <==> r in b {
      assert LocOf(a, r) == LocOf(b, r);
    }
    forall r | r in a ensures a[r] == b[r] {
      assert LocOf(a, r) == LocOf(b, r);
    }
  }

  /** Unwinding the whole window gives the locations back as they were before it. */
  lemma WindowLocs(locs: Locs, blocks: seq<Block>)
    ensures UnwindLocs(LocsAfter(locs, blocks, |blocks|), blocks, 0, locs) == locs
  {
    hide MovedFrom, UnwindLocs;
    WindowLocsIff(locs, blocks, 0);
  }

  // ----- The chain -----

  function RowsAt(base: Bytes -> Bytes, chain: seq<Block>): Rows {
    if chain == [] then map[] else RowsBlock(base, RowsAt(base, chain[..|chain| - 1]), chain[|chain| - 1])
  }

  function MintedAt(chain: seq<Block>): Minted {
    if chain == [] then Minted({}, {}) else MintedIn(MintedAt(chain[..|chain| - 1]), chain[|chain| - 1])
  }

  function LocsAt(chain: seq<Block>): Locs {
    if chain == [] then map[] else LocsBlock(LocsAt(chain[..|chain| - 1]), chain[|chain| - 1])
  }

  predicate ValidRefsChain(base: Bytes -> Bytes, chain: seq<Block>) {
    chain == [] ||
    var before := chain[..|chain| - 1];
    ValidRefsChain(base, before) && ValidRefs(base, RowsAt(base, before), MintedAt(before), chain[|chain| - 1])
  }

  lemma {:induction false} MintRowsChain(base: Bytes -> Bytes, chain: seq<Block>)
    requires ValidRefsChain(base, chain)
    ensures MintRows(RowsAt(base, chain), MintedAt(chain))
  {
    hide RowsBlock, ValidRefs, MintedIn, MintRows;
    if chain != [] {
      var before := chain[..|chain| - 1];
      MintRowsChain(base, before);
      RowsBackExact(base, RowsAt(base, before), MintedAt(before), chain[|chain| - 1]);
    } else {
      NoMintRows();
    }
  }

  lemma NoMintRows()
    ensures MintRows(map[], Minted({}, {}))
  {
  }

  /** Unwinding over windows: each block with the locations the database had when it was
      advanced. */
  function UnwindTo(locs: Locs, chain: seq<Block>, bases: seq<Locs>, from: int, to: int): Locs
    requires from < |chain| == |bases| && -1 <= to
    decreases from - to
  {
    if from <= to then locs else UnwindTo(Restored(locs, MovedIn(chain[from]), bases[from]), chain, bases, from - 1, to)
  }

  /** Only the blocks unwound matter. */
  lemma {:induction false} UnwindToSame(
      locs: Locs, chain: seq<Block>, bases: seq<Locs>, chain': seq<Block>, bases': seq<Locs>, from: int, to: int)
    requires from < |chain| == |bases| && from < |chain'| == |bases'| && -1 <= to
    requires forall h :: 0 <= h <= from ==> chain[h] == chain'[h] && bases[h] == bases'[h]
    ensures UnwindTo(locs, chain, bases, from, to) == UnwindTo(locs, chain', bases', from, to)
    decreases from - to
  {
    hide MovedIn;
    if from > to {
      UnwindToSame(Restored(locs, MovedIn(chain[from]), bases[from]), chain, bases, chain', bases', from - 1, to);
    }
  }

  lemma {:induction false} UnwindToSplit(locs: Locs, chain: seq<Block>, bases: seq<Locs>, from: int, mid: int, to: int)
    requires from < |chain| == |bases| && -1 <= to <= mid <= from
    ensures UnwindTo(locs, chain, bases, from, to) == UnwindTo(UnwindTo(locs, chain, bases, from, mid), chain, bases, mid, to)
    decreases from - mid
  {
    hide MovedIn;
    if from > mid {
      UnwindToSplit(Restored(locs, MovedIn(chain[from]), bases[from]), chain, bases, from - 1, mid, to);
    }
  }

  /** Unwinding the blocks after `b`, all advanced over the same database at `lo`. */
  lemma {:induction false} UnwindToIs(locs: Locs, chain: seq<Block>, bases: seq<Locs>, lo: int, b: int, db: Locs)
    requires -1 <= lo <= b < |chain| == |bases|
    requires forall h :: lo < h < |bases| ==> bases[h] == db
    ensures UnwindTo(locs, chain, bases, |chain| - 1, b) == UnwindLocs(locs, chain[lo + 1..], b - lo, db)
    decreases |chain| - b
  {
    hide MovedIn, Restored;
    var window, top := chain[lo + 1..], |chain| - 1;
    if b < top {
      assert window[b - lo] == chain[b + 1];
      UnwindToIs(locs, chain, bases, lo, b + 1, db);
      UnwindToSplit(locs, chain, bases, top, b + 1, b);
      UnwindOne(UnwindTo(locs, chain, bases, top, b + 1), chain, bases, b + 1);
    }
  }

  lemma UnwindOne(locs: Locs, chain: seq<Block>, bases: seq<Locs>, h: nat)
    requires h < |chain| == |bases|
    ensures UnwindTo(locs, chain, bases, h, h - 1) == Restored(locs, MovedIn(chain[h]), bases[h])
  {
  }

  // ----- The locations unwound to are those of minted singletons -----

  lemma {:induction false} MintedGrows(base: Bytes -> Bytes, chain: seq<Block>, n: nat)
    requires n <= |chain| && ValidRefsChain(base, chain)
    ensures MintedAt(chain[..n]).singles <= MintedAt(chain).singles
    decreases |chain|
  {
    hide ValidRefs, MintedIn, RowsAt;
    if n == |chain| {
      assert chain[..n] == chain;
    } else {
      var before := chain[..|chain| - 1];
      assert before[..n] == chain[..n];
      MintedGrows(base, before, n);
      LocsOfBlock(base, RowsAt(base, before), map[], MintedAt(before), chain[|chain| - 1]);
    }
  }

  lemma {:induction false} ValidRefsPrefix(base: Bytes -> Bytes, chain: seq<Block>, n: nat)
    requires n <= |chain| && ValidRefsChain(base, chain)
    ensures ValidRefsChain(base, chain[..n])
    decreases |chain|
  {
    hide ValidRefs, MintedAt, RowsAt;
    if n == |chain| {
      assert chain[..n] == chain;
    } else {
      assert chain[..|chain| - 1][..n] == chain[..n];
      ValidRefsPrefix(base, chain[..|chain| - 1], n);
    }
  }

  /** After the first `n` blocks of a window. */
  lemma {:induction false} LocsOfWindow(base: Bytes -> Bytes, locs: Locs, chain: seq<Block>, lo: int, n: nat)
    requires -1 <= lo && lo + 1 + n <= |chain| && ValidRefsChain(base, chain)
    requires LocsOf(locs, MintedAt(chain[..lo + 1]))
    ensures LocsOf(LocsAfter(locs, chain[lo + 1..], n), MintedAt(chain[..lo + 1 + n]))
    decreases n
  {
    hide ValidRefs, MintedIn, RowsAt, LocsBlock;
    if n > 0 {
      var upTo := chain[..lo + 1 + n];
      var before := upTo[..|upTo| - 1];
      assert before == chain[..lo + n] && upTo[|upTo| - 1] == chain[lo + n] == chain[lo + 1..][n - 1];
      LocsOfWindow(base, locs, chain, lo, n - 1);
      ValidRefsPrefix(base, chain, lo + 1 + n);
      LocsOfBlock(base, RowsAt(base, before), LocsAfter(locs, chain[lo + 1..], n - 1), MintedAt(before), upTo[|upTo| - 1]);
    }
  }

  lemma LocsOfUnwound(base: Bytes -> Bytes, locs: Locs, chain: seq<Block>, lo: int, i: nat)
    requires -1 <= lo && lo + 1 + i <= |chain| && ValidRefsChain(base, chain)
    requires LocsOf(locs, MintedAt(chain[..lo + 1]))
    ensures var window := chain[lo + 1..];
            LocsOf(UnwindLocs(LocsAfter(locs, window, |window|), window, i, locs), MintedAt(chain[..lo + 1 + i]))
  {
    hide ValidRefs, RowsAt, LocsAfter, MintedAt, ValidRefsChain, UnwindLocs, MovedFrom;
    var window := chain[lo + 1..];
    var view, at := LocsAfter(locs, window, |window|), LocsAfter(locs, window, i);
    UnwindLocsIs(view, window, i, locs);
    LocsOfWindow(base, locs, chain, lo, i);
    ValidRefsPrefix(base, chain, lo + 1 + i);
    MintedGrows(base, chain[..lo + 1 + i], lo + 1);
    assert chain[..lo + 1 + i][..lo + 1] == chain[..lo + 1];
    forall r | r in Restored(view, MovedFrom(window, i), locs)
      ensures r in MintedAt(chain[..lo + 1 + i]).singles
    {
      if r !in MovedFrom(window, i) {
        LocsAfterOutside(locs, window, i, |window|, r);
      }
    }
  }

  // ----- Refs of a script -----

  lemma {:induction false} AllRefsAre(rs: seq<Scripts.PushedRef>, x: Bytes)
    ensures x in Scripts.AllRefs(rs) <==> exists p :: p in rs && p.ref == x
  {
    if rs != [] {
      AllRefsAre(rs[1..], x);
      assert rs == [rs[0]] + rs[1..];
    }
  }

  lemma {:induction false} KindElements(rs: seq<Scripts.PushedRef>, singleton: bool, x: Bytes)
    ensures x in Scripts.RefsOfKind(rs, singleton) <==> x in set p | p in rs && p.singleton == singleton :: p.ref
  {
    if rs != [] {
      KindElements(rs[1..], singleton, x);
      assert rs == [rs[0]] + rs[1..];
    }
  }

  /** The refs found by parsing the script are those of the output. */
  lemma ScriptKinds(script: Bytes)
    requires Scripts.OutputIndexable(script)
    ensures var rs := Scripts.PushedRefs(script, 0);
            && rs == OutputRefs(script) && (Scripts.AllRefs(rs) == [] <==> rs == [])
            && (forall x :: x in Scripts.RefsOfKind(rs, true) <==> x in OfKind(script, true))
            && (forall x :: x in Scripts.RefsOfKind(rs, false) <==> x in OfKind(script, false))
    ensures Scripts.Walk(script, 0).Some?
  {
    hide Scripts.Walk, Scripts.PushedRefs, Scripts.RefsOfKind;
    var rs := Scripts.PushedRefs(script, 0);
    forall x
      ensures x in Scripts.RefsOfKind(rs, true) <==> x in OfKind(script, true)
      ensures x in Scripts.RefsOfKind(rs, false) <==> x in OfKind(script, false)
    {
      KindElements(rs, true, x);
      KindElements(rs, false, x);
    }
  }

  lemma DedupNone(refs: seq<Bytes>)
    ensures Dedup(refs) == [] <==> refs == []
  {
    if refs != [] {
      assert refs[0] in refs;
    }
  }

  lemma {:induction false} RefLengths(s: Bytes, n: nat)
    requires n <= |s|
    ensures forall p :: p in Scripts.PushedRefs(s, n) ==> |p.ref| == 36
    decreases |s| - n
  {
    if n < |s| && Scripts.OpAt(s, n).Some? {
      RefLengths(s, Scripts.OpAt(s, n).value.end);
    }
  }

  lemma OfKindLengths(script: Bytes, singleton: bool)
    ensures forall r :: r in OfKind(script, singleton) ==> |r| == 36
  {
    hide Scripts.PushedRefs;
    RefLengths(script, 0);
  }

  lemma WithMintsStep(rows: Rows, refs: set<Bytes>, t: BlockTx, r: Bytes)
    ensures WithMints(rows, refs + {r}, t)
            == if r in Spends(t) then WithMints(rows, refs, t)[Rm(r) := t.hash] else WithMints(rows, refs, t)
  {
    hide Spends;
  }

  lemma WithLocsStep(locs: Locs, refs: set<Bytes>, t: BlockTx, r: Bytes)
    ensures WithLocs(locs, refs + {r}, t)
            == if r in Spends(t) then WithLocs(locs, refs, t) else WithLocs(locs, refs, t)[r := t.hash]
  {
    hide Spends;
  }

  lemma WithLocsTwice(locs: Locs, a: set<Bytes>, b: set<Bytes>, t: BlockTx)
    ensures WithLocs(WithLocs(locs, a, t), b, t) == WithLocs(locs, a + b, t)
  {
    hide Spends;
  }
}
