/** The ref tables as the block processor keeps them: caches over the database, pending deletes
    and undo information (electrumx/server/block_processor.py, with the flush of
    electrumx/server/db.py). */
module RefTables {
  import opened ByteStrings
  import opened Utxos
  import opened RefRows
  import Scripts
  import Transactions

  // ----- Undo information: chunks of a ref and a txid -----

  const CHUNK := 68

  /** Later chunks win. */
  function Decoded(blob: Bytes): Locs {
    if |blob| < CHUNK then map[] else map[blob[..REF_LEN] := blob[REF_LEN..CHUNK]] + Decoded(blob[CHUNK..])
  }

  lemma DecodedCons(chunk: Bytes, rest: Bytes)
    requires |chunk| == CHUNK
    ensures Decoded(chunk + rest) == map[chunk[..REF_LEN] := chunk[REF_LEN..]] + Decoded(rest)
  {
    var all := chunk + rest;
    assert all[..REF_LEN] == chunk[..REF_LEN] && all[REF_LEN..CHUNK] == chunk[REF_LEN..] && all[CHUNK..] == rest;
  }

  lemma {:induction false} DecodedAppend(blob: Bytes, chunk: Bytes)
    requires |blob| % CHUNK == 0 && |chunk| == CHUNK
    ensures Decoded(blob + chunk) == Decoded(blob) + map[chunk[..REF_LEN] := chunk[REF_LEN..]]
  {
    hide Decoded;
    DecodedNone();
    if blob == [] {
      assert blob + chunk == chunk + [];
      DecodedCons(chunk, []);
    } else {
      var first, rest := blob[..CHUNK], blob[CHUNK..];
      assert blob == first + rest && blob + chunk == first + (rest + chunk);
      DecodedCons(first, rest);
      DecodedCons(first, rest + chunk);
      DecodedAppend(rest, chunk);
    }
  }

  lemma {:induction false} DecodedTake(blob: Bytes, i: nat)
    requires |blob| % CHUNK == 0 && i % CHUNK == 0 && i + CHUNK <= |blob|
    ensures Decoded(blob[..i + CHUNK]) == Decoded(blob[..i]) + map[blob[i..i + REF_LEN] := blob[i + REF_LEN..i + CHUNK]]
  {
    var chunk := blob[i..i + CHUNK];
    assert blob[..i + CHUNK] == blob[..i] + chunk;
    assert chunk[..REF_LEN] == blob[i..i + REF_LEN] && chunk[REF_LEN..] == blob[i + REF_LEN..i + CHUNK];
    DecodedAppend(blob[..i], chunk);
  }

  /** Refs have 36 bytes and are located by txids of 32. */
  predicate GoodLocs(locs: Locs) {
    forall r :: r in locs ==> |r| == REF_LEN && |locs[r]| == CHUNK - REF_LEN
  }

  method EncodeLocs(undo: Locs) returns (blob: Bytes)
    requires GoodLocs(undo)
    ensures |blob| % CHUNK == 0 && Decoded(blob) == undo
  {
    hide Decoded;
    blob := [];
    DecodedNone();
    var todo := undo.Keys;
    while todo != {}
      invariant todo <= undo.Keys && |blob| % CHUNK == 0
      invariant Decoded(blob) == undo - todo
    {
      var r :| r in todo;
      DecodedAppend(blob, r + undo[r]);
      assert (r + undo[r])[..REF_LEN] == r && (r + undo[r])[REF_LEN..] == undo[r];
      blob := blob + (r + undo[r]);
      assert (undo - todo) + map[r := undo[r]] == undo - (todo - {r});
      todo := todo - {r};
    }
    assert undo - {} == undo;
  }

  lemma DecodedNone()
    ensures Decoded([]) == map[]
  {
  }

  // ----- Caches over tables -----

  method DeleteKeys<K, V>(db0: map<K, V>, deletes: seq<K>) returns (db: map<K, V>)
    ensures db == db0 - Elements(deletes)
  {
    db := db0;
    for i := 0 to |deletes|
      invariant db == db0 - Elements(deletes[..i])
    {
      assert deletes[..i + 1] == deletes[..i] + [deletes[i]];
      db := db - {deletes[i]};
    }
    assert deletes[..|deletes|] == deletes;
  }

  method PutItems<K, V>(db0: map<K, V>, items: map<K, V>) returns (db: map<K, V>)
    ensures db == db0 + items
  {
    db := db0;
    var todo := items.Keys;
    while todo != {}
      invariant todo <= items.Keys
      invariant db == db0 + (items - todo)
    {
      var k :| k in todo;
      db := db[k := items[k]];
      todo := todo - {k};
    }
    assert items - {} == items;
  }

  /** The locations: those in the database are what the blocks after the last flush were advanced
      over, and unwinding leads back to the end of every window. */
  ghost predicate LocsOk(locs: Locs, cache: Locs, chain: seq<Block>, bases: seq<Locs>, dbHeight: int, marks: map<int, Locs>)
    requires -1 <= dbHeight < |chain| == |bases|
  {
    && GoodLocs(locs + cache) && (forall h :: 0 <= h < |bases| ==> GoodLocs(bases[h]))
    && (forall b {:trigger UnwindTo(locs, chain, bases, dbHeight, b)} :: -1 <= b <= dbHeight ==>
          LocsOf(UnwindTo(locs, chain, bases, dbHeight, b), MintedAt(chain[..b + 1])))
    && locs + cache == LocsAfter(locs, chain[dbHeight + 1..], |chain| - dbHeight - 1)
    && (forall h :: dbHeight < h < |chain| ==> bases[h] == locs)
    && (forall b :: b in marks ==> -1 <= b <= dbHeight && UnwindTo(locs, chain, bases, dbHeight, b) == marks[b])
  }

  /** Undo information is that of the block over the locations of its window. */
  predicate IsUndo(blob: Bytes, locs: Locs, block: Block) {
    |blob| % CHUNK == 0 && Decoded(blob) == LocsUndo(locs, block)
  }

  ghost predicate UndoKept(
      chain: seq<Block>, bases: seq<Locs>, recorded: set<nat>, undoDb: map<nat, Bytes>, infos: seq<(Bytes, nat)>, dbHeight: int)
    requires |chain| == |bases|
  {
    && (forall h :: h in recorded ==> h < |chain|)
    && (forall h :: h in recorded && h <= dbHeight ==> h in undoDb && IsUndo(undoDb[h], bases[h], chain[h]))
    && (forall h :: h in recorded && h > dbHeight ==> exists i :: 0 <= i < |infos| && infos[i].1 == h)
    && (forall i {:trigger infos[i]} :: 0 <= i < |infos| ==>
          infos[i].1 < |chain| && infos[i].1 > dbHeight && IsUndo(infos[i].0, bases[infos[i].1], chain[infos[i].1]))
  }

  /** Cache and database together hold the rows of the chain. */
  ghost predicate Sound(
      base: Bytes -> Bytes, db: Rows, cache: Rows, locs: Locs, locCache: Locs, chain: seq<Block>, bases: seq<Locs>,
      dbHeight: int, marks: map<int, Locs>)
    requires -1 <= dbHeight < |chain| == |bases|
  {
    && ValidRefsChain(base, chain) && db + cache == RowsAt(base, chain) && GoodLocs(locs)
    && LocsOk(locs, locCache, chain, bases, dbHeight, marks)
  }

  class RefProcessor {
    const base: Bytes -> Bytes   // the hashX of the base script of a script

    // In memory, since the last flush
    var refCache: Rows           // ref_cache, ref_mint_cache and the rb rows of data_cache
    var refLocCache: Locs
    var rowDeletes: seq<RefKey>  // db_deletes, by table
    var locDeletes: seq<Bytes>
    var refLocUndoInfos: seq<(Bytes, nat)>
    var height: int

    // In the database
    var db: Rows
    var locs: Locs
    var undoDb: map<nat, Bytes>
    var dbHeight: int

    ghost var chain: seq<Block>
    ghost var bases: seq<Locs>         // the locations in the database when each block was advanced
    ghost var recorded: set<nat>       // heights whose undo information is kept
    ghost var marks: map<int, Locs>    // the locations where windows ended

    constructor (base: Bytes -> Bytes)
      ensures Valid() && chain == [] && recorded == {} && height == dbHeight == -1 && this.base == base
      ensures locs == refLocCache == map[]
    {
      this.base := base;
      refCache, refLocCache, rowDeletes, locDeletes, refLocUndoInfos, height := map[], map[], [], [], [], -1;
      db, locs, undoDb, dbHeight := map[], map[], map[], -1;
      chain, bases, recorded, marks := [], [], {}, map[];
    }

    ghost predicate Valid()
      reads this
    {
      && height == |chain| - 1 && |bases| == |chain| && -1 <= dbHeight <= height
      && rowDeletes == [] && locDeletes == [] && (dbHeight == height ==> CachesEmpty())
      && Sound(base, db, refCache, locs, refLocCache, chain, bases, dbHeight, marks)
      && UndoKept(chain, bases, recorded, undoDb, refLocUndoInfos, dbHeight)
    }

    predicate CachesEmpty()
      reads this
    {
      refCache == map[] && refLocCache == map[] && rowDeletes == [] && locDeletes == [] && refLocUndoInfos == []
    }

    // ----- Advancing -----

    /** The undo information so far, for the refs moved so far. */
    ghost predicate UndoSoFar(undo: Locs, moved: set<Bytes>, mints: set<Bytes>)
      reads `locs
    {
      undo == Kept(locs, moved) && mints !! locs.Keys
    }

    /** Puts the rows of one output, tracks where its singletons are, and saves where they were. */
    method AdvanceOutput(t: BlockTx, i: nat, mints0: set<Bytes>, undo0: Locs, ghost moved: set<Bytes>)
      returns (mints: set<Bytes>, undo: Locs)
      requires i < |t.tx.outputs| && Scripts.OutputIndexable(t.tx.outputs[i].script)
      requires UndoSoFar(undo0, moved, mints0)
      requires OfKind(t.tx.outputs[i].script, true) * Spends(t) !! locs.Keys
      requires forall r :: r in locs ==> locs[r] != []
      modifies `refCache, `refLocCache
      ensures db + refCache == RowsOutput(base, db + old(refCache), t, i)
      ensures locs + refLocCache == WithLocs(locs + old(refLocCache), OfKind(t.tx.outputs[i].script, true), t)
      ensures UndoSoFar(undo, moved + (OfKind(t.tx.outputs[i].script, true) - Spends(t)), mints)
    {
      hide Scripts.OutputIndexable, Scripts.PushedRefs, Dedup, RefsValue, Scripts.AllRefs, Scripts.RefsOfKind, OfKind,
        Spends, Scripts.Walk, PackedOutpoint, WithMints, WithLocs, Kept, OutputRefs;
      var script := t.tx.outputs[i].script;
      var o := PackedOutpoint(t.hash, i);
      ScriptKinds(script);
      var refs := Scripts.GetPushInputRefs(script);
      var all, normal, single := Dedup(refs.value.0), Dedup(refs.value.1), Dedup(refs.value.2);
      DedupNone(refs.value.0);
      assert Elements(single) == OfKind(script, true) && Elements(normal) == OfKind(script, false);
      if all != [] {
        var value := EncodeRefs(all, normal);
        refCache := refCache[Ri(o) := value][Rb(o) := base(script)];
      }
      ghost var rows := db + refCache;
      OutputIs(base, db + old(refCache), t, i, rows);
      mints, undo := TrackSingles(t, single, mints0, undo0, moved);
      MintNormals(t, single, normal, rows);
    }

    /** The value of an `ri` row. */
    method EncodeRefs(all: seq<Bytes>, normal: seq<Bytes>) returns (value: Bytes)
      ensures value == RefsValue(all, Elements(normal))
    {
      value := [];
      assert all[..0] == [];
      for j := 0 to |all|
        invariant value == RefsValue(all[..j], Elements(normal))
      {
        assert all[..j + 1][..j] == all[..j];
        value := value + all[j] + [if all[j] in normal then 0 else 1];
      }
      assert all[..|all|] == all;
    }

    method TrackSingles(t: BlockTx, single: seq<Bytes>, mints0: set<Bytes>, undo0: Locs, ghost moved: set<Bytes>)
      returns (mints: set<Bytes>, undo: Locs)
      requires UndoSoFar(undo0, moved, mints0) && Elements(single) * Spends(t) !! locs.Keys
      requires forall r :: r in locs ==> locs[r] != []
      modifies `refCache, `refLocCache
      ensures db + refCache == WithMints(db + old(refCache), Elements(single), t)
      ensures locs + refLocCache == WithLocs(locs + old(refLocCache), Elements(single), t)
      ensures UndoSoFar(undo, moved + (Elements(single) - Spends(t)), mints)
    {
      hide Spends, WithMints, WithLocs, Kept;
      mints, undo := mints0, undo0;
      WithNothing(db + refCache, locs + refLocCache, t);
      assert Elements(single[..0]) == {} && moved + ({} - Spends(t)) == moved;
      for j := 0 to |single|
        invariant db + refCache == WithMints(db + old(refCache), Elements(single[..j]), t)
        invariant locs + refLocCache == WithLocs(locs + old(refLocCache), Elements(single[..j]), t)
        invariant UndoSoFar(undo, moved + (Elements(single[..j]) - Spends(t)), mints)
      {
        var ref := single[j];
        KeysStep(single, j);
        WithMintsStep(db + old(refCache), Elements(single[..j]), t, ref);
        WithLocsStep(locs + old(refLocCache), Elements(single[..j]), t, ref);
        if ref in Spends(t) {
          mints := mints + {ref};
          refCache := PutRow(ref, t.hash);
          assert Elements(single[..j]) + {ref} - Spends(t) == Elements(single[..j]) - Spends(t);
        } else {
          refLocCache := PutLoc(ref, t.hash);
          undo := SaveLoc(ref, mints, undo, moved + (Elements(single[..j]) - Spends(t)));
          assert moved + (Elements(single[..j + 1]) - Spends(t)) == moved + (Elements(single[..j]) - Spends(t)) + {ref};
        }
      }
      assert single[..|single|] == single;
    }

    /** Saves where a ref was before this window, unless saved already or minted in this block. */
    method SaveLoc(ref: Bytes, mints: set<Bytes>, undo0: Locs, ghost moved: set<Bytes>) returns (undo: Locs)
      requires UndoSoFar(undo0, moved, mints) && forall r :: r in locs ==> locs[r] != []
      ensures UndoSoFar(undo, moved + {ref}, mints)
    {
      undo := undo0;
      KeptStep(locs, moved, ref);
      if ref !in mints && ref !in undo {
        if ref in locs && locs[ref] != [] {
          undo := undo[ref := locs[ref]];
        }
      }
    }

    function PutRow(ref: Bytes, hash: Bytes): (r: Rows)
      reads `refCache, `db
      ensures db + r == (db + refCache)[Rm(ref) := hash]
    {
      refCache[Rm(ref) := hash]
    }

    function PutLoc(ref: Bytes, hash: Bytes): (r: Locs)
      reads `refLocCache, `locs
      ensures locs + r == (locs + refLocCache)[ref := hash]
    {
      refLocCache[ref := hash]
    }

    method MintNormals(t: BlockTx, ghost done: seq<Bytes>, normal: seq<Bytes>, ghost rows: Rows)
      requires db + refCache == WithMints(rows, Elements(done), t)
      modifies `refCache
      ensures db + refCache == WithMints(rows, Elements(done) + Elements(normal), t)
    {
      hide Spends, WithMints;
      assert Elements(normal[..0]) == {} && Elements(done) + {} == Elements(done);
      for j := 0 to |normal|
        invariant db + refCache == WithMints(rows, Elements(done) + Elements(normal[..j]), t)
      {
        KeysStep(normal, j);
        WithMintsStep(rows, Elements(done) + Elements(normal[..j]), t, normal[j]);
        assert Elements(done) + Elements(normal[..j]) + {normal[j]} == Elements(done) + Elements(normal[..j + 1]);
        if normal[j] in Spends(t) {
          refCache := PutRow(normal[j], t.hash);
        }
      }
      assert normal[..|normal|] == normal;
    }

    method AdvanceTx(t: BlockTx, mints0: set<Bytes>, undo0: Locs, ghost moved: set<Bytes>, ghost m: Minted)
      returns (mints: set<Bytes>, undo: Locs)
      requires UndoSoFar(undo0, moved, mints0) && ValidRefsTx(db + refCache, m, t) && locs.Keys <= m.singles
      requires GoodLocs(locs)
      modifies `refCache, `refLocCache
      ensures db + refCache == RowsTx(base, db + old(refCache), t)
      ensures locs + refLocCache == LocsTx(locs + old(refLocCache), t)
      ensures UndoSoFar(undo, moved + Moved(t), mints)
    {
      hide Scripts.OutputIndexable, RowsOutput, WithLocs, Spends, UndoSoFar, OfKind, PackedOutpoint, ValidRefsTx, GoodLocs;
      mints, undo := mints0, undo0;
      WithNothing(map[], locs + refLocCache, t);
      assert moved + (KindTo(t, true, 0) - Spends(t)) == moved;
      MintsAreNew(db + refCache, m, t, locs);
      for i := 0 to |t.tx.outputs|
        invariant db + refCache == RowsTo(base, db + old(refCache), t, i)
        invariant locs + refLocCache == WithLocs(locs + old(refLocCache), KindTo(t, true, i), t)
        invariant UndoSoFar(undo, moved + (KindTo(t, true, i) - Spends(t)), mints)
      {
        ghost var kind := OfKind(t.tx.outputs[i].script, true);
        WithLocsTwice(locs + old(refLocCache), KindTo(t, true, i), kind, t);
        assert moved + (KindTo(t, true, i) - Spends(t)) + (kind - Spends(t)) == moved + (KindTo(t, true, i + 1) - Spends(t));
        KindGrows(t, true, i, |t.tx.outputs|);
        var indexable := Scripts.CheckOutputIndexable(t.tx.outputs[i].script);
        if indexable {
          mints, undo := AdvanceOutput(t, i, mints, undo, moved + (KindTo(t, true, i) - Spends(t)));
        } else {
          NoRefsOutput(base, RowsTo(base, db + old(refCache), t, i), locs + refLocCache, t, i);
          assert moved + (KindTo(t, true, i + 1) - Spends(t)) == moved + (KindTo(t, true, i) - Spends(t));
        }
      }
    }

    /** Advances a block; its undo information tells where the singletons it moves are in the
        database. */
    method AdvanceTxs(txs: Block, ghost m0: Minted) returns (undo: Locs)
      requires ValidRefs(base, db + refCache, m0, txs) && MintRows(db + refCache, m0)
      requires locs.Keys <= m0.singles && GoodLocs(locs)
      modifies `refCache, `refLocCache
      ensures db + refCache == RowsBlock(base, db + old(refCache), txs)
      ensures locs + refLocCache == LocsBlock(locs + old(refLocCache), txs)
      ensures undo == LocsUndo(locs, txs)
    {
      hide Progress, RowsTx, LocsTx, Moved, ValidRefsTx, GoodLocs, Kept, ValidRefs, MintRows;
      undo := map[];
      var mints := {};
      ghost var m, moved := m0, {};
      KeptNone(locs);
      ProgressStart(base, locs, txs, db + refCache, locs + refLocCache, m0);
      for i := 0 to |txs|
        invariant Progress(base, locs, db + old(refCache), locs + old(refLocCache), txs, i, db + refCache, locs + refLocCache, m, moved)
        invariant UndoSoFar(undo, moved, mints)
      {
        ProgressStep(base, locs, db + old(refCache), locs + old(refLocCache), txs, i, db + refCache, locs + refLocCache, m, moved);
        mints, undo := AdvanceTx(txs[i], mints, undo, moved, m);
        moved := moved + Moved(txs[i]);
        m := m.With(txs[i]);
      }
      ProgressEnd(base, locs, db + old(refCache), locs + old(refLocCache), txs, db + refCache, locs + refLocCache, m, moved);
    }

    /** What holds while a block is advanced: all but the two caches, which were `cache` and
        `locCache` before it. */
    ghost predicate Paused(cache: Rows, locCache: Locs)
      reads `height, `chain, `bases, `dbHeight, `rowDeletes, `locDeletes, `db, `locs, `undoDb, `refLocUndoInfos, `recorded, `marks
    {
      && height == |chain| - 1 && |bases| == |chain| && -1 <= dbHeight <= height
      && rowDeletes == [] && locDeletes == []
      && Sound(base, db, cache, locs, locCache, chain, bases, dbHeight, marks)
      && UndoKept(chain, bases, recorded, undoDb, refLocUndoInfos, dbHeight)
    }

    /** Advances one block; `record` when it is within the reorg limit. */
    method AdvanceBlock(block: Block, record: bool)
      requires Valid() && ValidRefs(base, RowsAt(base, chain), MintedAt(chain), block)
      modifies `refCache, `refLocCache, `refLocUndoInfos, `height, `chain, `bases, `recorded
      ensures Valid() && chain == old(chain) + [block] && bases == old(bases) + [locs] && height == |old(chain)|
      ensures recorded == old(recorded) + (if record then {|old(chain)|} else {})
      ensures locs + refLocCache == LocsBlock(locs + old(refLocCache), block)
    {
      hide RowsAt, MintedAt, ValidRefs, Sound, UndoKept, GoodLocs, RowsBlock, LocsBlock, LocsUndo, MintRows;
      ReadyToAdvance(base, db, refCache, locs, refLocCache, chain, bases, dbHeight, marks);
      var undo := AdvanceTxs(block, MintedAt(chain));
      EndBlock(block, undo, record, old(refCache), old(refLocCache));
    }

    /** Closes a block whose transactions are all in the caches. */
    method EndBlock(block: Block, undo: Locs, record: bool, ghost cache: Rows, ghost locCache: Locs)
      requires Paused(cache, locCache) && ValidRefs(base, RowsAt(base, chain), MintedAt(chain), block)
      requires db + refCache == RowsBlock(base, db + cache, block) && locs + refLocCache == LocsBlock(locs + locCache, block)
      requires undo == LocsUndo(locs, block)
      modifies `refLocUndoInfos, `height, `chain, `bases, `recorded
      ensures Valid() && chain == old(chain) + [block] && bases == old(bases) + [locs] && height == |old(chain)|
      ensures recorded == old(recorded) + (if record then {|old(chain)|} else {})
    {
      hide RowsAt, MintedAt, ValidRefs, Sound, UndoKept, GoodLocs, RowsBlock, LocsBlock, LocsUndo, Decoded, LocsOf;
      ReadyToAdvance(base, db, cache, locs, locCache, chain, bases, dbHeight, marks);
      UndoIsGood(locs, block);
      SoundAdvanced(base, db, cache, refCache, locs, locCache, refLocCache, chain, bases, dbHeight, marks, block);
      var blob: Bytes := [];
      if record {
        blob := EncodeLocs(undo);
      }
      UndoKeptAdvanced(chain, bases, recorded, undoDb, refLocUndoInfos, dbHeight, block, locs, blob, record);
      height := height + 1;
      if record {
        refLocUndoInfos := refLocUndoInfos + [(blob, height)];
        recorded := recorded + {|chain|};
      } else {
        assert recorded + {} == recorded;
      }
      chain, bases := chain + [block], bases + [locs];
    }

    // ----- What a spent outpoint carries -----

    /** The `ri` row of an outpoint, from the cache or else the database. */
    method LookupRefs(outpoint: Bytes) returns (r: Option<Bytes>)
      ensures Ri(outpoint) !in db + refCache ==> r == None
      ensures Ri(outpoint) in db + refCache && (db + refCache)[Ri(outpoint)] != [] ==> r == Some((db + refCache)[Ri(outpoint)])
    {
      if Ri(outpoint) in refCache && refCache[Ri(outpoint)] != [] {
        return Some(refCache[Ri(outpoint)]);
      }
      return if Ri(outpoint) in db then Some(db[Ri(outpoint)]) else None;
    }

    /** The `rb` row of an outpoint, from the cache or else the database. */
    method LookupBase(outpoint: Bytes) returns (r: Option<Bytes>)
      ensures Rb(outpoint) !in db + refCache ==> r == None
      ensures Rb(outpoint) in db + refCache && (db + refCache)[Rb(outpoint)] != [] ==> r == Some((db + refCache)[Rb(outpoint)])
    {
      if Rb(outpoint) in refCache && refCache[Rb(outpoint)] != [] {
        return Some(refCache[Rb(outpoint)]);
      }
      return if Rb(outpoint) in db then Some(db[Rb(outpoint)]) else None;
    }

    // ----- Flushing: deletes before puts -----

    method Commit()
      modifies `db, `locs, `refCache, `refLocCache, `rowDeletes, `locDeletes
      ensures db == (old(db) - Elements(old(rowDeletes))) + old(refCache)
      ensures locs == (old(locs) - Elements(old(locDeletes))) + old(refLocCache)
      ensures refCache == map[] && refLocCache == map[] && rowDeletes == [] && locDeletes == []
    {
      db := DeleteKeys(db, rowDeletes);
      db := PutItems(db, refCache);
      locs := DeleteKeys(locs, locDeletes);
      locs := PutItems(locs, refLocCache);
      rowDeletes, locDeletes := [], [];
      refCache, refLocCache := map[], map[];
    }

    method FlushUndo()
      requires |chain| == |bases| && UndoKept(chain, bases, recorded, undoDb, refLocUndoInfos, dbHeight)
      modifies `undoDb, `refLocUndoInfos
      ensures refLocUndoInfos == []
      ensures UndoKept(chain, bases, recorded, undoDb, [], |chain| - 1)
    {
      hide IsUndo;
      for i := 0 to |refLocUndoInfos|
        invariant unchanged(`refLocUndoInfos)
        invariant forall h :: h in recorded && h <= dbHeight ==> h in undoDb && IsUndo(undoDb[h], bases[h], chain[h])
        invariant forall j :: 0 <= j < i ==>
                    var h := refLocUndoInfos[j].1;
                    h in undoDb && IsUndo(undoDb[h], bases[h], chain[h])
      {
        undoDb := undoDb[refLocUndoInfos[i].1 := refLocUndoInfos[i].0];
      }
      refLocUndoInfos := [];
    }

    /** Flushes at a block boundary, which unwinding can then return to. */
    method Flush()
      requires Valid()
      modifies this
      ensures Valid() && CachesEmpty() && dbHeight == height
      ensures chain == old(chain) && bases == old(bases) && recorded == old(recorded) && height == old(height)
      ensures locs == old(locs) + old(refLocCache)
      ensures old(dbHeight) < old(height) ==> marks == old(marks)[height := locs]
      ensures old(dbHeight) == old(height) ==> marks == old(marks)
    {
      hide Sound, UndoKept;
      if height == dbHeight {
        return;
      }
      SoundFlushed(base, db, refCache, locs, refLocCache, chain, bases, dbHeight, marks);
      FlushUndo();
      ghost var rows, view := db + refCache, locs + refLocCache;
      Commit();
      assert db == rows && locs == view;
      dbHeight := height;
      marks := marks[height := locs];
    }

    // ----- Backing up -----

    /** Deletes what an output wrote.  The consistency check never fires: the caches are empty
        while blocks are backed up. */
    method DeleteOutput(t: BlockTx, i: nat, ghost ks: set<RefKey>, ghost ls: set<Bytes>) returns (ok: bool)
      requires i < |t.tx.outputs| && Scripts.OutputIndexable(t.tx.outputs[i].script)
      requires refCache == map[] && refLocCache == map[] && Gone(db, rowDeletes, ks) && Gone(locs, locDeletes, ls)
      modifies `rowDeletes, `locDeletes
      ensures ok && Gone(db, rowDeletes, ks + OutRows(t, i)) && Gone(locs, locDeletes, ls + OutLocs(t, i))
    {
      hide Scripts.OutputIndexable, Scripts.PushedRefs, Dedup, Scripts.AllRefs, Scripts.RefsOfKind, OfKind, Spends,
        Scripts.Walk, PackedOutpoint, Gone;
      var script := t.tx.outputs[i].script;
      var o := PackedOutpoint(t.hash, i);
      if Ri(o) in refCache && Ri(o) in db {
        return false;
      }
      GoneMore(db, rowDeletes, ks, Ri(o));
      GoneMore(db, rowDeletes + [Ri(o)], ks + {Ri(o)}, Rb(o));
      rowDeletes := rowDeletes + [Ri(o)] + [Rb(o)];
      ghost var ks0 := ks + {Ri(o)} + {Rb(o)};
      AllOfKinds(script);
      var refs := Scripts.GetPushInputRefs(script);
      var all := Dedup(refs.value.0);
      assert Elements(all) == OfKind(script, true) + OfKind(script, false);
      NoneMarked(t, all, ks0, ls);
      for j := 0 to |all|
        invariant Gone(db, rowDeletes, ks0 + MintKeys(t, Elements(all[..j])))
        invariant Gone(locs, locDeletes, ls + (Elements(all[..j]) - Spends(t)))
      {
        var ref := all[j];
        KeysStep(all, j);
        if ref in Spends(t) {
          if Rm(ref) in refCache && Rm(ref) in db {
            return false;
          }
          MintKeysStep(t, Elements(all[..j]), ref, ks0);
          GoneKept(db, rowDeletes, ks0 + MintKeys(t, Elements(all[..j])), Rm(ref));
          GoneMore(db, rowDeletes, ks0 + MintKeys(t, Elements(all[..j])), Rm(ref));
          if Rm(ref) in db {
            rowDeletes := rowDeletes + [Rm(ref)];
          }
        } else {
          if ref in refLocCache && ref in locs {
            return false;
          }
          LocKeysStep(t, Elements(all[..j]), ref, ls);
          GoneKept(locs, locDeletes, ls + (Elements(all[..j]) - Spends(t)), ref);
          GoneMore(locs, locDeletes, ls + (Elements(all[..j]) - Spends(t)), ref);
          if ref in locs {
            locDeletes := locDeletes + [ref];
          }
        }
      }
      assert all[..|all|] == all;
      assert ks0 + MintKeys(t, Elements(all)) == ks + OutRows(t, i);
      ok := true;
    }

    method DeleteTx(t: BlockTx, ghost ks: set<RefKey>, ghost ls: set<Bytes>) returns (ok: bool)
      requires refCache == map[] && refLocCache == map[] && Gone(db, rowDeletes, ks) && Gone(locs, locDeletes, ls)
      modifies `rowDeletes, `locDeletes
      ensures ok && Gone(db, rowDeletes, ks + DeletedRows(t)) && Gone(locs, locDeletes, ls + DeletedLocs(t))
    {
      hide Scripts.OutputIndexable, OfKind, Spends, Gone, DeletedRowsTo, DeletedLocsTo, OutRows, OutLocs;
      DeletedNone(t, ks, ls);
      for i := 0 to |t.tx.outputs|
        invariant Gone(db, rowDeletes, ks + DeletedRowsTo(t, i)) && Gone(locs, locDeletes, ls + DeletedLocsTo(t, i))
      {
        DeletedStep(t, i, ks, ls);
        var indexable := Scripts.CheckOutputIndexable(t.tx.outputs[i].script);
        if indexable {
          ok := DeleteOutput(t, i, ks + DeletedRowsTo(t, i), ls + DeletedLocsTo(t, i));
        }
      }
      ok := true;
    }

    method DeleteTxs(txs: Block) returns (ok: bool)
      requires refCache == map[] && refLocCache == map[] && rowDeletes == [] && locDeletes == []
      modifies `rowDeletes, `locDeletes
      ensures ok && db - Elements(rowDeletes) == RowsBack(db, txs) && locs - Elements(locDeletes) == locs - LocsDeletedIn(txs)
    {
      hide Gone, DeletedRows, DeletedLocs;
      ghost var ks := {};
      var i := |txs|;
      NothingGone(db, locs);
      while i > 0
        invariant 0 <= i <= |txs| && Gone(db, rowDeletes, ks) && Gone(locs, locDeletes, LocsDeletedIn(txs[i..]))
        invariant RowsBack(db, txs[i..]) == db - ks
      {
        i := i - 1;
        assert txs[i..][1..] == txs[i + 1..];
        ok := DeleteTx(txs[i], ks, LocsDeletedIn(txs[i + 1..]));
        ks := ks + DeletedRows(txs[i]);
      }
      assert txs[0..] == txs;
      GoneIs(db, rowDeletes, ks);
      GoneIs(locs, locDeletes, LocsDeletedIn(txs));
      ok := true;
    }

    method RestoreLocs(blob: Bytes)
      requires |blob| % CHUNK == 0 && refLocCache == map[]
      modifies `refLocCache
      ensures refLocCache == Decoded(blob)
    {
      hide Decoded;
      DecodedNone();
      assert blob[..0] == [];
      var i := 0;
      while i < |blob|
        invariant 0 <= i <= |blob| && i % CHUNK == 0 && refLocCache == Decoded(blob[..i])
      {
        DecodedTake(blob, i);
        refLocCache := refLocCache[blob[i..i + REF_LEN] := blob[i + REF_LEN..i + CHUNK]];
        i := i + CHUNK;
      }
      assert blob[..|blob|] == blob;
    }

    /** Backs up the last block.  The `ri`, `rb` and `rm` rows are those of the shorter chain; the
        locations are those at the end of a window if one ended there. */
    method BackupBlock(block: Block) returns (ok: bool)
      requires Valid() && CachesEmpty() && dbHeight == height >= 0 && block == chain[height]
      requires height in undoDb ==> height in recorded
      modifies this
      ensures ok <==> old(height) in old(undoDb)
      ensures !ok ==> Valid() && chain == old(chain)
      ensures ok ==> Valid() && CachesEmpty() && dbHeight == height && chain == old(chain)[..|old(chain)| - 1]
      ensures ok ==> db == RowsAt(base, chain) && recorded == old(recorded) - {old(height)}
      ensures ok ==> |old(bases)| > old(height) >= 0 && locs == Restored(old(locs), MovedIn(block), old(bases)[old(height)])
      ensures ok ==> marks == MarksBelow(old(marks), old(height))
      ensures ok && height in marks ==> locs == marks[height]
    {
      hide RowsAt, Sound, UndoKept;
      if height !in undoDb {
        return false;
      }
      ok := Unwind(block);
    }

    method Unwind(block: Block) returns (ok: bool)
      requires Valid() && CachesEmpty() && dbHeight == height >= 0 && block == chain[height]
      requires height in undoDb && height in recorded
      modifies `db, `locs, `refCache, `refLocCache, `rowDeletes, `locDeletes, `recorded, `marks, `chain, `bases, `height, `dbHeight
      ensures ok && Valid() && CachesEmpty() && dbHeight == height && chain == old(chain)[..|old(chain)| - 1]
      ensures db == RowsAt(base, chain) && recorded == old(recorded) - {old(height)}
      ensures |old(bases)| > old(height) && locs == Restored(old(locs), MovedIn(block), old(bases)[old(height)])
      ensures marks == MarksBelow(old(marks), old(height)) && (height in marks ==> locs == marks[height])
    {
      hide RowsAt, Sound, UndoKept, Decoded, RowsBack, Elements, LocsDeletedIn, LocsUndo, MarksBelow, MovedIn, Restored;
      var blob := undoDb[height];
      UndoRow(chain, bases, recorded, undoDb, height);
      SoundBackedUp(base, db, locs, chain, bases, dbHeight, marks, blob);
      UndoKeptShorter(chain, bases, recorded, undoDb);
      ok := Revert(block, blob);
      Shorten();
    }

    /** Deletes the rows of a block, puts back where its singletons were, and commits. */
    method Revert(block: Block, blob: Bytes) returns (ok: bool)
      requires refCache == map[] && refLocCache == map[] && rowDeletes == [] && locDeletes == [] && |blob| % CHUNK == 0
      modifies `db, `locs, `refCache, `refLocCache, `rowDeletes, `locDeletes
      ensures ok && db == RowsBack(old(db), block) && locs == (old(locs) - LocsDeletedIn(block)) + Decoded(blob)
      ensures refCache == map[] && refLocCache == map[] && rowDeletes == [] && locDeletes == []
    {
      hide Decoded, RowsBack, Elements, LocsDeletedIn;
      ok := DeleteTxs(block);
      RestoreLocs(blob);
      ghost var rows, places := db - Elements(rowDeletes), locs - Elements(locDeletes);
      Commit();
      assert db == rows + map[] == rows && locs == places + Decoded(blob);
    }

    /** The bookkeeping of a backup. */
    method Shorten()
      requires chain != [] && |bases| == |chain|
      modifies `recorded, `marks, `chain, `bases, `height, `dbHeight
      ensures recorded == old(recorded) - {|old(chain)| - 1}
      ensures marks == MarksBelow(old(marks), old(height))
      ensures chain == old(chain)[..|old(chain)| - 1] && bases == old(bases)[..|old(bases)| - 1]
      ensures height == dbHeight == old(height) - 1
    {
      recorded := recorded - {|chain| - 1};
      marks := MarksBelow(marks, height);
      chain, bases := chain[..|chain| - 1], bases[..|chain| - 1];
      height := height - 1;
      dbHeight := height;
    }
  }

  function MarksBelow(marks: map<int, Locs>, h: int): map<int, Locs> {
    map b | b in marks && b < h :: marks[b]
  }

  lemma ReadyToAdvance(
      base: Bytes -> Bytes, db: Rows, cache: Rows, locs: Locs, locCache: Locs, chain: seq<Block>, bases: seq<Locs>,
      dbHeight: int, marks: map<int, Locs>)
    requires -1 <= dbHeight < |chain| == |bases|
    requires Sound(base, db, cache, locs, locCache, chain, bases, dbHeight, marks)
    ensures db + cache == RowsAt(base, chain) && MintRows(db + cache, MintedAt(chain))
    ensures locs.Keys <= MintedAt(chain).singles && GoodLocs(locs) && ValidRefsChain(base, chain)
  {
    hide RowsAt, MintedAt, LocsOk, GoodLocs, ValidRefsChain, MintRows;
    DbMinted(base, locs, locCache, chain, bases, dbHeight, marks);
    MintRowsChain(base, chain);
  }

  // ----- In the middle of a block -----

  /** After the first `i` transactions of a block over `rows0` and `places0`, the rows are `rows`, the
      locations `places` and the refs minted `m`, and the refs `moved` were moved. */
  ghost predicate Progress(
      base: Bytes -> Bytes, locs: Locs, rows0: Rows, places0: Locs, txs: Block, i: nat, rows: Rows, places: Locs, m: Minted,
      moved: set<Bytes>)
  {
    && i <= |txs| && ValidRefs(base, rows, m, txs[i..]) && MintRows(rows, m) && locs.Keys <= m.singles && GoodLocs(locs)
    && RowsBlock(base, rows, txs[i..]) == RowsBlock(base, rows0, txs)
    && LocsBlock(places, txs[i..]) == LocsBlock(places0, txs)
    && moved + MovedIn(txs[i..]) == MovedIn(txs)
  }

  lemma ProgressStart(base: Bytes -> Bytes, locs: Locs, txs: Block, rows: Rows, places: Locs, m: Minted)
    requires ValidRefs(base, rows, m, txs) && MintRows(rows, m) && locs.Keys <= m.singles && GoodLocs(locs)
    ensures Progress(base, locs, rows, places, txs, 0, rows, places, m, {})
  {
    hide ValidRefs, MintRows, GoodLocs, RowsBlock, LocsBlock, MovedIn;
    assert txs[0..] == txs;
  }

  lemma ProgressStep(
      base: Bytes -> Bytes, locs: Locs, rows0: Rows, places0: Locs, txs: Block, i: nat, rows: Rows, places: Locs, m: Minted,
      moved: set<Bytes>)
    requires Progress(base, locs, rows0, places0, txs, i, rows, places, m, moved) && i < |txs|
    ensures ValidRefsTx(rows, m, txs[i]) && MintRows(rows, m) && locs.Keys <= m.singles && GoodLocs(locs)
    ensures Progress(base, locs, rows0, places0, txs, i + 1, RowsTx(base, rows, txs[i]), LocsTx(places, txs[i]), m.With(txs[i]),
              moved + Moved(txs[i]))
  {
    hide MintRows, GoodLocs, RowsTx, LocsTx, Moved, ValidRefsTx, Singles, Normals, Spends;
    assert txs[i..][0] == txs[i] && txs[i..][1..] == txs[i + 1..];
    MintRowsTx(base, rows, m, txs[i]);
  }

  lemma ProgressEnd(
      base: Bytes -> Bytes, locs: Locs, rows0: Rows, places0: Locs, txs: Block, rows: Rows, places: Locs, m: Minted,
      moved: set<Bytes>)
    requires Progress(base, locs, rows0, places0, txs, |txs|, rows, places, m, moved)
    ensures rows == RowsBlock(base, rows0, txs) && places == LocsBlock(places0, txs) && moved == MovedIn(txs)
  {
    hide MintRows, GoodLocs, ValidRefs;
    assert txs[|txs|..] == [];
  }

  lemma UndoIsGood(locs: Locs, block: Block)
    requires GoodLocs(locs)
    ensures GoodLocs(LocsUndo(locs, block))
  {
    hide MovedIn;
  }

  lemma SoundAdvanced(
      base: Bytes -> Bytes, db: Rows, cache: Rows, cache': Rows, locs: Locs, locCache: Locs, locCache': Locs, chain: seq<Block>,
      bases: seq<Locs>, dbHeight: int, marks: map<int, Locs>, block: Block)
    requires -1 <= dbHeight < |chain| == |bases|
    requires Sound(base, db, cache, locs, locCache, chain, bases, dbHeight, marks)
    requires ValidRefs(base, RowsAt(base, chain), MintedAt(chain), block)
    requires db + cache' == RowsBlock(base, db + cache, block) && locs + locCache' == LocsBlock(locs + locCache, block)
    ensures Sound(base, db, cache', locs, locCache', chain + [block], bases + [locs], dbHeight, marks)
  {
    hide RowsAt, MintedAt, ValidRefs, LocsOk, GoodLocs, RowsBlock, LocsBlock, ValidRefsChain;
    ChainGrows(base, chain, block, dbHeight);
    LocsOkAdvanced(base, locs, locCache, locCache', chain, bases, dbHeight, marks, block);
  }

  lemma SoundFlushed(
      base: Bytes -> Bytes, db: Rows, cache: Rows, locs: Locs, locCache: Locs, chain: seq<Block>, bases: seq<Locs>,
      dbHeight: int, marks: map<int, Locs>)
    requires -1 <= dbHeight < |chain| == |bases|
    requires Sound(base, db, cache, locs, locCache, chain, bases, dbHeight, marks)
    ensures Sound(base, db + cache, map[], locs + locCache, map[], chain, bases, |chain| - 1,
              marks[|chain| - 1 := locs + locCache])
    ensures db - Elements([]) == db && locs - Elements([]) == locs
  {
    hide RowsAt, LocsOk, GoodLocs, ValidRefsChain;
    LocsOkFlushed(base, locs, locCache, chain, bases, dbHeight, marks);
    assert db + cache + map[] == db + cache;
    assert Elements<RefKey>([]) == {} && Elements<Bytes>([]) == {};
  }

  lemma SoundBackedUp(
      base: Bytes -> Bytes, db: Rows, locs: Locs, chain: seq<Block>, bases: seq<Locs>, dbHeight: int, marks: map<int, Locs>,
      blob: Bytes)
    requires chain != [] && dbHeight == |chain| - 1 && |bases| == |chain|
    requires Sound(base, db, map[], locs, map[], chain, bases, dbHeight, marks)
    requires IsUndo(blob, bases[dbHeight], chain[dbHeight])
    ensures var h, before := dbHeight - 1, chain[..dbHeight];
            var rows := RowsBack(db, chain[dbHeight]);
            var locs' := (locs - LocsDeletedIn(chain[dbHeight])) + Decoded(blob);
            && rows == RowsAt(base, before)
            && Sound(base, rows, map[], locs', map[], before, bases[..dbHeight], h, MarksBelow(marks, dbHeight))
            && (h in MarksBelow(marks, dbHeight) ==> locs' == MarksBelow(marks, dbHeight)[h])
            && locs' == Restored(locs, MovedIn(chain[dbHeight]), bases[dbHeight])
  {
    hide Restored, MovedIn, RowsAt, LocsOk, GoodLocs, ValidRefsChain, RowsBack, LocsDeletedIn, Decoded, IsUndo;
    assert db + map[] == db;
    BackupLeaves(base, db, locs, chain, bases, dbHeight, marks, blob);
    var rows := RowsBack(db, chain[dbHeight]);
    assert rows + map[] == rows;
  }

  // ----- Rows marked for deletion -----

  /** Of the keys `ks`, those with a row are marked for deletion, and no other is. */
  ghost predicate Gone<K, V>(db: map<K, V>, deletes: seq<K>, ks: set<K>) {
    Elements(deletes) <= ks && forall k :: k in db && k in ks ==> k in Elements(deletes)
  }

  lemma GoneIs<K, V>(db: map<K, V>, deletes: seq<K>, ks: set<K>)
    requires Gone(db, deletes, ks)
    ensures db - Elements(deletes) == db - ks
  {
  }

  lemma GoneMore<K, V>(db: map<K, V>, deletes: seq<K>, ks: set<K>, k: K)
    requires Gone(db, deletes, ks)
    ensures Gone(db, deletes + [k], ks + {k})
  {
  }

  lemma GoneKept<K, V>(db: map<K, V>, deletes: seq<K>, ks: set<K>, k: K)
    requires Gone(db, deletes, ks)
    ensures k !in db ==> Gone(db, deletes, ks + {k})
  {
  }

  lemma NothingGone(db: Rows, locs: Locs)
    ensures Gone(db, [], {}) && Gone(locs, [], {}) && db - {} == db
  {
  }

  function MintKeys(t: BlockTx, refs: set<Bytes>): set<RefKey> {
    set r | r in refs * Spends(t) :: Rm(r)
  }

  /** What backing up deletes for one output. */
  function OutRows(t: BlockTx, i: nat): set<RefKey>
    requires i < |t.tx.outputs|
  {
    var script := t.tx.outputs[i].script;
    {Ri(PackedOutpoint(t.hash, i)), Rb(PackedOutpoint(t.hash, i))}
    + MintKeys(t, OfKind(script, true) + OfKind(script, false))
  }

  function OutLocs(t: BlockTx, i: nat): set<Bytes>
    requires i < |t.tx.outputs|
  {
    (OfKind(t.tx.outputs[i].script, true) + OfKind(t.tx.outputs[i].script, false)) - Spends(t)
  }

  lemma NoneMarked(t: BlockTx, all: seq<Bytes>, ks: set<RefKey>, ls: set<Bytes>)
    ensures ks + MintKeys(t, Elements(all[..0])) == ks && ls + (Elements(all[..0]) - Spends(t)) == ls
  {
    assert Elements(all[..0]) == {};
  }

  lemma MintKeysStep(t: BlockTx, refs: set<Bytes>, r: Bytes, ks: set<RefKey>)
    requires r in Spends(t)
    ensures ks + MintKeys(t, refs + {r}) == ks + MintKeys(t, refs) + {Rm(r)}
    ensures refs + {r} - Spends(t) == refs - Spends(t)
  {
    hide Spends;
  }

  lemma LocKeysStep(t: BlockTx, refs: set<Bytes>, r: Bytes, ls: set<Bytes>)
    requires r !in Spends(t)
    ensures ls + (refs + {r} - Spends(t)) == ls + (refs - Spends(t)) + {r}
    ensures MintKeys(t, refs + {r}) == MintKeys(t, refs)
  {
    hide Spends;
  }

  lemma DeletedNone(t: BlockTx, ks: set<RefKey>, ls: set<Bytes>)
    ensures ks + DeletedRowsTo(t, 0) == ks && ls + DeletedLocsTo(t, 0) == ls
  {
    hide Spends;
  }

  lemma DeletedStep(t: BlockTx, i: nat, ks: set<RefKey>, ls: set<Bytes>)
    requires i < |t.tx.outputs|
    ensures Scripts.OutputIndexable(t.tx.outputs[i].script) ==>
              && ks + DeletedRowsTo(t, i + 1) == ks + DeletedRowsTo(t, i) + OutRows(t, i)
              && ls + DeletedLocsTo(t, i + 1) == ls + DeletedLocsTo(t, i) + OutLocs(t, i)
    ensures !Scripts.OutputIndexable(t.tx.outputs[i].script) ==>
              ks + DeletedRowsTo(t, i + 1) == ks + DeletedRowsTo(t, i) && ls + DeletedLocsTo(t, i + 1) == ls + DeletedLocsTo(t, i)
  {
    hide Scripts.OutputIndexable, Spends, PackedOutpoint;
    KindNone(t.tx.outputs[i].script);
    RowsStep(t, i);
  }

  lemma KindNone(script: Bytes)
    ensures !Scripts.OutputIndexable(script) ==> OfKind(script, true) == {} && OfKind(script, false) == {}
  {
    hide Scripts.OutputIndexable, Scripts.PushedRefs;
  }

  lemma RowsStep(t: BlockTx, i: nat)
    requires i < |t.tx.outputs|
    ensures DeletedRowsTo(t, i + 1)
            == DeletedRowsTo(t, i)
               + (if Scripts.OutputIndexable(t.tx.outputs[i].script)
                  then {Ri(PackedOutpoint(t.hash, i)), Rb(PackedOutpoint(t.hash, i))} else {})
               + MintKeys(t, OfKind(t.tx.outputs[i].script, true) + OfKind(t.tx.outputs[i].script, false))
  {
    hide Scripts.OutputIndexable, Spends, PackedOutpoint, OfKind;
  }

  lemma AllOfKinds(script: Bytes)
    requires Scripts.OutputIndexable(script)
    ensures Scripts.Walk(script, 0).Some?
    ensures forall x :: x in Scripts.AllRefs(Scripts.PushedRefs(script, 0)) <==> x in OfKind(script, true) + OfKind(script, false)
  {
    hide Scripts.Walk, Scripts.PushedRefs;
    var rs := Scripts.PushedRefs(script, 0);
    forall x
      ensures x in Scripts.AllRefs(rs) <==> x in OfKind(script, true) + OfKind(script, false)
    {
      AllRefsAre(rs, x);
    }
  }

  // ----- What flushes and backups keep -----

  lemma LocsOkFlushed(
      base: Bytes -> Bytes, locs: Locs, cache: Locs, chain: seq<Block>, bases: seq<Locs>, dbHeight: int, marks: map<int, Locs>)
    requires -1 <= dbHeight < |chain| == |bases| && LocsOk(locs, cache, chain, bases, dbHeight, marks)
    requires ValidRefsChain(base, chain)
    ensures LocsOk(locs + cache, map[], chain, bases, |chain| - 1, marks[|chain| - 1 := locs + cache])
    ensures GoodLocs(locs + cache)
  {
    hide LocsAfter, UnwindTo, GoodLocs, LocsOf, MintedAt, ValidRefsChain;
    var view, top := locs + cache, |chain| - 1;
    assert chain[top + 1..] == [] && view + map[] == view;
    NoneAfter(view, chain[top + 1..]);
    forall b: int | -1 <= b <= top
      ensures LocsOf(UnwindTo(view, chain, bases, top, b), MintedAt(chain[..b + 1]))
      ensures b <= dbHeight ==> UnwindTo(view, chain, bases, top, b) == UnwindTo(locs, chain, bases, dbHeight, b)
    {
      UnwoundAt(base, locs, cache, chain, bases, dbHeight, marks, b);
    }
    UnwindToNone(view, chain, bases, top);
  }

  lemma UnwoundAt(
      base: Bytes -> Bytes, locs: Locs, cache: Locs, chain: seq<Block>, bases: seq<Locs>, dbHeight: int, marks: map<int, Locs>,
      b: int)
    requires -1 <= dbHeight < |chain| == |bases| && LocsOk(locs, cache, chain, bases, dbHeight, marks)
    requires ValidRefsChain(base, chain) && -1 <= b < |chain|
    ensures LocsOf(UnwindTo(locs + cache, chain, bases, |chain| - 1, b), MintedAt(chain[..b + 1]))
    ensures b <= dbHeight ==>
              UnwindTo(locs + cache, chain, bases, |chain| - 1, b) == UnwindTo(locs, chain, bases, dbHeight, b)
  {
    hide LocsAfter, UnwindTo, UnwindLocs, GoodLocs, LocsOf, MintedAt, ValidRefsChain;
    var view, top, window := locs + cache, |chain| - 1, chain[dbHeight + 1..];
    if b <= dbHeight {
      UnwindToIs(view, chain, bases, dbHeight, dbHeight, locs);
      WindowLocs(locs, window);
      UnwindToSplit(view, chain, bases, top, dbHeight, b);
      assert LocsOf(UnwindTo(locs, chain, bases, dbHeight, b), MintedAt(chain[..b + 1]));
    } else {
      DbMinted(base, locs, cache, chain, bases, dbHeight, marks);
      UnwindToIs(view, chain, bases, dbHeight, b, locs);
      LocsOfUnwound(base, locs, chain, dbHeight, b - dbHeight);
    }
  }

  lemma NoneAfter(locs: Locs, window: seq<Block>)
    ensures LocsAfter(locs, window, 0) == locs
  {
  }

  lemma UnwindToNone(locs: Locs, chain: seq<Block>, bases: seq<Locs>, h: int)
    requires -1 <= h < |chain| == |bases|
    ensures UnwindTo(locs, chain, bases, h, h) == locs
  {
  }

  lemma UndoRow(chain: seq<Block>, bases: seq<Locs>, recorded: set<nat>, undoDb: map<nat, Bytes>, h: nat)
    requires |chain| == |bases| && h == |chain| - 1 && h in recorded && UndoKept(chain, bases, recorded, undoDb, [], h)
    ensures h in undoDb && IsUndo(undoDb[h], bases[h], chain[h])
  {
  }

  lemma UndoKeptShorter(chain: seq<Block>, bases: seq<Locs>, recorded: set<nat>, undoDb: map<nat, Bytes>)
    requires |chain| == |bases| && chain != [] && UndoKept(chain, bases, recorded, undoDb, [], |chain| - 1)
    ensures UndoKept(chain[..|chain| - 1], bases[..|chain| - 1], recorded - {|chain| - 1}, undoDb, [], |chain| - 2)
  {
    hide IsUndo;
  }

  lemma BackupLeaves(
      base: Bytes -> Bytes, db: Rows, locs: Locs, chain: seq<Block>, bases: seq<Locs>, dbHeight: int, marks: map<int, Locs>,
      blob: Bytes)
    requires chain != [] && dbHeight == |chain| - 1 && |bases| == |chain|
    requires LocsOk(locs, map[], chain, bases, dbHeight, marks) && GoodLocs(locs)
    requires ValidRefsChain(base, chain) && db == RowsAt(base, chain)
    requires IsUndo(blob, bases[dbHeight], chain[dbHeight])
    ensures var h, before := dbHeight - 1, chain[..dbHeight];
            var locs' := (locs - LocsDeletedIn(chain[dbHeight])) + Decoded(blob);
            var marks' := MarksBelow(marks, dbHeight);
            && ValidRefsChain(base, before) && RowsBack(db, chain[dbHeight]) == RowsAt(base, before)
            && LocsOk(locs', map[], before, bases[..dbHeight], h, marks') && GoodLocs(locs')
            && (h in marks' ==> locs' == marks'[h])
            && locs' == Restored(locs, MovedIn(chain[dbHeight]), bases[dbHeight])
  {
    hide RowsBlock, ValidRefs, MintRows, Decoded, LocsOk, GoodLocs, MintedIn, RowsBack, LocsDeletedIn, MovedIn, Kept, MintedAt,
      RowsAt, LocsOf;
    var h, before, block := dbHeight - 1, chain[..dbHeight], chain[dbHeight];
    var locs' := (locs - LocsDeletedIn(block)) + Decoded(blob);
    ChainStep(base, chain);
    MintRowsChain(base, before);
    RowsBackExact(base, RowsAt(base, before), MintedAt(before), block);
    DisjointKinds(base, before);
    DbMinted(base, locs, map[], chain, bases, dbHeight, marks);
    LocsBackIs(base, RowsAt(base, before), MintedAt(before), block, locs, bases[dbHeight]);
    assert locs' == Restored(locs, MovedIn(block), bases[dbHeight]);
    LocsOkBack(locs, locs', chain, bases, dbHeight, marks);
  }

  lemma ChainStep(base: Bytes -> Bytes, chain: seq<Block>)
    requires chain != [] && ValidRefsChain(base, chain)
    ensures var before, block := chain[..|chain| - 1], chain[|chain| - 1];
            && ValidRefsChain(base, before) && ValidRefs(base, RowsAt(base, before), MintedAt(before), block)
            && RowsAt(base, chain) == RowsBlock(base, RowsAt(base, before), block)
            && MintedAt(chain) == MintedIn(MintedAt(before), block)
  {
    hide ValidRefs, RowsBlock, MintedIn;
  }

  lemma DisjointKinds(base: Bytes -> Bytes, chain: seq<Block>)
    requires ValidRefsChain(base, chain)
    ensures MintedAt(chain).singles !! MintedAt(chain).normals
  {
    hide ValidRefs, RowsBlock, MintedIn, MintedAt, RowsAt, ValidRefsChain;
    MintRowsChain(base, chain);
  }

  lemma LocsOkBack(
      locs: Locs, locs': Locs, chain: seq<Block>, bases: seq<Locs>, dbHeight: int, marks: map<int, Locs>)
    requires chain != [] && dbHeight == |chain| - 1 && |bases| == |chain|
    requires LocsOk(locs, map[], chain, bases, dbHeight, marks) && GoodLocs(locs)
    requires locs' == Restored(locs, MovedIn(chain[dbHeight]), bases[dbHeight])
    ensures var marks' := MarksBelow(marks, dbHeight);
            && LocsOk(locs', map[], chain[..dbHeight], bases[..dbHeight], dbHeight - 1, marks') && GoodLocs(locs')
            && (dbHeight - 1 in marks' ==> locs' == marks'[dbHeight - 1])
  {
    hide LocsAfter, MovedIn, GoodLocs, LocsOf, MintedAt;
    var h, before, bases' := dbHeight - 1, chain[..dbHeight], bases[..dbHeight];
    assert before[h + 1..] == [] && locs' + map[] == locs';
    NoneAfter(locs', before[h + 1..]);
    assert GoodLocs(bases[dbHeight]);
    GoodRestored(locs, MovedIn(chain[dbHeight]), bases[dbHeight]);
    forall b: int | -1 <= b <= h
      ensures UnwindTo(locs', before, bases', h, b) == UnwindTo(locs, chain, bases, dbHeight, b)
      ensures before[..b + 1] == chain[..b + 1]
    {
      UnwindToSame(locs', before, bases', chain, bases, h, b);
    }
    UnwindToNone(locs', before, bases', h);
  }

  lemma GoodRestored(locs: Locs, moved: set<Bytes>, db: Locs)
    requires GoodLocs(locs) && GoodLocs(db)
    ensures GoodLocs(Restored(locs, moved, db))
  {
  }

  lemma ChainGrows(base: Bytes -> Bytes, chain: seq<Block>, block: Block, dbHeight: int)
    requires -1 <= dbHeight < |chain|
    requires ValidRefsChain(base, chain) && ValidRefs(base, RowsAt(base, chain), MintedAt(chain), block)
    ensures (chain + [block])[..|chain + [block]| - 1] == chain
    ensures (chain + [block])[..dbHeight + 1] == chain[..dbHeight + 1]
    ensures ValidRefsChain(base, chain + [block])
    ensures RowsAt(base, chain + [block]) == RowsBlock(base, RowsAt(base, chain), block)
  {
    hide ValidRefs, RowsBlock, MintedIn;
    assert (chain + [block])[..|chain + [block]| - 1] == chain;
  }

  /** Refs located in the database have been minted, also after the blocks since. */
  lemma DbMinted(
      base: Bytes -> Bytes, locs: Locs, cache: Locs, chain: seq<Block>, bases: seq<Locs>, dbHeight: int, marks: map<int, Locs>)
    requires ValidRefsChain(base, chain) && -1 <= dbHeight < |chain| == |bases|
    requires LocsOk(locs, cache, chain, bases, dbHeight, marks)
    ensures LocsOf(locs, MintedAt(chain)) && LocsOf(locs, MintedAt(chain[..dbHeight + 1]))
  {
    hide MintedAt, UnwindTo, GoodLocs, LocsAfter, ValidRefsChain;
    UnwindToNone(locs, chain, bases, dbHeight);
    MintedGrows(base, chain, dbHeight + 1);
  }

  lemma {:induction false} GoodLocsBlock(base: Bytes -> Bytes, rows: Rows, m: Minted, locs: Locs, txs: Block)
    requires ValidRefs(base, rows, m, txs) && GoodLocs(locs)
    ensures GoodLocs(LocsBlock(locs, txs))
    decreases |txs|
  {
    hide RowsTx, KindTo, Spends, Range, PackedOutpoint;
    if txs != [] {
      KindLengths(txs[0], |txs[0].tx.outputs|);
      GoodLocsBlock(base, RowsTx(base, rows, txs[0]), m.With(txs[0]), LocsTx(locs, txs[0]), txs[1..]);
    }
  }

  lemma {:induction false} KindLengths(t: BlockTx, n: nat)
    requires n <= |t.tx.outputs|
    ensures forall r :: r in KindTo(t, true, n) ==> |r| == REF_LEN
  {
    hide OfKind;
    if n > 0 {
      KindLengths(t, n - 1);
      OfKindLengths(t.tx.outputs[n - 1].script, true);
    }
  }

  lemma LocsOkAdvanced(
      base: Bytes -> Bytes, locs: Locs, cache: Locs, cache': Locs, chain: seq<Block>, bases: seq<Locs>, dbHeight: int,
      marks: map<int, Locs>, block: Block)
    requires -1 <= dbHeight < |chain| == |bases| && GoodLocs(locs)
    requires LocsOk(locs, cache, chain, bases, dbHeight, marks)
    requires ValidRefs(base, RowsAt(base, chain), MintedAt(chain), block)
    requires locs + cache' == LocsBlock(locs + cache, block)
    ensures LocsOk(locs, cache', chain + [block], bases + [locs], dbHeight, marks)
  {
    hide LocsBlock, UnwindTo, GoodLocs, LocsOf, MintedAt, ValidRefs, RowsAt, LocsAfter;
    var chain', bases' := chain + [block], bases + [locs];
    var window, n := chain[dbHeight + 1..], |chain| - dbHeight - 1;
    assert chain'[dbHeight + 1..] == window + [block];
    LocsAfterMore(locs, window, block, n);
    GoodLocsBlock(base, RowsAt(base, chain), MintedAt(chain), locs + cache, block);
    forall b: int | -1 <= b <= dbHeight
      ensures UnwindTo(locs, chain', bases', dbHeight, b) == UnwindTo(locs, chain, bases, dbHeight, b)
      ensures chain'[..b + 1] == chain[..b + 1]
    {
      UnwindToSame(locs, chain, bases, chain', bases', dbHeight, b);
    }
  }

  lemma {:induction false} LocsAfterMore(locs: Locs, window: seq<Block>, block: Block, n: nat)
    requires n <= |window|
    ensures LocsAfter(locs, window + [block], n) == LocsAfter(locs, window, n)
    ensures n == |window| ==> LocsAfter(locs, window + [block], n + 1) == LocsBlock(LocsAfter(locs, window, n), block)
  {
    hide LocsBlock;
    if n > 0 {
      LocsAfterMore(locs, window, block, n - 1);
    }
  }

  lemma UndoKeptAdvanced(
      chain: seq<Block>, bases: seq<Locs>, recorded: set<nat>, undoDb: map<nat, Bytes>, infos: seq<(Bytes, nat)>, dbHeight: int,
      block: Block, locs: Locs, blob: Bytes, record: bool)
    requires |chain| == |bases| && UndoKept(chain, bases, recorded, undoDb, infos, dbHeight) && dbHeight < |chain|
    requires record ==> IsUndo(blob, locs, block)
    ensures UndoKept(chain + [block], bases + [locs], recorded + (if record then {|chain|} else {}), undoDb,
              if record then infos + [(blob, |chain|)] else infos, dbHeight)
  {
    hide IsUndo;
    var infos' := if record then infos + [(blob, |chain|)] else infos;
    var recorded' := recorded + (if record then {|chain|} else {});
    forall h | h in recorded' && h > dbHeight
      ensures exists i :: 0 <= i < |infos'| && infos'[i].1 == h
    {
      if h in recorded {
        var i :| 0 <= i < |infos| && infos[i].1 == h;
        assert infos'[i].1 == h;
      } else {
        assert infos'[|infos|].1 == h;
      }
    }
  }

  lemma KeptNone(locs: Locs)
    ensures Kept(locs, {}) == map[]
  {
  }

  lemma MintsAreNew(rows: Rows, m: Minted, t: BlockTx, locs: Locs)
    requires ValidRefsTx(rows, m, t) && locs.Keys <= m.singles && GoodLocs(locs)
    ensures Singles(t) * Spends(t) !! locs.Keys && forall r :: r in locs ==> locs[r] != []
  {
    hide KindTo, Spends, PackedOutpoint, Range;
  }

  lemma NoRefsOutput(base: Bytes -> Bytes, rows: Rows, locs: Locs, t: BlockTx, i: nat)
    requires i < |t.tx.outputs| && !Scripts.OutputIndexable(t.tx.outputs[i].script)
    ensures RowsOutput(base, rows, t, i) == rows && OfKind(t.tx.outputs[i].script, true) == {}
    ensures WithLocs(locs, {}, t) == locs
  {
    hide Scripts.OutputIndexable, Scripts.PushedRefs;
  }

  lemma OutputIs(base: Bytes -> Bytes, before: Rows, t: BlockTx, i: nat, rows: Rows)
    requires i < |t.tx.outputs|
    requires var script, o := t.tx.outputs[i].script, PackedOutpoint(t.hash, i);
             rows == if OutputRefs(script) == [] then before else before[Ri(o) := RiValue(script)][Rb(o) := base(script)]
    ensures var script := t.tx.outputs[i].script;
            RowsOutput(base, before, t, i) == WithMints(rows, OfKind(script, true) + OfKind(script, false), t)
  {
    hide Scripts.PushedRefs, Scripts.OutputIndexable, Spends, PackedOutpoint, RiValue;
    if OutputRefs(t.tx.outputs[i].script) == [] {
      WithNothing(rows, map[], t);
    }
  }

  lemma WithNothing(rows: Rows, locs: Locs, t: BlockTx)
    ensures WithMints(rows, {}, t) == rows && WithLocs(locs, {}, t) == locs
  {
  }

  lemma KeysStep(s: seq<Bytes>, j: nat)
    requires j < |s|
    ensures Elements(s[..j + 1]) == Elements(s[..j]) + {s[j]} && Elements(s[..0]) == {}
  {
    assert s[..j + 1] == s[..j] + [s[j]];
  }

  lemma KeptStep(locs: Locs, moved: set<Bytes>, r: Bytes)
    ensures Kept(locs, moved + {r}) == if r in locs then Kept(locs, moved)[r := locs[r]] else Kept(locs, moved)
  {
  }

  // ----- A singleton that moves twice in one window -----

  /** A transaction that spends one outpoint and has one output, which holds the singleton `ref`. */
  function Carrier(hash: Bytes, prev: Bytes, ref: Bytes, value: nat): BlockTx {
    var script := [Scripts.OP_PUSHINPUTREFSINGLETON] + ref;
    BlockTx(Transactions.Tx(1, [Transactions.TxInput(prev, 0, [], 0)], [Transactions.TxOutput(value, script)], 0), hash)
  }

  lemma CarrierScript(ref: Bytes)
    requires |ref| == REF_LEN
    ensures OutputRefs([Scripts.OP_PUSHINPUTREFSINGLETON] + ref) == [Scripts.PushedRef(ref, true)]
  {
    var s := [Scripts.OP_PUSHINPUTREFSINGLETON] + ref;
    Scripts.Step(s, 0);
    assert s[1..37] == ref;
    assert Scripts.Walk(s, 37) == Some([]) && Scripts.PushedRefs(s, 37) == [];
  }

  lemma CarrierRefs(hash: Bytes, prev: Bytes, ref: Bytes, value: nat)
    requires |ref| == REF_LEN
    ensures var t := Carrier(hash, prev, ref, value);
            Singles(t) == {ref} && Normals(t) == {} && Spends(t) == {PackedOutpoint(prev, 0)}
  {
    hide OutputRefs, PackedOutpoint;
    CarrierScript(ref);
    var t := Carrier(hash, prev, ref, value);
    assert OfKind(t.tx.outputs[0].script, true) == {ref} && OfKind(t.tx.outputs[0].script, false) == {};
    assert KindTo(t, true, 0) == {} && KindTo(t, false, 0) == {};
    assert t.tx.inputs[0] in t.tx.inputs;
  }

  /** It adds its two rows and, if it mints the ref, where. */
  lemma CarrierRows(base: Bytes -> Bytes, rows: Rows, hash: Bytes, prev: Bytes, ref: Bytes, value: nat, k: Bytes)
    requires |ref| == REF_LEN && k != PackedOutpoint(hash, 0) && Ri(k) !in rows && Rb(k) !in rows
    ensures var rows' := RowsTx(base, rows, Carrier(hash, prev, ref, value)); Ri(k) !in rows' && Rb(k) !in rows'
  {
    hide OutputRefs, PackedOutpoint, RiValue, OfKind, Spends;
    var t := Carrier(hash, prev, ref, value);
    assert RowsTo(base, rows, t, 0) == rows;
  }

  lemma OneTx(base: Bytes -> Bytes, chain: seq<Block>, t: BlockTx)
    ensures RowsAt(base, chain + [[t]]) == RowsTx(base, RowsAt(base, chain), t)
    ensures MintedAt(chain + [[t]]) == MintedAt(chain).With(t)
    ensures MovedIn([t]) == Moved(t) && forall locs :: LocsBlock(locs, [t]) == LocsTx(locs, t)
    ensures forall rows, m :: ValidRefsTx(rows, m, t) ==> ValidRefs(base, rows, m, [t])
  {
    hide RowsTx, LocsTx, Minted.With, Moved, ValidRefsTx;
    var all := chain + [[t]];
    assert all[..|all| - 1] == chain && all[|all| - 1] == [t] && [t][1..] == [];
    assert RowsBlock(base, RowsAt(base, chain), [t]) == RowsTx(base, RowsAt(base, chain), t);
    assert MintedIn(MintedAt(chain), [t]) == MintedAt(chain).With(t);
  }

  /** The three blocks: the first mints the ref that names the outpoint it spends, the others move it. */
  lemma ThreeCarriers(base: Bytes -> Bytes, p: Bytes, h0: Bytes, h1: Bytes, h2: Bytes)
    requires |p| == |h0| == |h1| == |h2| == 32 && p !in {h0, h1, h2} && h0 !in {h1, h2} && h1 != h2
    ensures var ref := PackedOutpoint(p, 0);
            var a, b, c := Carrier(h0, p, ref, 1), Carrier(h1, h0, ref, 1), Carrier(h2, h1, ref, 1);
            && ValidRefs(base, RowsAt(base, []), MintedAt([]), [a])
            && ValidRefs(base, RowsAt(base, [[a]]), MintedAt([[a]]), [b])
            && ValidRefs(base, RowsAt(base, [[a], [b]]), MintedAt([[a], [b]]), [c])
            && MovedIn([c]) == {ref}
            && forall locs :: LocsBlock(locs, [a]) == locs && LocsBlock(locs, [b]) == locs[ref := h1]
  {
    hide PackedOutpoint, Singles, Normals, Spends, RowsTx, ValidRefs, MovedIn, RowsAt, MintedAt, LocsBlock;
    var ref := PackedOutpoint(p, 0);
    PackedHashes(p, h0);
    PackedHashes(p, h1);
    PackedHashes(h0, h1);
    PackedHashes(h0, h2);
    PackedHashes(h1, h2);
    var a, b, c := Carrier(h0, p, ref, 1), Carrier(h1, h0, ref, 1), Carrier(h2, h1, ref, 1);
    CarrierRefs(h0, p, ref, 1);
    CarrierRefs(h1, h0, ref, 1);
    CarrierRefs(h2, h1, ref, 1);
    EmptyChain(base);
    OneTx(base, [], a);
    OneTx(base, [[a]], b);
    OneTx(base, [[a], [b]], c);
    assert [] + [[a]] == [[a]] && [[a]] + [[b]] == [[a], [b]];
    var k1, k2 := PackedOutpoint(h1, 0), PackedOutpoint(h2, 0);
    CarrierRows(base, map[], h0, p, ref, 1, k1);
    CarrierRows(base, map[], h0, p, ref, 1, k2);
    CarrierRows(base, RowsAt(base, [[a]]), h1, h0, ref, 1, k2);
  }

  lemma PackedHashes(g: Bytes, h: Bytes)
    requires |g| == |h| && g != h
    ensures PackedOutpoint(g, 0) != PackedOutpoint(h, 0) && |PackedOutpoint(g, 0)| == |g| + 4
  {
    assert PackedOutpoint(g, 0)[..|g|] == g && PackedOutpoint(h, 0)[..|g|] == h;
  }

  lemma EmptyChain(base: Bytes -> Bytes)
    ensures RowsAt(base, []) == map[] && MintedAt([]) == Minted({}, {})
  {
  }

  lemma UndoIsThere(r: RefProcessor)
    requires r.Valid() && r.dbHeight == r.height >= 0 && r.height in r.recorded
    ensures r.height in r.undoDb
  {
    hide Sound, IsUndo;
  }

  /** A run: a singleton is minted, and moves in both blocks of the next window.  Backing up the
      second loses where the first had put it. */
  method MovedInBoth(base: Bytes -> Bytes, p: Bytes, h0: Bytes, h1: Bytes, h2: Bytes)
    returns (held: Option<Bytes>, back: Option<Bytes>)
    requires |p| == |h0| == |h1| == |h2| == 32 && p !in {h0, h1, h2} && h0 !in {h1, h2} && h1 != h2
    ensures held == Some(h1) && back == None
  {
    hide RefProcessor.Valid, ValidRefs, MovedIn, Carrier, RowsAt, MintedAt, PackedOutpoint, LocsBlock, MarksBelow;
    var ref := PackedOutpoint(p, 0);
    var a, b, c := Carrier(h0, p, ref, 1), Carrier(h1, h0, ref, 1), Carrier(h2, h1, ref, 1);
    ThreeCarriers(base, p, h0, h1, h2);
    var r := new RefProcessor(base);
    r.AdvanceBlock([a], true);
    assert r.chain == [[a]];
    r.Flush();
    assert r.locs == map[];
    r.AdvanceBlock([b], true);
    assert r.chain == [[a], [b]] && r.bases[1] == map[];
    held := LocOf(r.locs + r.refLocCache, ref);
    r.AdvanceBlock([c], true);
    assert r.chain == [[a], [b], [c]] && r.bases[2] == map[];
    r.Flush();
    UndoIsThere(r);
    var ok := r.BackupBlock([c]);
    back := LocOf(r.locs, ref);
  }
}
