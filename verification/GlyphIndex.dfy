/** The Glyph index over its three layers: caches, pending deletes and the database, with the
    undo log and the derived rows (electrumx/server/glyph_index.py).

    A flush commits the window of blocks since the last one in a single batch; backing up
    reads the undo row of one height. */
module GlyphIndexes {
  import opened ByteStrings
  import opened UndoCodec
  import opened Overlay
  import opened Discovery
  import opened Balances
  import opened GlyphBatches
  import Utxos

  /** A history, metadata or contract row waiting for the flush. */
  datatype Write = Write(height: nat, key: Bytes, value: Bytes)

  predicate GoodWrite(w: Write) {
    Kind(w.key) in OTHER_KINDS && |w.key| < 0x1_0000 && |w.value| < SENTINEL && Height(w.height)
  }

  /** The value last written to a key. */
  function LastWrite(ws: seq<Write>, k: Bytes): Option<Bytes> {
    if ws == [] then None
    else if ws[|ws| - 1].key == k then Some(ws[|ws| - 1].value)
    else LastWrite(ws[..|ws| - 1], k)
  }

  /** The pending rows are in the batch, the last write of each key. */
  ghost predicate OthersIn(batch: Batch, ws: seq<Write>) {
    forall k :: Kind(k) in OTHER_KINDS ==>
      InBatch(batch, k) == match LastWrite(ws, k) case None => None case Some(v) => Some(Some(v))
  }

  ghost predicate OwnersIn(batch: Batch, owners: map<Bytes, Bytes>) {
    forall hx :: hx in owners ==> InBatch(batch, OWNER + hx) == Some(Some(owners[hx]))
  }

  /** What every flush and backup leaves in the database. */
  ghost predicate DbOk(cbor: Cbor, db: Table, height: int, floor: int, marks: Marks) {
    && cbor.Usable() && Sound(cbor, db) && SmallValues(db) && -1 <= height && 0 <= floor
    && SoundBelow(cbor, db, height, floor) && Unwinds(db, height, floor, marks)
    && (forall b :: b in marks ==> b <= height)
    && UndoRowsOk(db, height)
  }

  /** Undo rows belong to heights that are committed and hold entries about tracked keys. */
  ghost predicate UndoRowsOk(db: Table, height: int) {
    forall h: nat :: Height(h) && UndoKey(h) in db ==>
      h <= height && db[UndoKey(h)] != [] && GoodEntries(Decode(db[UndoKey(h)]))
  }

  /** Empty tables, and tables for which no earlier undo row is relied upon. */
  lemma Fresh(cbor: Cbor, db: Table, height: int)
    requires cbor.Usable() && Sound(cbor, db) && SmallValues(db) && -1 <= height && UndoRowsOk(db, height)
    ensures DbOk(cbor, db, height, height + 1, map[height := db])
  {
    hide SmallValues, UndoRowsOk, Sound;
    UnwindNone(db, height);
  }

  lemma EmptyTables(cbor: Cbor)
    ensures Sound(cbor, map[]) && SmallValues(map[]) && UndoRowsOk(map[], -1)
  {
  }

  lemma HigherFloor(cbor: Cbor, db: Table, height: int, floor: int, floor': int, marks: Marks)
    requires DbOk(cbor, db, height, floor, marks) && floor <= floor'
    ensures DbOk(cbor, db, height, floor', marks)
  {
    hide Sound, SmallValues, UndoRowsOk, SameTracked, Unwind;
  }

  lemma CommitRow(db: Table, batch: Batch, k: Bytes)
    ensures Get(Commit(db, batch), k) == Pending(db, batch, k)
  {
  }

  class GlyphIndex {
    const cbor: Cbor
    const reorgLimit: nat

    var db: Table
    var dbHeight: int

    var tokenCache: map<Bytes, Token>
    var tokenHeight: map<Bytes, nat>
    var balanceCache: map<Bytes, nat>
    var balanceHeight: map<Bytes, nat>
    var balanceDeletes: set<Bytes>
    var ownerCache: map<Bytes, Bytes>
    var pending: seq<Write>
    var undoCache: Undo
    var knownRefs: set<Bytes>
    var lastUndoPruned: int

    ghost var top: int          // everything cached belongs to heights up to here
    ghost var floor: int        // undo rows are kept from this height on
    ghost var marks: Marks      // the tables where windows ended

    /** Opens the tables as an earlier run left them, or empty ones at height -1. */
    constructor (cbor: Cbor, reorgLimit: nat, db: Table, dbHeight: int, ghost floor: int, ghost marks: Marks)
      requires DbOk(cbor, db, dbHeight, floor, marks)
      ensures Valid() && CachesEmpty() && this.db == db && this.dbHeight == top == dbHeight && this.marks == marks
      ensures this.cbor == cbor && this.reorgLimit == reorgLimit
      ensures this.floor == floor || (reorgLimit > 0 && this.floor == dbHeight - reorgLimit + 1)
    {
      hide SoundBelow, Unwinds, UndoRowsOk, SmallValues, Sound;
      var minKeep := if reorgLimit == 0 then 0 else if dbHeight - reorgLimit + 1 > 0 then dbHeight - reorgLimit + 1 else 0;
      this.cbor, this.reorgLimit, this.db, this.dbHeight := cbor, reorgLimit, db, dbHeight;
      tokenCache, tokenHeight, balanceCache, balanceHeight, balanceDeletes := map[], map[], map[], map[], {};
      ownerCache, pending, undoCache, knownRefs := map[], [], map[], {};
      lastUndoPruned := minKeep - 1;
      top, this.marks := dbHeight, marks;
      this.floor := if floor > minKeep then floor else minKeep;
      HigherFloor(cbor, db, dbHeight, floor, if floor > minKeep then floor else minKeep, marks);
      new;
      EmptyIsValid();
    }

    /** A block begins: from now on things may belong to its height. */
    ghost method BeginBlock(height: int)
      requires Valid() && top <= height
      modifies `top
      ensures Valid() && top == height
    {
      hide DbOk, GoodUndo, SmallValues, Paired, BalancesOk, At, Kind, TokenKey, GoodToken, GoodWrite;
      TopGrows(undoCache, db, dbHeight, top, height);
      top := height;
    }

    // ----- Undo -----

    ghost predicate UndoOk()
      reads `db, `dbHeight, `undoCache, `top
    {
      -1 <= dbHeight && GoodUndo(undoCache, db, dbHeight, top) && SmallValues(db)
    }

    method RecordUndo(height: nat, key: Bytes)
      requires UndoOk() && dbHeight < height <= top && Height(height)
      requires Tracked(key) && |key| < 0x1_0000
      modifies `undoCache
      ensures UndoOk() && RecordedMore(old(undoCache), undoCache, height, {key})
    {
      hide HasKey, Tracked;
      RecordingGood(undoCache, db, height, key, dbHeight, top);
      if height in undoCache && HasKey(undoCache[height], key) {
        return;
      }
      var prev := Get(db, key);
      undoCache := undoCache[height := (if height in undoCache then undoCache[height] else []) + [Entry(key, prev)]];
    }

    // ----- Between flushes -----

    ghost predicate TokensOk()
      reads `tokenCache, `tokenHeight, `dbHeight, `top
    {
      && tokenCache.Keys == tokenHeight.Keys
      && forall ref :: ref in tokenCache ==>
           GoodToken(cbor, ref, tokenCache[ref]) && dbHeight < tokenHeight[ref] <= top && Height(tokenHeight[ref])
    }

    ghost predicate PendingOk()
      reads `pending, `dbHeight, `top
    {
      forall i :: 0 <= i < |pending| ==> GoodWrite(pending[i]) && dbHeight < pending[i].height <= top
    }

    ghost predicate CachesOk()
      reads this
    {
      && TokensOk() && PendingOk() && Paired(undoCache)
      && balanceHeight.Keys == balanceCache.Keys && BalancesOk(balanceCache, balanceDeletes, undoCache)
      && (forall h: nat, k :: At(undoCache, h, k) ==> Kind(k) in BALANCE_KINDS)
      && (forall ref :: ref in knownRefs ==> ref in tokenCache || TokenKey(ref) in db)
    }

    ghost predicate Valid()
      reads this
    {
      && DbOk(cbor, db, dbHeight, floor, marks) && -1 <= lastUndoPruned < floor
      && UndoOk() && CachesOk() && dbHeight <= top
    }

    predicate CachesEmpty()
      reads this
    {
      && tokenCache == map[] && tokenHeight == map[] && balanceCache == map[] && balanceHeight == map[]
      && balanceDeletes == {} && ownerCache == map[] && pending == [] && undoCache == map[]
    }

    /** The balance as update_balance sees it. */
    function Balance(hashX: Bytes, ref: Bytes): nat
      reads `balanceCache, `balanceDeletes, `db
    {
      View(balanceCache, balanceDeletes, db, BalanceKey(hashX, ref))
    }

    ghost function Now(): Books
      reads `undoCache, `balanceCache, `balanceDeletes
    {
      Books(undoCache, balanceCache, balanceDeletes)
    }

    predicate Known(ref: Bytes)
      reads `tokenCache, `db
    {
      ref in tokenCache || TokenKey(ref) in db
    }

    /** Adds `delta`, but not below zero.  No other balance changes, and this one is recorded. */
    method UpdateBalance(height: nat, hashX: Bytes, ref: Bytes, delta: int)
      requires Valid() && dbHeight < height <= top && Height(height) && |hashX| == HASHX_LEN && |ref| == REF_LEN
      requires Balance(hashX, ref) + delta < Range(8)
      modifies `undoCache, `balanceCache, `balanceHeight, `balanceDeletes
      ensures Valid()
      ensures forall hx, r :: |hx| == HASHX_LEN && |r| == REF_LEN ==>
                Balance(hx, r) == if hx == hashX && r == ref
                                  then if old(Balance(hashX, ref)) + delta > 0 then old(Balance(hashX, ref)) + delta else 0
                                  else old(Balance(hx, r))
      ensures Steady(old(Now()), Now(), db, height) && At(undoCache, height, BalanceKey(hashX, ref))
    {
      hide HasKey, Tracked, Range, Steady, RecordedMore, GoodUndo, SmallValues, DbOk, IsBalanceKey, Mirror, Recorded, BalanceKey, At, Kind,
        Paired, GrownBy, BalancesOk, TokensOk, PendingOk;
      BalanceKeyFacts(hashX, ref);
      var key := BalanceKey(hashX, ref);
      var holderKey := HolderKey(ref, hashX);
      ghost var undo0 := undoCache;
      RecordBoth(height, key, holderKey);
      BalancesKept(balanceCache, balanceDeletes, undo0, undoCache, key, holderKey);
      OnlyKinds(undo0, undoCache, BALANCE_KINDS);
      var current := CurrentBalance(key);
      SetBalance(height, key, if current + delta > 0 then current + delta else 0);
      SteadyUpdate(old(Now()), Now(), db, height, key);
      RecordedThere(undo0, undoCache, height, {key, holderKey}, key);
      forall hx, r | |hx| == HASHX_LEN && |r| == REF_LEN
        ensures BalanceKey(hx, r) == key <==> hx == hashX && r == ref
      {
        BalanceKeysDiffer(hx, r, hashX, ref);
      }
    }

    method CurrentBalance(key: Bytes) returns (current: nat)
      ensures current == View(balanceCache, balanceDeletes, db, key)
    {
      if key in balanceCache {
        return balanceCache[key];
      } else if key in balanceDeletes {
        return 0;
      }
      return if key in db && |db[key]| == 8 then FromLE(db[key]) else 0;
    }

    method SetBalance(height: nat, key: Bytes, newBalance: nat)
      requires balanceHeight.Keys == balanceCache.Keys && BalancesOk(balanceCache, balanceDeletes, undoCache)
      requires IsBalanceKey(key) && Recorded(undoCache, key) && Recorded(undoCache, Mirror(key)) && newBalance < Range(8)
      modifies `balanceCache, `balanceHeight, `balanceDeletes
      ensures balanceHeight.Keys == balanceCache.Keys && BalancesOk(balanceCache, balanceDeletes, undoCache)
      ensures forall k :: View(balanceCache, balanceDeletes, db, k)
                          == if k == key then newBalance else old(View(balanceCache, balanceDeletes, db, k))
    {
      hide Recorded, IsBalanceKey, Mirror, Range, FromLE;
      if newBalance > 0 {
        balanceCache := balanceCache[key := newBalance];
        balanceHeight := balanceHeight[key := height];
        balanceDeletes := balanceDeletes - {key};
      } else {
        balanceCache := balanceCache - {key};
        balanceHeight := balanceHeight - {key};
        balanceDeletes := balanceDeletes + {key};
      }
    }

    method RecordBoth(height: nat, key: Bytes, holderKey: Bytes)
      requires UndoOk() && Paired(undoCache) && dbHeight < height <= top && Height(height)
      requires IsBalanceKey(key) && holderKey == Mirror(key)
      modifies `undoCache
      ensures UndoOk() && Paired(undoCache) && GrownBy(old(undoCache), undoCache, BALANCE_KINDS)
      ensures RecordedMore(old(undoCache), undoCache, height, {key, holderKey})
      ensures forall k :: Recorded(undoCache, k) <==> old(Recorded(undoCache, k)) || k == key || k == holderKey
    {
      hide HasKey, Tracked, IsBalanceKey, Mirror, GoodUndo, At, Recorded, Paired, SmallValues;
      KeyOfBalance(key);
      ghost var undo0 := undoCache;
      RecordUndo(height, key);
      ghost var undo1 := undoCache;
      RecordUndo(height, holderKey);
      MoreTwice(undo0, undo1, undoCache, height, {key}, {holderKey});
      assert {key} + {holderKey} == {key, holderKey};
      RecordPair(undo0, undoCache, height, key);
      RecordedGrows(undo0, undoCache, height, {key, holderKey});
    }

    // ----- Flushing: the stages of the batch -----

    method PruneOldUndoKeys(batch0: Batch, height: int) returns (batch: Batch)
      requires -1 <= lastUndoPruned < floor
      modifies `lastUndoPruned, `floor
      ensures -1 <= lastUndoPruned < floor && old(floor) <= floor && old(lastUndoPruned) <= lastUndoPruned
      ensures floor == old(floor) || (reorgLimit > 0 && floor == height - reorgLimit + 1)
      ensures forall h: nat :: Height(h) && h >= floor ==> InBatch(batch, UndoKey(h)) == InBatch(batch0, UndoKey(h))
      ensures forall k :: InBatch(batch, k) == InBatch(batch0, k) || (IsUndoKey(k) && InBatch(batch, k) == Some(None))
      ensures SameOutside(batch0, batch, {88})
    {
      batch := batch0;
      if reorgLimit == 0 {
        return;
      }
      var minKeep := if height - reorgLimit + 1 > 0 then height - reorgLimit + 1 else 0;
      var pruneTo := minKeep - 1;
      if pruneTo <= lastUndoPruned {
        return;
      }
      hide UndoKey, Kind;
      var h := lastUndoPruned + 1;
      while h <= pruneTo
        invariant lastUndoPruned < h <= pruneTo + 1
        invariant forall k :: InBatch(batch, k) == InBatch(batch0, k)
                              || (IsUndoKey(k) && InBatch(batch, k) == Some(None)
                                  && exists g: nat :: g < h && k == UndoKey(g))
        decreases pruneTo - h
      {
        batch := batch[UndoKey(h) := None];
        h := h + 1;
      }
      lastUndoPruned := pruneTo;
      floor := if floor > minKeep then floor else minKeep;
      forall g: nat | Height(g) && g >= floor
        ensures InBatch(batch, UndoKey(g)) == InBatch(batch0, UndoKey(g))
      {
        if InBatch(batch, UndoKey(g)) != InBatch(batch0, UndoKey(g)) {
          var g': nat :| g' < h && UndoKey(g) == UndoKey(g');
          UndoKeysDiffer(g, g');
        }
      }
      forall k | Kind(k) !in {88}
        ensures InBatch(batch, k) == InBatch(batch0, k)
      {
        UndoKind(k);
      }
    }

    /** Records and puts every row. */
    method PutRows(batch0: Batch, rows: Table, height: nat) returns (batch: Batch)
      requires UndoOk() && dbHeight < height <= top && Height(height)
      requires forall k :: k in rows ==> Tracked(k) && |k| < 0x1_0000
      modifies `undoCache
      ensures UndoOk() && RecordedMore(old(undoCache), undoCache, height, rows.Keys)
      ensures batch == PutAll(batch0, rows)
    {
      hide HasKey, At, Tracked, GoodUndo, SmallValues;
      batch := batch0;
      var todo := rows.Keys;
      while todo != {}
        invariant todo <= rows.Keys && UndoOk()
        invariant RecordedMore(old(undoCache), undoCache, height, rows.Keys - todo)
        invariant batch == batch0 + map k | k in rows.Keys - todo :: Some(rows[k])
      {
        var k :| k in todo;
        ghost var undo0 := undoCache;
        RecordUndo(height, k);
        batch := batch[k := Some(rows[k])];
        MoreTwice(old(undoCache), undo0, undoCache, height, rows.Keys - todo, {k});
        assert rows.Keys - todo + {k} == rows.Keys - (todo - {k});
        todo := todo - {k};
      }
      assert rows.Keys - {} == rows.Keys;
    }

    method WriteDiscoveryRows(batch0: Batch, ref: Bytes, t: Token, height: nat) returns (batch: Batch)
      requires UndoOk() && dbHeight < height <= top && Height(height) && |ref| == REF_LEN
      modifies `undoCache
      ensures UndoOk() && RecordedMore(old(undoCache), undoCache, height, DiscoveryRows(ref, t).Keys)
      ensures batch == PutAll(batch0, DiscoveryRows(ref, t))
    {
      forall k | k in DiscoveryRows(ref, t)
        ensures Tracked(k) && |k| < 0x1_0000
      {
        DiscoveryKeyFacts(ref, t, k);
      }
      batch := PutRows(batch0, DiscoveryRows(ref, t), height);
    }

    method DeleteDiscoveryRows(batch0: Batch, ref: Bytes, t: Token, height: nat) returns (batch: Batch)
      requires UndoOk() && dbHeight < height <= top && Height(height) && |ref| == REF_LEN
      modifies `undoCache
      ensures UndoOk() && RecordedMore(old(undoCache), undoCache, height, DiscoveryRows(ref, t).Keys)
      ensures batch == DeleteAll(batch0, DiscoveryRows(ref, t).Keys)
    {
      hide HasKey, At, Tracked, GoodUndo, SmallValues, DiscoveryRows;
      batch := batch0;
      var keys := DiscoveryRows(ref, t).Keys;
      var todo := keys;
      while todo != {}
        invariant todo <= keys && UndoOk()
        invariant RecordedMore(old(undoCache), undoCache, height, keys - todo)
        invariant batch == batch0 + map k | k in keys - todo :: None
      {
        var k :| k in todo;
        DiscoveryKeyFacts(ref, t, k);
        ghost var undo0 := undoCache;
        RecordUndo(height, k);
        batch := batch[k := None];
        MoreTwice(old(undoCache), undo0, undoCache, height, keys - todo, {k});
        assert keys - todo + {k} == keys - (todo - {k});
        todo := todo - {k};
      }
      assert keys - {} == keys;
    }

    /** Puts a token with its index rows; the discovery rows of the stored token go first. */
    method FlushToken(batch0: Batch, ref: Bytes) returns (batch: Batch)
      requires UndoOk() && TokensOk() && ref in tokenCache
      modifies `undoCache
      ensures UndoOk()
      ensures RecordedMore(old(undoCache), undoCache, tokenHeight[ref], TokenKeys(cbor, db, ref, tokenCache[ref]))
      ensures batch == TokenBatch(cbor, db, batch0, ref, tokenCache[ref])
    {
      hide HasKey, At, Tracked, GoodUndo, SmallValues, DiscoveryRows, RecordedMore, UndoOk, Cbor.RowsOf, TokenPuts;
      var t, height, key := tokenCache[ref], tokenHeight[ref], TokenKey(ref);
      ghost var rows := cbor.RowsOf(db, ref);
      batch := batch0;
      ghost var undo0 := undoCache;
      StoredRows(cbor, db, ref);
      MoreNone(undoCache, height);
      assert rows == map[] ==> rows.Keys == {};
      if key in db {
        match cbor.loads(db[key]) {
          case Some(prev) => batch := DeleteDiscoveryRows(batch, ref, prev, height);
          case None =>
        }
      }
      DeleteNone(batch0);
      assert batch == DeleteAll(batch0, rows.Keys);
      ghost var undo1 := undoCache;
      batch := PutToken(batch, ref);
      MoreTwice(undo0, undo1, undoCache, height, rows.Keys, TokenPuts(cbor, ref, t).Keys);
    }

    method PutToken(batch0: Batch, ref: Bytes) returns (batch: Batch)
      requires UndoOk() && TokensOk() && ref in tokenCache
      modifies `undoCache
      ensures UndoOk()
      ensures RecordedMore(old(undoCache), undoCache, tokenHeight[ref], TokenPuts(cbor, ref, tokenCache[ref]).Keys)
      ensures batch == PutAll(batch0, TokenPuts(cbor, ref, tokenCache[ref]))
    {
      hide HasKey, At, Tracked, GoodUndo, SmallValues, DiscoveryRows, NameRows, TickerRows, RecordedMore, UndoOk, PutAll;
      var t, height := tokenCache[ref], tokenHeight[ref];
      forall k | k in TokenPuts(cbor, ref, t)
        ensures Tracked(k) && |k| < 0x1_0000
      {
        TokenPutsFacts(cbor, ref, t, k);
      }
      ghost var undo0, keys := undoCache, TokenPuts(cbor, ref, t).Keys;
      var r1, r2 := map[TokenKey(ref) := cbor.dumps(t)], map[TypeKey(ref, t) := []];
      batch := PutRows(batch0, r1, height);
      ghost var undo1 := undoCache;
      batch := PutRows(batch, r2, height);
      ghost var undo2 := undoCache;
      batch := WriteDiscoveryRows(batch, ref, t, height);
      ghost var undo3 := undoCache;
      batch := PutRows(batch, NameRows(ref, t), height);
      ghost var undo4 := undoCache;
      batch := PutRows(batch, TickerRows(ref, t), height);
      FiveTimes(batch0, r1, r2, DiscoveryRows(ref, t), NameRows(ref, t), TickerRows(ref, t));
      MoreTwice(undo0, undo1, undo2, height, r1.Keys, r2.Keys);
      MoreTwice(undo0, undo2, undo3, height, r1.Keys + r2.Keys, DiscoveryRows(ref, t).Keys);
      MoreTwice(undo0, undo3, undo4, height, r1.Keys + r2.Keys + DiscoveryRows(ref, t).Keys, NameRows(ref, t).Keys);
      MoreTwice(undo0, undo4, undoCache, height,
        r1.Keys + r2.Keys + DiscoveryRows(ref, t).Keys + NameRows(ref, t).Keys, TickerRows(ref, t).Keys);
      assert keys == r1.Keys + r2.Keys + DiscoveryRows(ref, t).Keys + NameRows(ref, t).Keys + TickerRows(ref, t).Keys;
    }

    method FlushTokens(batch0: Batch) returns (batch: Batch)
      requires UndoOk() && TokensOk() && Paired(undoCache) && cbor.Derived(db)
      requires Covered(batch0, undoCache)
      requires forall k :: k in batch0 ==> Kind(k) == 88
      requires forall h: nat, k :: At(undoCache, h, k) ==> Kind(k) in BALANCE_KINDS
      modifies `undoCache
      ensures UndoOk() && Paired(undoCache) && Covered(batch, undoCache)
      ensures SameOutside(batch0, batch, TOKEN_KINDS) && GrownBy(old(undoCache), undoCache, TOKEN_KINDS)
      ensures TokensIn(cbor, db, batch, undoCache, tokenCache, tokenHeight, tokenCache.Keys)
    {
      hide HasKey, At, Tracked, GoodUndo, SmallValues, RecordedMore, UndoOk, Cbor.RowsOf, Paired, GrownBy, SameOutside,
        Covered, TokensIn, Cbor.Derived, TokenKeys, TokenBatch;
      batch := batch0;
      var todo := tokenCache.Keys;
      ghost var undo0 := undoCache;
      NoTokensYet(cbor, db, batch0, undoCache, tokenCache, tokenHeight);
      NothingGrown(batch0, undoCache);
      while todo != {}
        invariant todo <= tokenCache.Keys && UndoOk() && Covered(batch, undoCache)
        invariant SameOutside(batch0, batch, TOKEN_KINDS) && GrownBy(undo0, undoCache, TOKEN_KINDS)
        invariant TokensIn(cbor, db, batch, undoCache, tokenCache, tokenHeight, tokenCache.Keys - todo)
      {
        var ref :| ref in todo;
        ghost var undo1, batch1 := undoCache, batch;
        batch := FlushToken(batch, ref);
        TokenStep(cbor, db, batch1, undo1, undoCache, tokenCache, tokenHeight, tokenCache.Keys - todo, ref);
        TokenStageStep(cbor, db, batch0, batch1, undo0, undo1, undoCache, tokenHeight[ref], ref, tokenCache[ref]);
        assert tokenCache.Keys - todo + {ref} == tokenCache.Keys - (todo - {ref});
        todo := todo - {ref};
      }
      assert tokenCache.Keys - {} == tokenCache.Keys;
      PairedOutside(undo0, undoCache, TOKEN_KINDS);
    }

    method FlushBalances(batch0: Batch) returns (batch: Batch)
      requires balanceHeight.Keys == balanceCache.Keys && BalancesOk(balanceCache, balanceDeletes, undoCache)
      requires Covered(batch0, undoCache) && forall k :: Kind(k) in BALANCE_KINDS ==> k !in batch0
      ensures Covered(batch, undoCache) && SameOutside(batch0, batch, BALANCE_KINDS)
      ensures BalancesIn(batch, balanceCache, {})
    {
      hide IsBalanceKey, Mirror, Recorded, Tracked, Range, LE, Kind;
      batch := batch0;
      var todo := balanceCache.Keys;
      NoBalancesYet(batch0);
      while todo != {}
        invariant todo <= balanceCache.Keys && Covered(batch, undoCache) && SameOutside(batch0, batch, BALANCE_KINDS)
        invariant forall k :: IsBalanceKey(k) ==>
                    && InBatch(batch, k) == (if k in todo then None else Planned(balanceCache, {}, k))
                    && InBatch(batch, Mirror(k)) == (if k in todo then None else Planned(balanceCache, {}, k))
      {
        var key :| key in todo;
        todo := todo - {key};
        KeyOfBalance(key);
        var packed := LE(balanceCache[key], 8);
        ghost var before := batch;
        batch := batch[key := Some(packed)];
        batch := batch[Mirror(key) := Some(packed)];
        forall k | IsBalanceKey(k)
          ensures k != Mirror(key) && Mirror(k) != key && (Mirror(k) == Mirror(key) <==> k == key)
        {
          KeyOfBalance(k);
          MirrorsDiffer(k, key);
        }
      }
    }

    /** A hashX always maps to the same script: no undo is needed. */
    method FlushOwners(batch0: Batch) returns (batch: Batch)
      ensures SameOutside(batch0, batch, {79}) && OwnersIn(batch, ownerCache)
    {
      batch := batch0;
      var todo := ownerCache.Keys;
      while todo != {}
        invariant todo <= ownerCache.Keys && SameOutside(batch0, batch, {79})
        invariant forall hx :: hx in ownerCache && hx !in todo ==> InBatch(batch, OWNER + hx) == Some(Some(ownerCache[hx]))
      {
        var hx :| hx in todo;
        todo := todo - {hx};
        batch := batch[OWNER + hx := Some(ownerCache[hx])];
        forall h | OWNER + h == OWNER + hx
          ensures h == hx
        {
          assert (OWNER + h)[2..] == h && (OWNER + hx)[2..] == hx;
        }
      }
    }

    method FlushDeletes(batch0: Batch, height: nat) returns (batch: Batch)
      requires UndoOk() && Paired(undoCache) && dbHeight < height <= top && Height(height)
      requires balanceHeight.Keys == balanceCache.Keys && BalancesOk(balanceCache, balanceDeletes, undoCache)
      requires Covered(batch0, undoCache) && BalancesIn(batch0, balanceCache, {})
      modifies `undoCache
      ensures UndoOk() && Paired(undoCache) && BalancesOk(balanceCache, balanceDeletes, undoCache)
      ensures Covered(batch, undoCache) && BalancesIn(batch, balanceCache, balanceDeletes)
      ensures SameOutside(batch0, batch, BALANCE_KINDS) && GrownBy(old(undoCache), undoCache, BALANCE_KINDS)
      ensures DeletesRecorded(old(undoCache), undoCache, height, balanceDeletes)
    {
      hide HasKey, At, Tracked, GoodUndo, SmallValues, IsBalanceKey, Mirror, Recorded, UndoOk, Paired, GrownBy, BalancesOk,
        BalancesIn, Covered, SameOutside, DeletesRecorded, RecordedMore;
      batch := batch0;
      var todo := balanceDeletes;
      NothingDone(batch0, undoCache, BALANCE_KINDS);
      NoneDeleted(undoCache, height);
      assert balanceDeletes - todo == {};
      while todo != {}
        invariant todo <= balanceDeletes && UndoOk() && Paired(undoCache)
        invariant BalancesOk(balanceCache, balanceDeletes, undoCache) && Covered(batch, undoCache)
        invariant BalancesIn(batch, balanceCache, balanceDeletes - todo)
        invariant DeletesRecorded(old(undoCache), undoCache, height, balanceDeletes - todo)
        invariant SameOutside(batch0, batch, BALANCE_KINDS) && GrownBy(old(undoCache), undoCache, BALANCE_KINDS)
      {
        var key :| key in todo;
        DeletedKey(balanceCache, balanceDeletes, undoCache, key);
        ghost var undo1 := undoCache;
        var holderKey := HolderKey(key[2 + HASHX_LEN..], key[2..2 + HASHX_LEN]);
        assert holderKey == Mirror(key) by {
          MirrorIs(key);
        }
        // A key marked for deletion has no height of its own: the height committed stands for it.
        assert key !in balanceHeight;
        RecordBoth(height, key, holderKey);
        BalancesKept(balanceCache, balanceDeletes, undo1, undoCache, key, holderKey);
        GrownCovers(batch, undo1, undoCache, BALANCE_KINDS);
        GrownTwice(old(undoCache), undo1, undoCache, BALANCE_KINDS, BALANCE_KINDS);
        assert BALANCE_KINDS + BALANCE_KINDS == BALANCE_KINDS;
        DeleteStep(batch0, batch, undoCache, balanceCache, balanceDeletes - todo, key);
        DeletesRecordedStep(old(undoCache), undo1, undoCache, height, balanceDeletes - todo, key);
        assert balanceDeletes - todo + {key} == balanceDeletes - (todo - {key});
        batch := batch[key := None][holderKey := None];
        todo := todo - {key};
      }
      assert balanceDeletes - {} == balanceDeletes;
    }

    method FlushOthers(batch0: Batch) returns (batch: Batch)
      requires UndoOk() && Paired(undoCache) && PendingOk() && Covered(batch0, undoCache) && OthersIn(batch0, [])
      modifies `undoCache
      ensures UndoOk() && Paired(undoCache) && Covered(batch, undoCache) && OthersIn(batch, pending)
      ensures SameOutside(batch0, batch, OTHER_KINDS) && GrownBy(old(undoCache), undoCache, OTHER_KINDS)
    {
      hide HasKey, At, Tracked, GoodUndo, SmallValues, Recorded, UndoOk, Paired, GrownBy, Covered, SameOutside, RecordedMore, Kind,
        OthersIn;
      batch := batch0;
      NothingDone(batch0, undoCache, OTHER_KINDS);
      assert pending[..0] == [];
      for i := 0 to |pending|
        invariant UndoOk() && Covered(batch, undoCache) && OthersIn(batch, pending[..i])
        invariant SameOutside(batch0, batch, OTHER_KINDS) && GrownBy(old(undoCache), undoCache, OTHER_KINDS)
      {
        var w := pending[i];
        ghost var undo1 := undoCache;
        OtherTracked(w.key);
        RecordUndo(w.height, w.key);
        GrownMore(old(undoCache), undo1, undoCache, w.height, {w.key}, OTHER_KINDS);
        PutStep(batch0, batch, undo1, undoCache, w.height, w.key, w.value);
        OthersStep(batch, pending[..i], w);
        assert pending[..i + 1] == pending[..i] + [w];
        batch := batch[w.key := Some(w.value)];
      }
      assert pending[..|pending|] == pending;
      PairedOutside(old(undoCache), undoCache, OTHER_KINDS);
    }

    method FlushUndo(batch0: Batch) returns (batch: Batch)
      requires UndoOk()
      ensures SameOutside(batch0, batch, {88}) && forall k :: !IsUndoKey(k) ==> InBatch(batch, k) == InBatch(batch0, k)
      ensures forall h: nat :: Height(h) ==>
                InBatch(batch, UndoKey(h)) == if h in undoCache then Some(Some(Encode(undoCache[h]))) else InBatch(batch0, UndoKey(h))
    {
      hide HasKey, GoodEntries, SmallValues, Encode, UndoKey, SavedFrom, Kind;
      batch := batch0;
      var todo := undoCache.Keys;
      while todo != {}
        invariant todo <= undoCache.Keys && SameOutside(batch0, batch, {88})
        invariant forall k :: !IsUndoKey(k) ==> InBatch(batch, k) == InBatch(batch0, k)
        invariant forall h: nat :: Height(h) ==>
                    InBatch(batch, UndoKey(h)) == if h in undoCache && h !in todo then Some(Some(Encode(undoCache[h])))
                                                  else InBatch(batch0, UndoKey(h))
      {
        var h :| h in todo;
        todo := todo - {h};
        GoodAt(undoCache, db, dbHeight, top, h);
        PackableAll(undoCache[h]);
        var raw := EncodeUndo(undoCache[h]);
        UndoKind(UndoKey(h));
        batch := batch[UndoKey(h) := Some(raw.value)];
        forall g: nat | Height(g)
          ensures UndoKey(g) == UndoKey(h) <==> g == h
        {
          if g != h {
            UndoKeysDiffer(g, h);
          }
        }
      }
    }

    /** The batch of a flush at `height`, and the undo entries recorded up to then. */
    method BuildBatch(height: nat) returns (batch: Batch)
      requires UndoOk() && CachesOk() && cbor.Derived(db) && -1 <= lastUndoPruned < floor
      requires dbHeight < height <= top && Height(height)
      modifies `undoCache, `lastUndoPruned, `floor
      ensures UndoOk() && Paired(undoCache) && Covered(batch, undoCache)
      ensures TokensIn(cbor, db, batch, undoCache, tokenCache, tokenHeight, tokenCache.Keys)
      ensures BalancesOk(balanceCache, balanceDeletes, undoCache) && BalancesIn(batch, balanceCache, balanceDeletes)
      ensures UndoRowsIn(batch, undoCache, floor) && OthersIn(batch, pending) && OwnersIn(batch, ownerCache)
      ensures DeletesRecorded(old(undoCache), undoCache, height, balanceDeletes)
      ensures -1 <= lastUndoPruned < floor && old(floor) <= floor
      ensures floor == old(floor) || (reorgLimit > 0 && floor == height - reorgLimit + 1)
    {
      hide HasKey, Tracked, GoodUndo, SmallValues, Recorded, Paired, GrownBy, Covered, SameOutside, Kind, UndoKey,
        BalancesOk, BalancesIn, TokensIn, Encode, TokensOk, PendingOk, OthersIn, OwnersIn, At, Cbor.Derived, Cbor.Usable,
        UndoRowsIn, IsUndoKey, DeletesRecorded;
      ghost var undo0 := undoCache;
      var b1 := PruneOldUndoKeys(map[], height);
      OnlyUndoKeys(b1, undo0);
      var b2 := FlushTokens(b1);
      ghost var undo2 := undoCache;
      NoBalanceRows(b1, b2);
      BalancesGrown(balanceCache, balanceDeletes, undo0, undo2, TOKEN_KINDS);
      var b3 := FlushBalances(b2);
      var b4 := FlushOwners(b3);
      OwnersUntracked(b3, b4);
      CoveredOutside(b3, b4, undo2);
      BalancesFrame(b3, b4, balanceCache, {}, {79});
      var b5 := FlushDeletes(b4, height);
      ghost var undo5 := undoCache;
      NoOthers(b1, b2, b3, b4, b5);
      var b6 := FlushOthers(b5);
      BalancesGrown(balanceCache, balanceDeletes, undo5, undoCache, OTHER_KINDS);
      batch := FlushUndo(b6);
      UntrackedUndo(b6, batch);
      CoveredOutside(b6, batch, undoCache);
      BalancesFrame(b5, b6, balanceCache, balanceDeletes, OTHER_KINDS);
      BalancesFrame(b6, batch, balanceCache, balanceDeletes, {88});
      OthersOwnersFrame(b4, b5, b6, batch, pending, ownerCache);
      OutsideStages(b1, b2, b3, b4, b5, b6, batch);
      UndoRowsBuilt(b1, b6, batch, undoCache, floor);
      DeletesRecordedFrame(undo0, undo2, undo5, undoCache, height, balanceDeletes);
      GrownTwice(undo2, undo5, undoCache, BALANCE_KINDS, OTHER_KINDS);
      GrownWider(undo2, undoCache, BALANCE_KINDS + OTHER_KINDS, BALANCE_KINDS + OTHER_KINDS + {79, 88});
      TokensFrame(cbor, db, b2, batch, undo2, undoCache, tokenCache, tokenHeight, tokenCache.Keys,
        BALANCE_KINDS + OTHER_KINDS + {79, 88});
    }

    /** Commits the window of blocks up to `height` in one batch.  Balances do not change by
        it; the tables as they are then can be unwound to, as those of earlier windows. */
    method Flush(height: nat)
      requires Valid() && dbHeight < height && top <= height && Height(height)
      modifies this
      ensures Valid() && CachesEmpty() && dbHeight == height && top == height
      ensures marks == old(marks)[height := db] && old(floor) <= floor
      ensures floor == old(floor) || (reorgLimit > 0 && floor == height - reorgLimit + 1)
      ensures forall hx, r :: |hx| == HASHX_LEN && |r| == REF_LEN ==> Balance(hx, r) == old(Balance(hx, r))
      ensures forall ref :: old(Known(ref)) ==> Known(ref)
      ensures forall ref :: ref in old(tokenCache) ==> Get(db, TokenKey(ref)) == Some(cbor.dumps(old(tokenCache)[ref]))
      ensures RowsWritten(old(db), db, old(pending), old(ownerCache))
      ensures WindowBalances(old(db), db, old(Now()), old(dbHeight), height)
      ensures UnwindsAlike(old(db), old(dbHeight), db, height, floor)
    {
      hide HasKey, UnwindsAlike, WindowBalances, DeletesRecorded, Tracked, GoodUndo, SmallValues, Recorded, Paired, Covered, Kind, Range, OthersIn, OwnersIn, RowsWritten,
        BalancesOk, BalancesIn, TokensIn, UndoRowsIn, DbOk, Stored, BalanceKey, IsBalanceKey, TokenKey, Commit;
      DbParts(cbor, db, dbHeight, floor, marks);
      TopGrows(undoCache, db, dbHeight, top, height);
      ghost var floor0 := floor;
      top := height;
      var batch := BuildBatch(height);
      FlushLeaves(cbor, db, batch, old(Now()), undoCache, dbHeight, height, floor0, floor, marks, tokenCache, tokenHeight);
      forall hx, r | |hx| == HASHX_LEN && |r| == REF_LEN
        ensures IsBalanceKey(BalanceKey(hx, r))
      {
        BalanceKeyFacts(hx, r);
      }
      KnownAfter(cbor, db, batch, undoCache, tokenCache, tokenHeight);
      RowsCommitted(db, batch, pending, ownerCache);
      Committed(Commit(db, batch), height);
    }

    /** The batch is written and the caches are cleared. */
    method Committed(db': Table, height: nat)
      requires DbOk(cbor, db', height, floor, marks[height := db']) && -1 <= lastUndoPruned < floor
      modifies this
      ensures Valid() && CachesEmpty() && db == db' && dbHeight == height == top
      ensures marks == old(marks)[height := db] && floor == old(floor)
    {
      hide DbOk, GoodUndo, Paired, BalancesOk, SmallValues, At, Kind, TokenKey, Cbor.Usable, Cbor.Derived;
      DbParts(cbor, db', height, floor, marks[height := db']);
      NothingCached(db', height);
      ClearCaches();
      db := db';
      dbHeight, top := height, height;
      marks := marks[height := db'];
    }

    method ClearCaches()
      modifies `tokenCache, `tokenHeight, `balanceCache, `balanceHeight, `balanceDeletes, `ownerCache, `pending,
        `undoCache, `knownRefs
      ensures CachesEmpty() && knownRefs == {}
    {
      undoCache := map[];
      tokenCache, tokenHeight := map[], map[];
      balanceCache, balanceHeight, balanceDeletes := map[], map[], {};
      ownerCache, pending, knownRefs := map[], [], {};
    }

    // ----- Backing up -----

    /** Reverts the keys written at the last height, from its undo row. */
    method Backup(height: nat)
      requires Valid() && CachesEmpty() && height == dbHeight && Height(height) && floor <= height
      modifies this
      ensures Valid() && CachesEmpty() && dbHeight == top == height - 1 && db == BackedUp(old(db), height)
      ensures floor == old(floor) && marks == MarksBelow(old(marks), height)
      ensures dbHeight in marks ==> SameTracked(db, marks[dbHeight])
    {
      hide Valid, Cbor.Derived, Cbor.Usable, SmallValues, GoodUndo, Paired, BalancesOk, At, Tracked;
      var db' := Reverted(height);
      KeepsFloor();
      BackupLeaves(cbor, db, height, floor, marks);
      knownRefs := {};
      db := db';
      dbHeight, top := height - 1, height - 1;
      marks := MarksBelow(marks, height);
      EmptyIsValid();
    }

    method Reverted(height: nat) returns (r: Table)
      ensures r == BackedUp(db, height)
    {
      hide Restore, Decode, Commit;
      var key := UndoKey(height);
      if key !in db || db[key] == [] {
        return db;
      }
      var entries := DecodeUndo(db[key]);
      var batch: Batch := map[];
      NoBatch(db);
      for i := 0 to |entries|
        invariant Restore(Commit(db, batch), entries[i..]) == Restore(db, entries)
      {
        RestoreStep(Commit(db, batch), entries[i..]);
        CommitSet(db, batch, entries[i].key, entries[i].prev);
        assert entries[i..][1..] == entries[i + 1..];
        if entries[i].prev.None? {
          batch := batch[entries[i].key := None];
        } else {
          batch := batch[entries[i].key := entries[i].prev];
        }
      }
      RestoreDone(Commit(db, batch), entries[|entries|..]);
      CommitSet(db, batch, key, None);
      batch := batch[key := None];
      return Commit(db, batch);
    }

    lemma KeepsFloor()
      requires Valid()
      ensures -1 <= lastUndoPruned < floor && DbOk(cbor, db, dbHeight, floor, marks)
    {
    }

    lemma EmptyIsValid()
      requires CachesEmpty() && knownRefs == {} && top == dbHeight
      requires DbOk(cbor, db, dbHeight, floor, marks) && -1 <= lastUndoPruned < floor
      ensures Valid()
    {
      hide DbOk, GoodUndo, Paired, BalancesOk, SmallValues, At, Kind, TokenKey, Cbor.Usable, Cbor.Derived;
      DbParts(cbor, db, dbHeight, floor, marks);
      NothingCached(db, dbHeight);
    }

    /** The reorganisation loop: back up height by height.  At a height where a window ended,
        the tables are back as they were then. */
    method BackupTo(to: int)
      requires Valid() && CachesEmpty() && -1 <= to <= dbHeight && Height(dbHeight) && floor - 1 <= to
      modifies this
      ensures Valid() && CachesEmpty() && dbHeight == to && db == Unwind(old(db), old(dbHeight), to)
      ensures to in old(marks) ==> SameTracked(db, old(marks)[to])
      ensures to in old(marks) ==> forall hx, r :: |hx| == HASHX_LEN && |r| == REF_LEN ==>
                Balance(hx, r) == Stored(old(marks)[to], BalanceKey(hx, r))
    {
      hide Valid, SameTracked, BackedUp;
      SameAtTop();
      while dbHeight > to
        invariant Valid() && CachesEmpty() && to <= dbHeight <= old(dbHeight) && floor == old(floor)
        invariant forall b :: b in old(marks) && b <= dbHeight ==> b in marks && marks[b] == old(marks)[b]
        invariant dbHeight in marks ==> SameTracked(db, marks[dbHeight])
        invariant Unwind(db, dbHeight, to) == Unwind(old(db), old(dbHeight), to)
        decreases dbHeight
      {
        Backup(dbHeight);
      }
      if to in old(marks) {
        BalancesBack(db, marks[to]);
      }
    }

    lemma SameAtTop()
      requires Valid() && floor - 1 <= dbHeight
      ensures dbHeight in marks ==> SameTracked(db, marks[dbHeight])
    {
      hide SameTracked, Sound, SmallValues, UndoRowsOk, SoundBelow, GoodUndo, Paired, BalancesOk;
      if dbHeight in marks {
        UnwindNone(db, dbHeight);
        assert SameTracked(Unwind(db, dbHeight, dbHeight), marks[dbHeight]);
      }
    }

    // ----- The height-blind query -----

    /** `get_balance` looks at the cache and the database, not at the pending deletes: it is
        out of date exactly for a stored balance that is waiting to be deleted. */
    method GetBalance(hashX: Bytes, ref: Bytes) returns (n: nat)
      requires Valid() && |hashX| == HASHX_LEN && |ref| == REF_LEN
      ensures n == Balance(hashX, ref) <==>
                !(BalanceKey(hashX, ref) in balanceDeletes && BalanceKey(hashX, ref) in db)
      ensures BalanceKey(hashX, ref) in balanceDeletes ==> n == Stored(db, BalanceKey(hashX, ref))
    {
      hide SmallValues, GoodUndo, Paired, TokensOk, PendingOk, SoundBelow, Unwinds, UndoRowsOk, Cbor.Derived, FromLE, Mirrored;
      BalanceKeyFacts(hashX, ref);
      var key := BalanceKey(hashX, ref);
      assert key in db ==> IsAmount(db[key]);
      if key in balanceCache {
        return balanceCache[key];
      }
      if key in db {
        return FromLE(db[key]);
      }
      return 0;
    }

    // ----- Tokens -----

    method StoreToken(ref: Bytes, t: Token, height: nat)
      requires Valid() && GoodToken(cbor, ref, t) && dbHeight < height <= top && Height(height)
      modifies `tokenCache, `tokenHeight
      ensures Valid() && tokenCache == old(tokenCache)[ref := t] && tokenHeight == old(tokenHeight)[ref := height]
    {
      hide DbOk, GoodUndo, SmallValues, Paired, BalancesOk, At, Kind, TokenKey, GoodToken, GoodWrite;
      tokenCache := tokenCache[ref := t];
      tokenHeight := tokenHeight[ref := height];
    }

    method IsKnownToken(ref: Bytes) returns (known: bool)
      requires Valid()
      modifies `knownRefs
      ensures Valid() && known == Known(ref)
    {
      hide DbOk, GoodUndo, SmallValues, Paired, BalancesOk, At, Kind, TokenKey, TokensOk, PendingOk;
      if ref in knownRefs {
        return true;
      }
      if ref in tokenCache {
        knownRefs := knownRefs + {ref};
        return true;
      }
      if TokenKey(ref) in db {
        knownRefs := knownRefs + {ref};
        return true;
      }
      return false;
    }

    lemma RecordFits(height: nat, singleton: bool)
      requires Valid() && Height(height)
      ensures |cbor.dumps(NewToken(height, singleton))| < SENTINEL
    {
      hide GoodUndo, SmallValues, Paired, BalancesOk, TokensOk, PendingOk, Sound, SoundBelow, Unwinds, UndoRowsOk;
    }

    method AddPending(w: Write)
      requires Valid() && GoodWrite(w) && dbHeight < w.height <= top
      modifies `pending
      ensures Valid() && pending == old(pending) + [w]
    {
      hide DbOk, GoodUndo, SmallValues, Paired, BalancesOk, At, Kind, TokenKey, TokensOk, GoodWrite;
      pending := pending + [w];
    }

    /** The first phase of processing a transaction: refs of its outputs that are not known yet
        are registered, so that the balances credited afterwards are tracked. */
    method RegisterRefs(refs: seq<(Bytes, bool)>, height: nat, txHash: Bytes, txIdx: nat)
      requires Valid() && dbHeight < height <= top && Height(height) && |txHash| == 32 && txIdx < 0x1_0000
      requires forall i :: 0 <= i < |refs| ==> |refs[i].0| == REF_LEN
      modifies `tokenCache, `tokenHeight, `knownRefs, `pending
      ensures Valid() && forall i :: 0 <= i < |refs| ==> Known(refs[i].0)
      ensures forall ref :: old(Known(ref)) ==> Known(ref)
    {
      hide Valid, TokenKey;
      for i := 0 to |refs|
        invariant Valid() && forall j :: 0 <= j < i ==> Known(refs[j].0)
        invariant forall ref :: old(Known(ref)) ==> Known(ref)
      {
        var known := IsKnownToken(refs[i].0);
        if !known {
          RecordFits(height, refs[i].1);
          StoreToken(refs[i].0, NewToken(height, refs[i].1), height);
          known := IsKnownToken(refs[i].0);
          var w := Write(height, HistoryKey(refs[i].0, height, txIdx), [DEPLOY] + txHash);
          assert GoodWrite(w);
          AddPending(w);
        }
      }
    }

    // ----- The ledger -----

    /** Each balance is the sum of the values of the live outputs of the hashX with the ref. */
    ghost predicate Ledger(live: Live)
      reads `balanceCache, `balanceDeletes, `db
    {
      forall hx, r :: |hx| == HASHX_LEN && |r| == REF_LEN ==> Balance(hx, r) == Total(live, hx, r)
    }

    /** While the refs of an output are being debited or credited: those in `left` still count
        towards the balances with `value`. */
    ghost predicate LedgerWith(live: Live, hashX: Bytes, value: int, left: seq<Bytes>)
      reads `balanceCache, `balanceDeletes, `db
    {
      forall hx, r :: |hx| == HASHX_LEN && |r| == REF_LEN ==>
        Balance(hx, r) == Total(live, hx, r) + if hx == hashX && r in left then value else 0
    }

    /** Settles one ref.  The balance stays at or above zero without being cut off. */
    method Settle(height: nat, hashX: Bytes, ref: Bytes, v: int, ghost live: Live, ghost left: seq<Bytes>)
      requires Valid() && dbHeight < height <= top && Height(height) && |hashX| == HASHX_LEN
      requires LedgerWith(live, hashX, v, left) && GoodRefs(left) && left != [] && left[0] == ref
      requires Total(live, hashX, ref) < Range(8)
      modifies `undoCache, `balanceCache, `balanceHeight, `balanceDeletes
      ensures Valid() && LedgerWith(live, hashX, v, left[1..]) && GoodRefs(left[1..])
      ensures Steady(old(Now()), Now(), db, height)
    {
      hide Valid, Range, View, BalanceKey, Steady;
      assert ref in left && ref !in left[1..];
      assert forall r :: r in left <==> r == ref || r in left[1..];
      UpdateBalance(height, hashX, ref, -v);
    }

    /** Settles a known ref, as the loops over refs do. */
    method SettleIfKnown(height: nat, hashX: Bytes, ref: Bytes, v: int, ghost live: Live, ghost left: seq<Bytes>)
      requires Valid() && dbHeight < height <= top && Height(height) && |hashX| == HASHX_LEN
      requires LedgerWith(live, hashX, v, left) && GoodRefs(left) && left != [] && left[0] == ref && Known(ref)
      requires Total(live, hashX, ref) < Range(8)
      modifies `undoCache, `balanceCache, `balanceHeight, `balanceDeletes, `knownRefs
      ensures Valid() && LedgerWith(live, hashX, v, left[1..]) && GoodRefs(left[1..])
      ensures Steady(old(Now()), Now(), db, height)
    {
      hide Valid, Range, View, BalanceKey, LedgerWith, GoodRefs, Steady;
      var known := IsKnownToken(ref);
      if known {
        Settle(height, hashX, ref, v, live, left);
      }
    }

    /** Debits one spent input, for each of its refs. */
    method DebitInput(height: nat, d: Debit, ghost live: Live, ghost o: Utxos.Outpoint)
      requires Valid() && dbHeight < height <= top && Height(height)
      requires Ledger(live) && o in live && live[o] == d.Held() && |d.hashX| == HASHX_LEN
      requires GoodRefs(RefsIn(d.refsData)) && forall r :: r in RefsIn(d.refsData) ==> Known(r)
      requires Bounded(live - {o})
      modifies `undoCache, `balanceCache, `balanceHeight, `balanceDeletes, `knownRefs
      ensures Valid() && Ledger(live - {o}) && Steady(old(Now()), Now(), db, height)
    {
      hide Valid, Range, View, BalanceKey, Known, GoodRefs, RefsIn, LedgerWith, Steady;
      SteadySame(Now(), db, height);
      ghost var rest := live - {o};
      ghost var left := RefsIn(d.refsData);
      StartDebit(live, o, d);
      var i := 0;
      assert d.refsData[0..] == d.refsData;
      while i < |d.refsData|
        invariant 0 <= i && Valid() && left == RefsIn(Drop(d.refsData, i)) && GoodRefs(left)
        invariant LedgerWith(rest, d.hashX, d.value, left) && Steady(old(Now()), Now(), db, height)
        invariant forall r :: r in left ==> Known(r)
        decreases |d.refsData| - i
      {
        var ref := Take(Drop(d.refsData, i), REF_LEN);
        RefsStep(d.refsData, i);
        i := i + REF_ENTRY_SIZE;
        if |ref| == REF_LEN {
          ghost var before := Now();
          SettleIfKnown(height, d.hashX, ref, d.value, rest, left);
          SteadyTwice(old(Now()), before, Now(), db, height);
          left := left[1..];
        }
      }
      NoRefs(Drop(d.refsData, i));
      AllSettled(rest, d.hashX, d.value);
    }

    lemma StartDebit(live: Live, o: Utxos.Outpoint, d: Debit)
      requires Ledger(live) && o in live && live[o] == d.Held()
      ensures LedgerWith(live - {o}, d.hashX, d.value, RefsIn(d.refsData))
    {
      hide View, BalanceKey;
      forall hx, r
        ensures Total(live, hx, r) == Total(live - {o}, hx, r) + if hx == d.hashX && r in RefsIn(d.refsData) then d.value else 0
      {
        TotalWithout(live, o, hx, r);
      }
    }

    lemma AllSettled(live: Live, hashX: Bytes, v: int)
      requires LedgerWith(live, hashX, v, [])
      ensures Ledger(live)
    {
      hide View, BalanceKey;
    }

    /** Credits one new output, for each of its refs. */
    method CreditOutput(height: nat, c: Credit, ghost live: Live, ghost o: Utxos.Outpoint)
      requires Valid() && dbHeight < height <= top && Height(height)
      requires Ledger(live) && o !in live && |c.hashX| == HASHX_LEN
      requires GoodRefs(c.refs) && forall r :: r in c.refs ==> Known(r)
      requires Bounded(live[o := c.Held()])
      modifies `undoCache, `balanceCache, `balanceHeight, `balanceDeletes, `knownRefs, `ownerCache
      ensures Valid() && Ledger(live[o := c.Held()]) && Steady(old(Now()), Now(), db, height)
    {
      hide Valid, Range, View, BalanceKey, Known, GoodRefs, LedgerWith, Steady;
      SteadySame(Now(), db, height);
      ghost var after := live[o := c.Held()];
      StartCredit(live, o, c);
      assert c.refs[0..] == c.refs;
      for i := 0 to |c.refs|
        invariant Valid() && LedgerWith(after, c.hashX, 0 - c.value, c.refs[i..]) && GoodRefs(c.refs[i..])
        invariant forall r :: r in c.refs ==> Known(r)
        invariant Steady(old(Now()), Now(), db, height)
      {
        assert c.refs[i..][1..] == c.refs[i + 1..];
        ghost var before := Now();
        SettleIfKnown(height, c.hashX, c.refs[i], 0 - c.value, after, c.refs[i..]);
        SteadyTwice(old(Now()), before, Now(), db, height);
      }
      assert c.refs[|c.refs|..] == [];
      AllSettled(after, c.hashX, 0 - c.value);
      if c.refs != [] && c.baseScript != [] && c.hashX !in ownerCache {
        Own(c.hashX, c.baseScript);
      }
    }

    lemma StartCredit(live: Live, o: Utxos.Outpoint, c: Credit)
      requires Ledger(live) && o !in live
      ensures LedgerWith(live[o := c.Held()], c.hashX, 0 - c.value, c.refs)
    {
      hide View, BalanceKey;
      forall hx, r
        ensures Total(live[o := c.Held()], hx, r) == Total(live, hx, r) + if hx == c.hashX && r in c.refs then c.value else 0
      {
        TotalWith(live, o, c.Held(), hx, r);
      }
    }

    method Own(hashX: Bytes, baseScript: Bytes)
      requires Valid()
      modifies `ownerCache
      ensures Valid() && ownerCache == old(ownerCache)[hashX := baseScript]
    {
      hide DbOk, GoodUndo, SmallValues, Paired, BalancesOk, At, Kind, TokenKey, TokensOk, PendingOk;
      ownerCache := ownerCache[hashX := baseScript];
    }

    /** The balance changes of a transaction: the outputs it spends leave the ledger and the
        outputs it makes enter it. */
    method ProcessBalanceChanges(
        height: nat, debits: seq<Debit>, credits: seq<Credit>, ghost live: Live, ghost spent: seq<Utxos.Outpoint>,
        ghost made: seq<Utxos.Outpoint>)
      requires Valid() && dbHeight < height <= top && Height(height) && Ledger(live)
      requires |spent| == |debits| && |made| == |credits|
      requires GoodDebits(live, debits, spent) && GoodCredits(Spent(live, spent), credits, made)
      requires forall i, r :: 0 <= i < |debits| && r in RefsIn(debits[i].refsData) ==> Known(r)
      requires forall i, r :: 0 <= i < |credits| && r in credits[i].refs ==> Known(r)
      modifies `undoCache, `balanceCache, `balanceHeight, `balanceDeletes, `knownRefs, `ownerCache
      ensures Valid() && Ledger(Credited(Spent(live, spent), credits, made)) && Steady(old(Now()), Now(), db, height)
    {
      hide Valid, Ledger, Known, RefsIn, GoodRefs, Bounded, Debit.Held, Credit.Held, Steady;
      SteadySame(Now(), db, height);
      ghost var now := live;
      assert debits[0..] == debits && spent[0..] == spent;
      for i := 0 to |debits|
        invariant Valid() && Ledger(now) && Spent(now, spent[i..]) == Spent(live, spent)
        invariant GoodDebits(now, debits[i..], spent[i..]) && Steady(old(Now()), Now(), db, height)
        invariant forall j, r :: 0 <= j < |debits| && r in RefsIn(debits[j].refsData) ==> Known(r)
        invariant forall j, r :: 0 <= j < |credits| && r in credits[j].refs ==> Known(r)
      {
        assert debits[i..][1..] == debits[i + 1..] && spent[i..][1..] == spent[i + 1..];
        ghost var before := Now();
        DebitInput(height, debits[i], now, spent[i]);
        SteadyTwice(old(Now()), before, Now(), db, height);
        now := now - {spent[i]};
      }
      assert now == Spent(live, spent);
      assert credits[0..] == credits && made[0..] == made;
      for i := 0 to |credits|
        invariant Valid() && Ledger(now) && Credited(now, credits[i..], made[i..]) == Credited(Spent(live, spent), credits, made)
        invariant GoodCredits(now, credits[i..], made[i..]) && Steady(old(Now()), Now(), db, height)
        invariant forall j, r :: 0 <= j < |credits| && r in credits[j].refs ==> Known(r)
      {
        assert credits[i..][1..] == credits[i + 1..] && made[i..][1..] == made[i + 1..];
        ghost var before := Now();
        CreditOutput(height, credits[i], now, made[i]);
        SteadyTwice(old(Now()), before, Now(), db, height);
        now := now[made[i] := credits[i].Held()];
      }
    }
  }

  lemma RecordedThere(undo: Undo, undo': Undo, h: nat, ks: set<Bytes>, k: Bytes)
    requires RecordedMore(undo, undo', h, ks) && k in ks
    ensures At(undo', h, k)
  {
    hide HasKey, At;
  }

  lemma NoneDeleted(undo: Undo, height: nat)
    ensures DeletesRecorded(undo, undo, height, {})
  {
    hide At, IsBalanceKey;
  }

  /** Amounts fit eight bytes. */
  ghost predicate Bounded(live: Live) {
    forall hx, r :: Total(live, hx, r) < Range(8)
  }

  lemma NoRefs(data: Bytes)
    ensures data == [] ==> RefsIn(data) == []
  {
  }

  /** The outputs left after spending. */
  ghost function Spent(live: Live, spent: seq<Utxos.Outpoint>): Live {
    if spent == [] then live else Spent(live - {spent[0]}, spent[1..])
  }

  ghost function Credited(live: Live, credits: seq<Credit>, made: seq<Utxos.Outpoint>): Live
    requires |credits| == |made|
    decreases |made|
  {
    if made == [] then live else Credited(live[made[0] := credits[0].Held()], credits[1..], made[1..])
  }

  /** Each debit is for a live output, and carries the hashX, value and refs it was credited
      with. */
  ghost predicate GoodDebits(live: Live, debits: seq<Debit>, spent: seq<Utxos.Outpoint>)
    requires |debits| == |spent|
    decreases |spent|
  {
    debits == [] ||
    (&& spent[0] in live && live[spent[0]] == debits[0].Held() && |debits[0].hashX| == HASHX_LEN
     && GoodRefs(RefsIn(debits[0].refsData)) && Bounded(live - {spent[0]})
     && GoodDebits(live - {spent[0]}, debits[1..], spent[1..]))
  }

  ghost predicate GoodCredits(live: Live, credits: seq<Credit>, made: seq<Utxos.Outpoint>)
    requires |credits| == |made|
    decreases |made|
  {
    credits == [] ||
    (&& made[0] !in live && |credits[0].hashX| == HASHX_LEN && GoodRefs(credits[0].refs)
     && Bounded(live[made[0] := credits[0].Held()])
     && GoodCredits(live[made[0] := credits[0].Held()], credits[1..], made[1..]))
  }

  // ----- What a transaction debits and credits -----

  const REF_ENTRY_SIZE := 37
  const DEPLOY := 0
  const HISTORY: Bytes := [71, 72]   // GH

  function HistoryKey(ref: Bytes, height: nat, txIdx: nat): Bytes {
    HISTORY + ref + BE(height, 4) + BE(txIdx, 2)
  }

  /** A spent input with refs: base hashX, value, and the entries of its `ri` row. */
  datatype Debit = Debit(hashX: Bytes, value: nat, refsData: Bytes) {
    function Held(): Holding {
      Holding(hashX, value, set r | r in RefsIn(refsData))
    }
  }

  /** A new output with refs: base hashX, value, refs and base script. */
  datatype Credit = Credit(hashX: Bytes, value: nat, refs: seq<Bytes>, baseScript: Bytes) {
    function Held(): Holding {
      Holding(hashX, value, set r | r in refs)
    }
  }

  /** The refs of entries of 36 bytes each followed by a type byte. */
  function RefsIn(data: Bytes): seq<Bytes>
    decreases |data|
  {
    if data == [] then []
    else (if |data| >= REF_LEN then [data[..REF_LEN]] else []) + RefsIn(Drop(data, REF_ENTRY_SIZE))
  }

  lemma RefsStep(data: Bytes, i: nat)
    requires i < |data|
    ensures var ref := Take(Drop(data, i), REF_LEN);
            var rest := RefsIn(Drop(data, i + REF_ENTRY_SIZE));
            RefsIn(Drop(data, i)) == (if |ref| == REF_LEN then [ref] else []) + rest
  {
    DropDrop(data, i, REF_ENTRY_SIZE);
  }

  predicate GoodRefs(refs: seq<Bytes>) {
    && (forall i :: 0 <= i < |refs| ==> |refs[i]| == REF_LEN)
    && (forall i, j :: 0 <= i < j < |refs| ==> refs[i] != refs[j])
  }

  lemma BalancesBack(db: Table, mark: Table)
    requires SameTracked(db, mark)
    ensures forall hx, r :: |hx| == HASHX_LEN && |r| == REF_LEN ==>
              Stored(db, BalanceKey(hx, r)) == Stored(mark, BalanceKey(hx, r))
  {
    hide Tracked, BalanceKey, FromLE;
    forall hx, r | |hx| == HASHX_LEN && |r| == REF_LEN
      ensures Stored(db, BalanceKey(hx, r)) == Stored(mark, BalanceKey(hx, r))
    {
      BalanceKeyFacts(hx, r);
      KeyOfBalance(BalanceKey(hx, r));
      assert Get(db, BalanceKey(hx, r)) == Get(mark, BalanceKey(hx, r));
    }
  }

  function MarksBelow(marks: Marks, height: int): Marks {
    map b | b in marks && b < height :: marks[b]
  }

  lemma NoBatch(db: Table)
    ensures Commit(db, map[]) == db
  {
  }

  lemma RestoreStep(t: Table, entries: seq<Entry>)
    requires entries != []
    ensures Restore(t, entries) == Restore(Set(t, entries[0].key, entries[0].prev), entries[1..])
  {
  }

  lemma RestoreDone(t: Table, entries: seq<Entry>)
    requires entries == []
    ensures Restore(t, entries) == t
  {
  }

  lemma CommitSet(db: Table, batch: Batch, k: Bytes, v: Option<Bytes>)
    ensures Commit(db, batch[k := v]) == Set(Commit(db, batch), k, v)
  {
  }

  lemma BackupLeaves(cbor: Cbor, db: Table, height: nat, floor: int, marks: Marks)
    requires DbOk(cbor, db, height, floor, marks) && Height(height) && floor <= height
    ensures DbOk(cbor, BackedUp(db, height), height - 1, floor, MarksBelow(marks, height))
    ensures height - 1 in marks ==> SameTracked(BackedUp(db, height), marks[height - 1])
  {
    hide SoundBelow, Unwinds, SmallValues, UndoRowsOk, Sound, BackedUp, SameTracked, Cbor.Usable;
    var db', marks' := BackedUp(db, height), MarksBelow(marks, height);
    SoundAfterBackup(cbor, db, height, floor);
    UnwindsAfterBackup(db, height, floor, marks);
    FewerMarks(db', height - 1, floor, marks, marks');
    UnwindNone(db', height - 1);
    SoundTop(cbor, db', height - 1, floor);
    UnwindsTop(db', height - 1, floor, marks);
    BackupRows(db, height);
  }

  lemma SoundTop(cbor: Cbor, db: Table, height: int, floor: int)
    requires SoundBelow(cbor, db, height, floor) && -1 <= height && floor - 1 <= height
    ensures Sound(cbor, db)
  {
    UnwindNone(db, height);
    assert Sound(cbor, Unwind(db, height, height));
  }

  lemma UnwindsTop(db: Table, height: int, floor: int, marks: Marks)
    requires Unwinds(db, height, floor, marks) && -1 <= height && floor - 1 <= height
    ensures height in marks ==> SameTracked(db, marks[height])
  {
    hide SameTracked;
    UnwindNone(db, height);
  }

  lemma FewerMarks(db: Table, height: int, floor: int, marks: Marks, marks': Marks)
    requires Unwinds(db, height, floor, marks) && forall b :: b in marks' ==> b in marks && marks'[b] == marks[b]
    ensures Unwinds(db, height, floor, marks')
  {
    hide SameTracked, Unwind;
  }

  lemma BackupRows(db: Table, height: nat)
    requires SmallValues(db) && UndoRowsOk(db, height) && Height(height)
    ensures SmallValues(BackedUp(db, height)) && UndoRowsOk(BackedUp(db, height), height - 1)
  {
    hide Decode, UndoKey, Tracked, Restore, GoodEntries;
    var db' := BackedUp(db, height);
    if UndoKey(height) in db && db[UndoKey(height)] != [] {
      var entries := Decode(db[UndoKey(height)]);
      forall k
        ensures k != UndoKey(height) ==> Get(db', k) == Get(Restore(db, entries), k)
        ensures Get(Restore(db, entries), k) == Get(db, k) || (Tracked(k) && Small(Get(Restore(db, entries), k)))
      {
        RestoreWithin(db, entries, k);
      }
      forall h: nat | Height(h) && UndoKey(h) in db'
        ensures h <= height - 1 && db'[UndoKey(h)] != [] && GoodEntries(Decode(db'[UndoKey(h)]))
      {
        assert Get(db', UndoKey(h)) == Get(db, UndoKey(h));
      }
      forall k | k in db' && Tracked(k)
        ensures |db'[k]| < SENTINEL
      {
        assert Get(db', k) == Get(Restore(db, entries), k);
      }
    }
  }

  lemma {:induction false} RestoreWithin(db: Table, entries: seq<Entry>, k: Bytes)
    requires GoodEntries(entries)
    ensures Get(Restore(db, entries), k) == Get(db, k) || (Tracked(k) && Small(Get(Restore(db, entries), k)))
    decreases |entries|
  {
    hide Tracked;
    if entries != [] {
      var e, rest := entries[0], entries[1..];
      assert forall i :: 0 <= i < |rest| ==> rest[i] == entries[i + 1];
      RestoreWithin(Set(db, e.key, e.prev), rest, k);
    }
  }

  lemma DbParts(cbor: Cbor, db: Table, height: int, floor: int, marks: Marks)
    requires DbOk(cbor, db, height, floor, marks)
    ensures cbor.Usable() && cbor.RoundTrips() && cbor.Derived(db) && SmallValues(db) && -1 <= height && 0 <= floor
  {
  }

  lemma TopGrows(undo: Undo, db: Table, lo: int, top: int, top': int)
    requires GoodUndo(undo, db, lo, top) && top <= top'
    ensures GoodUndo(undo, db, lo, top')
  {
    hide GoodEntries, SavedFrom;
  }

  lemma NothingCached(db: Table, height: int)
    ensures GoodUndo(map[], db, height, height) && Paired(map[]) && BalancesOk(map[], {}, map[])
    ensures forall h: nat, k :: !At(map[], h, k)
  {
  }

  lemma KnownAfter(
      cbor: Cbor, db: Table, batch: Batch, undo: Undo, tokens: map<Bytes, Token>, heights: map<Bytes, nat>)
    requires TokensIn(cbor, db, batch, undo, tokens, heights, tokens.Keys)
    ensures forall ref {:trigger TokenKey(ref)} :: ref in tokens || TokenKey(ref) in db ==> TokenKey(ref) in Commit(db, batch)
    ensures forall ref :: ref in tokens ==> Get(Commit(db, batch), TokenKey(ref)) == Some(cbor.dumps(tokens[ref]))
  {
    hide TokenKey, TokensRecorded, IsDiscovery;
    forall ref
      ensures ref in tokens || TokenKey(ref) in db ==> TokenKey(ref) in Commit(db, batch)
      ensures ref in tokens ==> Get(Commit(db, batch), TokenKey(ref)) == Some(cbor.dumps(tokens[ref]))
    {
      CommitRow(db, batch, TokenKey(ref));
    }
  }

  /** Pending and owner rows are written, and no other row of the pending tables changes. */
  ghost predicate RowsWritten(db: Table, db': Table, ws: seq<Write>, owners: map<Bytes, Bytes>) {
    && (forall k :: Kind(k) in OTHER_KINDS ==> Get(db', k) == if LastWrite(ws, k).Some? then LastWrite(ws, k) else Get(db, k))
    && (forall hx :: hx in owners ==> Get(db', OWNER + hx) == Some(owners[hx]))
  }

  lemma RowsCommitted(db: Table, batch: Batch, ws: seq<Write>, owners: map<Bytes, Bytes>)
    requires OthersIn(batch, ws) && OwnersIn(batch, owners)
    ensures RowsWritten(db, Commit(db, batch), ws, owners)
  {
    hide Kind, LastWrite;
    forall k
      ensures Get(Commit(db, batch), k) == Pending(db, batch, k)
    {
      CommitRow(db, batch, k);
    }
  }

  /** Everything the committed tables keep. */
  lemma FlushLeaves(
      cbor: Cbor, db: Table, batch: Batch, books: Books, undo: Undo, lo: int, hi: nat, floor: int, floor': int, marks: Marks,
      tokens: map<Bytes, Token>, heights: map<Bytes, nat>)
    requires DbOk(cbor, db, lo, floor, marks) && floor <= floor' && lo < hi && Height(hi)
    requires GoodUndo(undo, db, lo, hi) && Paired(undo) && Covered(batch, undo) && UndoRowsIn(batch, undo, floor')
    requires TokensIn(cbor, db, batch, undo, tokens, heights, tokens.Keys)
    requires BalancesOk(books.cache, books.deletes, undo) && BalancesIn(batch, books.cache, books.deletes)
    requires DeletesRecorded(books.undo, undo, hi, books.deletes)
    ensures DbOk(cbor, Commit(db, batch), hi, floor', marks[hi := Commit(db, batch)])
    ensures forall k :: IsBalanceKey(k) ==> Stored(Commit(db, batch), k) == books.At(db, k)
    ensures WindowBalances(db, Commit(db, batch), books, lo, hi)
    ensures UnwindsAlike(db, lo, Commit(db, batch), hi, floor')
  {
    hide UnwindsAlike, GoodUndo, Paired, Covered, UndoRowsIn, TokensIn, TokensRecorded, BalancesOk, BalancesIn, Commit, FlushedOnto, SoundBelow,
      Unwinds, SmallValues, UndoRowsOk, IsBalanceKey, Stored, View, Cbor.Derived, Mirrored, Positive, Together, Cbor.Usable,
      WindowBalances, DeletesRecorded;
    var db' := Commit(db, batch);
    DbParts(cbor, db, lo, floor, marks);
    CommitFlushed(db, batch, undo, lo, hi, floor');
    TokensDerived(cbor, db, batch, undo, tokens, heights, tokens.Keys);
    TokensTogether(cbor, db, batch, undo, tokens, heights);
    BalancesCommitted(db, batch, books.cache, books.deletes, undo);
    WindowBalancesAre(db, db', books, undo, lo, hi, floor');
    SoundAfterFlush(cbor, db, db', undo, lo, hi, floor, floor');
    UnwindsAfterFlush(db, db', undo, lo, hi, floor, floor', marks);
    AlikeAfterFlush(db, db', undo, lo, hi, floor');
    CommitSmall(db, batch, undo);
    CommitUndoRows(db, batch, undo, lo, hi, floor');
  }

  lemma TokensTogether(
      cbor: Cbor, db: Table, batch: Batch, undo: Undo, tokens: map<Bytes, Token>, heights: map<Bytes, nat>)
    requires TokensIn(cbor, db, batch, undo, tokens, heights, tokens.Keys)
    ensures Together(undo)
  {
    hide TokensRecorded, TokenRowsIn, Together;
    RecordedTogether(undo, heights, tokens.Keys);
  }

  lemma CommitFlushed(db: Table, batch: Batch, undo: Undo, lo: int, hi: int, floor: int)
    requires GoodUndo(undo, db, lo, hi) && Covered(batch, undo) && UndoRowsIn(batch, undo, floor)
    requires UndoRowsOk(db, lo) && Height(hi) && lo <= hi
    ensures FlushedOnto(db, Commit(db, batch), undo, lo, hi, floor)
  {
    hide Encode, Decode, UndoKey, Tracked, Recorded, GoodUndo, GoodEntries, Small, Commit;
    var db' := Commit(db, batch);
    forall k | Tracked(k) && !Recorded(undo, k)
      ensures Get(db', k) == Get(db, k)
    {
      CommitRow(db, batch, k);
    }
    forall h: nat | Height(h)
      ensures lo < h ==> Get(db', UndoKey(h)) == UndoRow(undo, h)
      ensures floor <= h <= lo ==> Get(db', UndoKey(h)) == Get(db, UndoKey(h))
    {
      CommitRow(db, batch, UndoKey(h));
      if h in undo {
        GoodAt(undo, db, lo, hi, h);
      }
      assert UndoKey(h) in db ==> h <= lo;
    }
  }

  lemma CommitSmall(db: Table, batch: Batch, undo: Undo)
    requires SmallValues(db) && Covered(batch, undo)
    ensures SmallValues(Commit(db, batch))
  {
    hide Tracked, Recorded;
    forall k | k in Commit(db, batch) && Tracked(k)
      ensures |Commit(db, batch)[k]| < SENTINEL
    {
      CommitRow(db, batch, k);
    }
  }

  lemma CommitUndoRows(db: Table, batch: Batch, undo: Undo, lo: int, hi: int, floor: int)
    requires UndoRowsOk(db, lo) && lo <= hi && GoodUndo(undo, db, lo, hi) && UndoRowsIn(batch, undo, floor)
    ensures UndoRowsOk(Commit(db, batch), hi)
  {
    hide Encode, Decode, UndoKey, GoodEntries, SavedFrom, Commit, GoodUndo;
    var db' := Commit(db, batch);
    forall h: nat | Height(h) && UndoKey(h) in db'
      ensures h <= hi && db'[UndoKey(h)] != [] && GoodEntries(Decode(db'[UndoKey(h)]))
    {
      CommitRow(db, batch, UndoKey(h));
      if h in undo {
        GoodAt(undo, db, lo, hi, h);
        RowOfUndo(undo[h]);
        EncodeEmpty(undo[h]);
        assert InBatch(batch, UndoKey(h)) == Some(Some(Encode(undo[h])));
      } else {
        assert Get(db', UndoKey(h)) == Get(db, UndoKey(h));
      }
    }
  }

  lemma RowOfUndo(entries: seq<Entry>)
    requires GoodEntries(entries)
    ensures Decode(Encode(entries)) == entries
  {
    RoundTripIff(entries);
  }

  /** The undo rows of the window are put, and no other row from `floor` on is touched. */
  ghost predicate UndoRowsIn(batch: Batch, undo: Undo, floor: int) {
    forall h: nat :: Height(h) ==>
      if h in undo then InBatch(batch, UndoKey(h)) == Some(Some(Encode(undo[h])))
      else InBatch(batch, UndoKey(h)) == None || (h < floor && InBatch(batch, UndoKey(h)) == Some(None))
  }

  lemma OnlyUndoKeys(batch: Batch, undo: Undo)
    requires forall k :: InBatch(batch, k) == InBatch(map[], k) || (IsUndoKey(k) && InBatch(batch, k) == Some(None))
    ensures Covered(batch, undo) && forall k :: k in batch ==> Kind(k) == 88
  {
    hide Kind;
    forall k | k in batch
      ensures IsUndoKey(k) && Kind(k) == 88
    {
      assert InBatch(batch, k) != InBatch(map[], k);
      UndoKind(k);
    }
  }

  lemma UntrackedUndo(batch: Batch, batch': Batch)
    requires forall k :: !IsUndoKey(k) ==> InBatch(batch', k) == InBatch(batch, k)
    ensures forall k :: Tracked(k) ==> InBatch(batch', k) == InBatch(batch, k)
  {
  }

  lemma UndoRowsBuilt(b1: Batch, b6: Batch, b7: Batch, undo: Undo, floor: int)
    requires forall k :: InBatch(b1, k) == InBatch(map[], k) || (IsUndoKey(k) && InBatch(b1, k) == Some(None))
    requires forall h: nat :: Height(h) && h >= floor ==> InBatch(b1, UndoKey(h)) == InBatch(map[], UndoKey(h))
    requires forall k :: Kind(k) == 88 ==> InBatch(b6, k) == InBatch(b1, k)
    requires forall h: nat :: Height(h) ==>
               InBatch(b7, UndoKey(h)) == if h in undo then Some(Some(Encode(undo[h]))) else InBatch(b6, UndoKey(h))
    ensures UndoRowsIn(b7, undo, floor)
  {
    hide UndoKey, Kind, Encode;
    forall h: nat | Height(h)
      ensures InBatch(b6, UndoKey(h)) == InBatch(b1, UndoKey(h))
      ensures InBatch(b1, UndoKey(h)) == None || (h < floor && InBatch(b1, UndoKey(h)) == Some(None))
    {
      UndoKind(UndoKey(h));
      assert InBatch(map[], UndoKey(h)) == None;
    }
  }

  lemma NoBalanceRows(batch: Batch, batch': Batch)
    requires SameOutside(batch, batch', TOKEN_KINDS) && forall k :: k in batch ==> Kind(k) == 88
    ensures forall k :: Kind(k) in BALANCE_KINDS ==> k !in batch'
  {
    hide Kind;
    forall k | Kind(k) in BALANCE_KINDS
      ensures k !in batch'
    {
      assert InBatch(batch', k) == InBatch(batch, k);
    }
  }

  lemma OutsideStages(b1: Batch, b2: Batch, b3: Batch, b4: Batch, b5: Batch, b6: Batch, b7: Batch)
    requires SameOutside(b1, b2, TOKEN_KINDS) && SameOutside(b2, b3, BALANCE_KINDS) && SameOutside(b3, b4, {79})
    requires SameOutside(b4, b5, BALANCE_KINDS) && SameOutside(b5, b6, OTHER_KINDS) && SameOutside(b6, b7, {88})
    ensures SameOutside(b2, b7, BALANCE_KINDS + OTHER_KINDS + {79, 88})
    ensures forall k :: Kind(k) == 88 ==> InBatch(b6, k) == InBatch(b1, k)
  {
    hide Kind;
  }

  lemma OthersStep(batch: Batch, ws: seq<Write>, w: Write)
    requires OthersIn(batch, ws)
    ensures OthersIn(batch[w.key := Some(w.value)], ws + [w])
  {
    hide Kind;
    assert (ws + [w])[..|ws|] == ws;
  }

  lemma NoOthers(b1: Batch, b2: Batch, b3: Batch, b4: Batch, b5: Batch)
    requires forall k :: k in b1 ==> Kind(k) == 88
    requires SameOutside(b1, b2, TOKEN_KINDS) && SameOutside(b2, b3, BALANCE_KINDS) && SameOutside(b3, b4, {79})
    requires SameOutside(b4, b5, BALANCE_KINDS)
    ensures OthersIn(b5, [])
  {
    hide Kind;
  }

  lemma OthersOwnersFrame(
      b4: Batch, b5: Batch, b6: Batch, b7: Batch, ws: seq<Write>, owners: map<Bytes, Bytes>)
    requires OwnersIn(b4, owners) && OthersIn(b6, ws)
    requires SameOutside(b4, b5, BALANCE_KINDS) && SameOutside(b5, b6, OTHER_KINDS) && SameOutside(b6, b7, {88})
    ensures OthersIn(b7, ws) && OwnersIn(b7, owners)
  {
    hide LastWrite;
    forall hx
      ensures Kind(OWNER + hx) == 79
    {
    }
  }

  lemma PackableAll(entries: seq<Entry>)
    requires GoodEntries(entries)
    ensures forall i :: 0 <= i < |entries| ==> Packable(entries[i])
  {
  }

  lemma NothingDone(batch: Batch, undo: Undo, kinds: set<int>)
    ensures SameOutside(batch, batch, kinds) && GrownBy(undo, undo, kinds)
  {
  }

  lemma MirrorIs(k: Bytes)
    requires IsBalanceKey(k)
    ensures Mirror(k) == HolderKey(k[2 + HASHX_LEN..], k[2..2 + HASHX_LEN])
  {
  }

  lemma DeletedKey(cache: map<Bytes, nat>, deletes: set<Bytes>, undo: Undo, k: Bytes)
    requires BalancesOk(cache, deletes, undo) && k in deletes
    ensures IsBalanceKey(k) && |k| == BALANCE_KEY_LEN && k !in cache
  {
  }

  lemma DeleteStep(batch0: Batch, batch: Batch, undo: Undo, cache: map<Bytes, nat>, done: set<Bytes>, key: Bytes)
    requires IsBalanceKey(key) && key !in cache && Recorded(undo, key) && Recorded(undo, Mirror(key))
    requires Covered(batch, undo) && BalancesIn(batch, cache, done) && SameOutside(batch0, batch, BALANCE_KINDS)
    ensures var batch' := batch[key := None][Mirror(key) := None];
            Covered(batch', undo) && BalancesIn(batch', cache, done + {key}) && SameOutside(batch0, batch', BALANCE_KINDS)
  {
    hide IsBalanceKey, Mirror, Recorded, Tracked, Kind;
    KeyOfBalance(key);
    forall k | IsBalanceKey(k)
      ensures k != Mirror(key) && Mirror(k) != key && (Mirror(k) == Mirror(key) <==> k == key)
    {
      KeyOfBalance(k);
      MirrorsDiffer(k, key);
    }
  }

  lemma OtherTracked(k: Bytes)
    requires Kind(k) in OTHER_KINDS
    ensures Tracked(k)
  {
    KindTracked(k);
  }

  lemma PutStep(batch0: Batch, batch: Batch, undo: Undo, undo': Undo, h: nat, k: Bytes, v: Bytes)
    requires Covered(batch, undo) && SameOutside(batch0, batch, OTHER_KINDS) && Kind(k) in OTHER_KINDS
    requires RecordedMore(undo, undo', h, {k}) && |v| < SENTINEL
    ensures Covered(batch[k := Some(v)], undo') && SameOutside(batch0, batch[k := Some(v)], OTHER_KINDS)
  {
    hide Recorded, Tracked, Kind;
    RecordedGrows(undo, undo', h, {k});
  }

  lemma NoBalancesYet(batch: Batch)
    requires forall k :: Kind(k) in BALANCE_KINDS ==> k !in batch
    ensures forall k :: IsBalanceKey(k) ==> InBatch(batch, k) == None == InBatch(batch, Mirror(k))
  {
    hide IsBalanceKey, Mirror, Kind;
    forall k | IsBalanceKey(k)
      ensures InBatch(batch, k) == None == InBatch(batch, Mirror(k))
    {
      KeyOfBalance(k);
    }
  }

  lemma NothingGrown(batch: Batch, undo: Undo)
    ensures SameOutside(batch, batch, TOKEN_KINDS) && GrownBy(undo, undo, TOKEN_KINDS)
  {
  }

  lemma NoTokensYet(
      cbor: Cbor, db: Table, batch: Batch, undo: Undo, tokens: map<Bytes, Token>, heights: map<Bytes, nat>)
    requires forall k :: k in batch ==> Kind(k) == 88
    requires forall h: nat, k :: At(undo, h, k) ==> Kind(k) in BALANCE_KINDS
    ensures TokensIn(cbor, db, batch, undo, tokens, heights, tokens.Keys - tokens.Keys)
  {
    hide At, DiscoveryRows, Kind, TokenKey, RefOf;
    forall ref
      ensures Kind(TokenKey(ref)) == 84
    {
      TokenKeyFacts(ref);
    }
  }

  lemma UndoKind(k: Bytes)
    ensures IsUndoKey(k) ==> Kind(k) == 88
  {
    if IsUndoKey(k) {
      assert k[..3][0] == k[0] && k[..3][1] == k[1];
    }
  }

  lemma StoredRows(cbor: Cbor, db: Table, ref: Bytes)
    ensures TokenKey(ref) in db && cbor.loads(db[TokenKey(ref)]).Some? ==>
              cbor.RowsOf(db, ref) == DiscoveryRows(ref, cbor.loads(db[TokenKey(ref)]).value)
    ensures TokenKey(ref) !in db || cbor.loads(db[TokenKey(ref)]).None? ==> cbor.RowsOf(db, ref) == map[]
  {
  }

  lemma MoreNone(undo: Undo, h: nat)
    ensures RecordedMore(undo, undo, h, {})
  {
  }

  lemma DeleteNone(batch: Batch)
    ensures DeleteAll(batch, {}) == batch
  {
  }

  lemma FiveTimes(batch: Batch, a: Table, b: Table, c: Table, d: Table, e: Table)
    ensures PutAll(PutAll(PutAll(PutAll(PutAll(batch, a), b), c), d), e) == PutAll(batch, a + b + c + d + e)
  {
    hide PutAll;
    PutAllTwice(batch, a, b);
    PutAllTwice(batch, a + b, c);
    PutAllTwice(batch, a + b + c, d);
    PutAllTwice(batch, a + b + c + d, e);
  }

  // ----- Backing up into a window -----

  /** A run: the balance is `start` when a window begins, and moves by `d1` and then by `d2` at the
      two heights of the window.  Backing up the second height gives the balance from before the
      window, whatever it was at the first. */
  method MovedTwice(cbor: Cbor, hashX: Bytes, ref: Bytes, start: nat, d1: int, d2: int) returns (held: nat, back: nat)
    requires cbor.Usable() && |hashX| == HASHX_LEN && |ref| == REF_LEN
    requires start < Range(8) && start + d1 < Range(8) && AtLeastZero(start + d1) + d2 < Range(8)
    ensures held == AtLeastZero(start + d1) && back == start
  {
    hide GlyphIndex.Valid, WindowBalances, RowsWritten, Steady, BalanceKey, Range, DbOk, View, Stored;
    var g := OneWindow(cbor, hashX, ref, start);
    ghost var db0 := g.db;
    g.BeginBlock(2);
    g.UpdateBalance(2, hashX, ref, d1);
    held := g.Balance(hashX, ref);
    g.BeginBlock(3);
    g.UpdateBalance(3, hashX, ref, d2);
    ghost var books := g.Now();
    g.Flush(3);
    ghost var db1 := g.db;
    g.Backup(3);
    back := g.Balance(hashX, ref);
    AtIsMoved(books, 2, 3, 3, BalanceKey(hashX, ref));
    BackInside(g, db0, db1, books, 1, 3, hashX, ref);
  }

  /** A run: a balance is zeroed at the first of the two heights of a window and not touched at the
      second.  Backing up the second brings it back. */
  method ZeroedOnce(cbor: Cbor, hashX: Bytes, ref: Bytes, start: nat) returns (held: nat, back: nat)
    requires cbor.Usable() && |hashX| == HASHX_LEN && |ref| == REF_LEN && start < Range(8)
    ensures held == 0 && back == start
  {
    hide GlyphIndex.Valid, WindowBalances, RowsWritten, Steady, BalanceKey, Range, DbOk, Stored;
    var g := OneWindow(cbor, hashX, ref, start);
    ghost var db0 := g.db;
    g.BeginBlock(2);
    g.UpdateBalance(2, hashX, ref, 0 - start);
    held := g.Balance(hashX, ref);
    g.BeginBlock(3);
    ghost var books := g.Now();
    ZeroIsDeleted(g, hashX, ref);
    g.Flush(3);
    ghost var db1 := g.db;
    g.Backup(3);
    back := g.Balance(hashX, ref);
    BackInside(g, db0, db1, books, 1, 3, hashX, ref);
  }

  /** A run: a balance is spent in full; until the next flush the query gives what it was. */
  method SpentUnseen(cbor: Cbor, hashX: Bytes, ref: Bytes, start: nat) returns (held: nat, shown: nat)
    requires cbor.Usable() && |hashX| == HASHX_LEN && |ref| == REF_LEN && 0 < start < Range(8)
    ensures held == 0 && shown == start
  {
    hide GlyphIndex.Valid, WindowBalances, RowsWritten, Steady, BalanceKey, Range, DbOk, Stored, UnwindsAlike;
    var g := OneWindow(cbor, hashX, ref, start);
    g.BeginBlock(2);
    g.UpdateBalance(2, hashX, ref, 0 - start);
    held := g.Balance(hashX, ref);
    ZeroIsDeleted(g, hashX, ref);
    shown := g.GetBalance(hashX, ref);
  }

  function AtLeastZero(n: int): nat {
    if n > 0 then n else 0
  }

  /** An index whose first window gave the holder `start`. */
  method OneWindow(cbor: Cbor, hashX: Bytes, ref: Bytes, start: nat) returns (g: GlyphIndex)
    requires cbor.Usable() && |hashX| == HASHX_LEN && |ref| == REF_LEN && start < Range(8)
    ensures fresh(g) && g.Valid() && g.CachesEmpty() && g.dbHeight == g.top == 1 && g.floor == 0 && g.reorgLimit == 0
    ensures g.Balance(hashX, ref) == start == Stored(g.db, BalanceKey(hashX, ref))
  {
    hide GlyphIndex.Valid, WindowBalances, RowsWritten, Steady, BalanceKey, Range, DbOk, Stored;
    EmptyTables(cbor);
    Fresh(cbor, map[], -1);
    g := new GlyphIndex(cbor, 0, map[], -1, 0, map[-1 := map[]]);
    assert g.Balance(hashX, ref) == 0 by {
      NothingStored(BalanceKey(hashX, ref));
    }
    g.BeginBlock(1);
    g.UpdateBalance(1, hashX, ref, start);
    g.Flush(1);
  }

  lemma NothingStored(k: Bytes)
    ensures Stored(map[], k) == 0
  {
  }

  lemma AtIsMoved(books: Books, j: int, h: nat, hi: int, k: Bytes)
    requires At(books.undo, h, k) && j < h
    ensures MovedAbove(books.undo, books.deletes, j, hi, k)
  {
    hide HasKey;
  }

  /** A balance of zero that was not zero in the database is waiting to be deleted. */
  lemma ZeroIsDeleted(g: GlyphIndex, hashX: Bytes, ref: Bytes)
    requires g.Valid() && g.Balance(hashX, ref) == 0
    ensures Stored(g.db, BalanceKey(hashX, ref)) > 0 ==> BalanceKey(hashX, ref) in g.balanceDeletes
  {
    hide DbOk, GoodUndo, Paired, SmallValues, At, Kind, TokenKey, BalanceKey, Stored, IsBalanceKey, Mirror, Recorded, Range;
  }

  /** The balance after backing up one height into the window. */
  lemma BackInside(g: GlyphIndex, db0: Table, db1: Table, books: Books, lo: nat, hi: nat, hashX: Bytes, ref: Bytes)
    requires g.CachesEmpty() && g.db == BackedUp(db1, hi) && lo < hi && |hashX| == HASHX_LEN && |ref| == REF_LEN
    requires WindowBalances(db0, db1, books, lo, hi)
    ensures var k := BalanceKey(hashX, ref);
            g.Balance(hashX, ref) == if MovedAbove(books.undo, books.deletes, hi - 1, hi, k) then Stored(db0, k) else books.At(db0, k)
  {
    hide BalanceKey, Stored, MovedAbove, Books.At, BackedUp;
    BalanceKeyFacts(hashX, ref);
    UnwindOne(db1, hi);
    var k, j := BalanceKey(hashX, ref), hi - 1;
    assert Stored(Unwind(db1, hi, j), k) == if MovedAbove(books.undo, books.deletes, j, hi, k) then Stored(db0, k) else books.At(db0, k);
  }

  lemma UnwindOne(db: Table, h: nat)
    ensures Unwind(db, h, h - 1) == BackedUp(db, h)
  {
    hide BackedUp;
  }
}
