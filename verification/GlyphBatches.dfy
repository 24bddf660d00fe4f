/** What a flush of the Glyph index puts into its batch, and what it records for undo first
    (electrumx/server/glyph_index.py). */
module GlyphBatches {
  import opened ByteStrings
  import opened UndoCodec
  import opened Overlay
  import opened Discovery
  import opened Balances

  const BY_TYPE: Bytes := [71, 89]     // GY
  const BY_NAME: Bytes := [71, 78]     // GN
  const BY_TICKER: Bytes := [71, 75]   // GK
  const GLYPH_FT := 1

  // The tables by the second byte of their keys
  const TOKEN_KINDS := {84, 90, 80, 81, 89, 78, 75}   // T Z P Q Y N K
  const BALANCE_KINDS := {66, 82}                     // B R
  const OTHER_KINDS := {72, 77, 67}                   // H M C

  // ----- Batches -----

  /** The puts and deletes of a batch; later ones replace earlier ones of the same key. */
  type Batch = map<Bytes, Option<Bytes>>

  function Pending(db: Table, batch: Batch, k: Bytes): Option<Bytes> {
    if k in batch then batch[k] else Get(db, k)
  }

  function Commit(db: Table, batch: Batch): (r: Table)
    ensures forall k :: Get(r, k) == Pending(db, batch, k)
  {
    map k | k in db.Keys + batch.Keys && Pending(db, batch, k).Some? :: Pending(db, batch, k).value
  }

  function PutAll(batch: Batch, rows: Table): Batch {
    batch + map k | k in rows :: Some(rows[k])
  }

  function DeleteAll(batch: Batch, keys: set<Bytes>): Batch {
    batch + map k | k in keys :: None
  }

  // ----- Recording undo entries -----

  /** The value before the window, once per height and key. */
  function Recording(undo: Undo, db: Table, h: nat, k: Bytes): Undo {
    if At(undo, h, k) then undo
    else undo[h := (if h in undo then undo[h] else []) + [Entry(k, Get(db, k))]]
  }

  /** Exactly the keys `ks` have been recorded at `h`. */
  ghost predicate RecordedMore(undo: Undo, undo': Undo, h: nat, ks: set<Bytes>) {
    forall h': nat, k :: At(undo', h', k) <==> At(undo, h', k) || (h' == h && k in ks)
  }

  /** Values are short enough for the undo log. */
  ghost predicate SmallValues(db: Table) {
    forall k :: k in db && Tracked(k) ==> |db[k]| < SENTINEL
  }

  lemma RecordingGood(undo: Undo, db: Table, h: nat, k: Bytes, lo: int, hi: int)
    requires GoodUndo(undo, db, lo, hi) && SmallValues(db)
    requires lo < h <= hi && Height(h) && Tracked(k) && |k| < 0x1_0000
    ensures GoodUndo(Recording(undo, db, h, k), db, lo, hi)
    ensures RecordedMore(undo, Recording(undo, db, h, k), h, {k})
  {
    hide Tracked;
    if !At(undo, h, k) {
      var before := if h in undo then undo[h] else [];
      var e := Entry(k, Get(db, k));
      if h in undo {
        GoodAt(undo, db, lo, hi, h);
      }
      AppendEntry(before, e, db);
      forall k' ensures HasKey(before + [e], k') <==> HasKey(before, k') || k' == k {
        AppendKey(before, e, k');
      }
    }
  }

  lemma AppendEntry(entries: seq<Entry>, e: Entry, db: Table)
    requires GoodEntries(entries) && SavedFrom(entries, db)
    requires Packable(e) && Tracked(e.key) && e.prev == Get(db, e.key) && (e.prev.Some? ==> |e.prev.value| < SENTINEL)
    ensures GoodEntries(entries + [e]) && SavedFrom(entries + [e], db)
  {
    hide Tracked;
  }

  lemma AppendKey(entries: seq<Entry>, e: Entry, k: Bytes)
    ensures HasKey(entries + [e], k) <==> HasKey(entries, k) || k == e.key
  {
    if HasKey(entries, k) {
      var i :| 0 <= i < |entries| && entries[i].key == k;
      assert (entries + [e])[i].key == k;
    }
    if k == e.key {
      assert (entries + [e])[|entries|].key == k;
    }
  }

  predicate Small(v: Option<Bytes>) {
    v.Some? ==> |v.value| < SENTINEL
  }

  /** Every tracked key written by the batch has been recorded in this window, and its value is
      short enough to be recorded later. */
  ghost predicate Covered(batch: Batch, undo: Undo) {
    forall k :: k in batch && Tracked(k) ==> Recorded(undo, k) && Small(batch[k])
  }

  lemma RecordedAt(undo: Undo, k: Bytes)
    ensures Recorded(undo, k) <==> exists h: nat :: At(undo, h, k)
  {
    hide HasKey;
    if h: nat :| At(undo, h, k) {
      assert h in undo && h > -1 && HasKey(undo[h], k);
    }
    if Recorded(undo, k) {
      var h :| h in undo && h > -1 && HasKey(undo[h], k);
      assert At(undo, h, k);
    }
  }

  lemma RecordedGrows(undo: Undo, undo': Undo, h: nat, ks: set<Bytes>)
    requires RecordedMore(undo, undo', h, ks)
    ensures forall k :: Recorded(undo', k) <==> Recorded(undo, k) || k in ks
  {
    hide HasKey, Recorded;
    forall k
      ensures Recorded(undo', k) <==> Recorded(undo, k) || k in ks
    {
      RecordedAt(undo, k);
      RecordedAt(undo', k);
      if k in ks {
        assert At(undo', h, k);
      }
      if h': nat :| At(undo, h', k) {
        assert At(undo', h', k);
      }
    }
  }

  // ----- The rows of one token -----

  function TypeKey(ref: Bytes, t: Token): Bytes {
    BY_TYPE + [t.tokenType] + ref
  }

  function NameRows(ref: Bytes, t: Token): Table {
    if t.nameHash.Some? then map[BY_NAME + t.nameHash.value + ref := []] else map[]
  }

  function TickerRows(ref: Bytes, t: Token): Table {
    if t.ticker.Some? && GLYPH_FT in t.protocols then map[BY_TICKER + Take(t.ticker.value, 8) := ref] else map[]
  }

  /** All rows put for a token. */
  function TokenPuts(cbor: Cbor, ref: Bytes, t: Token): Table {
    map[TokenKey(ref) := cbor.dumps(t)] + map[TypeKey(ref, t) := []] + DiscoveryRows(ref, t)
    + NameRows(ref, t) + TickerRows(ref, t)
  }

  /** A token whose keys and record fit undo entries. */
  predicate GoodToken(cbor: Cbor, ref: Bytes, t: Token) {
    |ref| == REF_LEN && (t.nameHash.Some? ==> |t.nameHash.value| == 16) && |cbor.dumps(t)| < SENTINEL
  }

  lemma TokenPutsFacts(cbor: Cbor, ref: Bytes, t: Token, k: Bytes)
    requires k in TokenPuts(cbor, ref, t) && GoodToken(cbor, ref, t)
    ensures Tracked(k) && |k| < 0x1_0000 && Kind(k) in TOKEN_KINDS
    ensures Kind(k) == 84 ==> k == TokenKey(ref)
    ensures IsDiscovery(k) ==> k in DiscoveryRows(ref, t)
  {
    hide Tracked, DiscoveryRows;
    if k in DiscoveryRows(ref, t) {
      DiscoveryKeyFacts(ref, t, k);
    }
    KindTracked(k);
  }

  lemma TokenPutsGet(cbor: Cbor, ref: Bytes, t: Token, k: Bytes)
    requires GoodToken(cbor, ref, t)
    ensures Get(TokenPuts(cbor, ref, t), TokenKey(ref)) == Some(cbor.dumps(t))
    ensures IsDiscovery(k) ==> Get(TokenPuts(cbor, ref, t), k) == Get(DiscoveryRows(ref, t), k)
  {
    hide DiscoveryRows;
    TokenKeyFacts(ref);
    if TokenKey(ref) in DiscoveryRows(ref, t) {
      DiscoveryKeyFacts(ref, t, TokenKey(ref));
    }
  }

  /** The effect of flushing one token on the batch: what the stored token accounts for goes,
      unless it is put again. */
  function TokenBatch(cbor: Cbor, db: Table, batch: Batch, ref: Bytes, t: Token): Batch {
    PutAll(DeleteAll(batch, cbor.RowsOf(db, ref).Keys), TokenPuts(cbor, ref, t))
  }

  function TokenKeys(cbor: Cbor, db: Table, ref: Bytes, t: Token): set<Bytes> {
    cbor.RowsOf(db, ref).Keys + TokenPuts(cbor, ref, t).Keys
  }

  /** The tokens `done` are in the batch, with the discovery rows they account for, and are
      recorded at their heights. */
  ghost predicate TokensIn(
      cbor: Cbor, db: Table, batch: Batch, undo: Undo, tokens: map<Bytes, Token>, heights: map<Bytes, nat>, done: set<Bytes>) {
    && done <= heights.Keys && TokenRowsIn(cbor, db, batch, tokens, done) && TokensRecorded(undo, heights, done)
  }

  ghost predicate TokenRowsIn(cbor: Cbor, db: Table, batch: Batch, tokens: map<Bytes, Token>, done: set<Bytes>) {
    && done <= tokens.Keys
    && (forall ref :: ref in done ==> |ref| == REF_LEN && TokenKey(ref) in batch
                                      && batch[TokenKey(ref)] == Some(cbor.dumps(tokens[ref])))
    && (forall ref :: TokenKey(ref) in batch ==> ref in done)
    && (forall k :: IsDiscovery(k) && RefOf(k) in done ==>
          Pending(db, batch, k) == Get(DiscoveryRows(RefOf(k), tokens[RefOf(k)]), k))
    && (forall k :: k in batch && IsDiscovery(k) ==> RefOf(k) in done)
  }

  ghost predicate TokensRecorded(undo: Undo, heights: map<Bytes, nat>, done: set<Bytes>) {
    && done <= heights.Keys
    && (forall h: nat, k :: IsDiscovery(k) && At(undo, h, k) ==> RefOf(k) in done && h == heights[RefOf(k)])
    && (forall h: nat, ref :: At(undo, h, TokenKey(ref)) ==> ref in done && h == heights[ref])
    && (forall ref :: ref in done ==> At(undo, heights[ref], TokenKey(ref)))
  }

  lemma RecordedTogether(undo: Undo, heights: map<Bytes, nat>, done: set<Bytes>)
    requires TokensRecorded(undo, heights, done)
    ensures Together(undo)
  {
    hide HasKey, TokenKey, IsDiscovery, RefOf;
  }

  lemma TokenRecordedStep(
      cbor: Cbor, db: Table, undo: Undo, undo': Undo, heights: map<Bytes, nat>, done: set<Bytes>, ref: Bytes, t: Token)
    requires TokensRecorded(undo, heights, done) && ref in heights && ref !in done && GoodToken(cbor, ref, t)
    requires RecordedMore(undo, undo', heights[ref], TokenKeys(cbor, db, ref, t))
    ensures TokensRecorded(undo', heights, done + {ref})
  {
    hide At, IsDiscovery, DiscoveryRows, Tracked, Cbor.RowsOf, TokenPuts;
    var ks := TokenKeys(cbor, db, ref, t);
    TokenPutsGet(cbor, ref, t, []);
    assert TokenKey(ref) in ks;
    forall k | k in ks
      ensures IsDiscovery(k) ==> RefOf(k) == ref
      ensures forall r :: k == TokenKey(r) ==> r == ref
    {
      TokenKeysFacts(cbor, db, ref, t, k);
    }
  }

  lemma TokenKeysFacts(cbor: Cbor, db: Table, ref: Bytes, t: Token, k: Bytes)
    requires k in TokenKeys(cbor, db, ref, t) && GoodToken(cbor, ref, t)
    ensures Tracked(k) && |k| < 0x1_0000 && Kind(k) in TOKEN_KINDS
    ensures IsDiscovery(k) ==> RefOf(k) == ref
    ensures forall r :: k == TokenKey(r) ==> r == ref
  {
    hide Tracked, DiscoveryRows, TokenPuts, InvHeight;
    if k in cbor.RowsOf(db, ref) {
      var old' := cbor.loads(db[TokenKey(ref)]).value;
      DiscoveryKeyFacts(ref, old', k);
    } else {
      TokenPutsFacts(cbor, ref, t, k);
      if IsDiscovery(k) {
        DiscoveryKeyFacts(ref, t, k);
      }
    }
    forall r | k == TokenKey(r)
      ensures r == ref
    {
      TokenKeyFacts(r);
      TokenKeyFacts(ref);
    }
  }

  lemma TokenStep(
      cbor: Cbor, db: Table, batch: Batch, undo: Undo, undo': Undo, tokens: map<Bytes, Token>, heights: map<Bytes, nat>,
      done: set<Bytes>, ref: Bytes)
    requires TokensIn(cbor, db, batch, undo, tokens, heights, done) && cbor.Derived(db)
    requires ref in tokens && ref in heights && ref !in done && GoodToken(cbor, ref, tokens[ref])
    requires RecordedMore(undo, undo', heights[ref], TokenKeys(cbor, db, ref, tokens[ref]))
    ensures TokensIn(cbor, db, TokenBatch(cbor, db, batch, ref, tokens[ref]), undo', tokens, heights, done + {ref})
  {
    hide TokensRecorded, TokenRowsIn, RecordedMore, TokenBatch, Cbor.Derived;
    TokenRecordedStep(cbor, db, undo, undo', heights, done, ref, tokens[ref]);
    TokenRowsStep(cbor, db, batch, tokens, done, ref);
  }

  lemma TokenRowsStep(cbor: Cbor, db: Table, batch: Batch, tokens: map<Bytes, Token>, done: set<Bytes>, ref: Bytes)
    requires TokenRowsIn(cbor, db, batch, tokens, done) && cbor.Derived(db)
    requires ref in tokens && ref !in done && GoodToken(cbor, ref, tokens[ref])
    ensures TokenRowsIn(cbor, db, TokenBatch(cbor, db, batch, ref, tokens[ref]), tokens, done + {ref})
  {
    hide IsDiscovery, DiscoveryRows, Cbor.RowsOf, TokenPuts, TokenKey, RefOf, TokenBatch, TokenKeys, Cbor.Derived;
    var t := tokens[ref];
    var batch' := TokenBatch(cbor, db, batch, ref, t);
    forall k
      ensures k in batch && k !in batch' ==> false
      ensures IsDiscovery(k) && RefOf(k) == ref ==> Pending(db, batch', k) == Get(DiscoveryRows(ref, t), k)
      ensures k in batch' && k !in batch ==> (IsDiscovery(k) ==> RefOf(k) == ref) && forall r :: k == TokenKey(r) ==> r == ref
      ensures IsDiscovery(k) && RefOf(k) != ref ==> Pending(db, batch', k) == Pending(db, batch, k)
    {
      TokenBatchAt(cbor, db, batch, ref, t, k);
    }
    forall r
      ensures r == ref ==> TokenKey(r) in batch' && batch'[TokenKey(r)] == Some(cbor.dumps(t))
      ensures r != ref ==> (TokenKey(r) in batch' <==> TokenKey(r) in batch)
      ensures r != ref && TokenKey(r) in batch ==> batch'[TokenKey(r)] == batch[TokenKey(r)]
    {
      TokenBatchAt(cbor, db, batch, ref, t, TokenKey(r));
    }
  }

  lemma TokenBatchAt(cbor: Cbor, db: Table, batch: Batch, ref: Bytes, t: Token, k: Bytes)
    requires GoodToken(cbor, ref, t) && cbor.Derived(db)
    ensures var batch' := TokenBatch(cbor, db, batch, ref, t);
            && (k in batch' <==> k in batch || k in TokenKeys(cbor, db, ref, t))
            && (k !in TokenKeys(cbor, db, ref, t) && k in batch ==> batch'[k] == batch[k])
            && (k in TokenKeys(cbor, db, ref, t) ==>
                  (IsDiscovery(k) ==> RefOf(k) == ref) && forall r :: k == TokenKey(r) ==> r == ref)
            && (IsDiscovery(k) && RefOf(k) == ref ==>
                  Pending(db, batch', k) == if k in TokenKeys(cbor, db, ref, t) then Get(DiscoveryRows(ref, t), k) else Pending(db, batch, k))
            && (IsDiscovery(k) && RefOf(k) == ref && k !in TokenKeys(cbor, db, ref, t) ==>
                  Get(DiscoveryRows(ref, t), k) == None == Get(db, k))
            && (k == TokenKey(ref) ==> k in batch' && batch'[k] == Some(cbor.dumps(t)))
  {
    hide IsDiscovery, DiscoveryRows, Tracked, Cbor.RowsOf, TokenPuts, TokenKey, RefOf;
    TokenPutsGet(cbor, ref, t, k);
    if k in TokenKeys(cbor, db, ref, t) {
      TokenKeysFacts(cbor, db, ref, t, k);
    }
    if IsDiscovery(k) {
      assert Get(db, k) == Get(cbor.RowsOf(db, RefOf(k)), k);
    }
  }

  /** When all cached tokens are in the batch, committing it gives derived rows. */
  lemma TokensDerived(
      cbor: Cbor, db: Table, batch: Batch, undo: Undo, tokens: map<Bytes, Token>, heights: map<Bytes, nat>, done: set<Bytes>)
    requires TokensIn(cbor, db, batch, undo, tokens, heights, done) && cbor.Derived(db) && cbor.RoundTrips()
    ensures cbor.Derived(Commit(db, batch))
  {
    hide HasKey, IsDiscovery, DiscoveryRows, Tracked, At, TokensRecorded, TokenKey, RefOf, Cbor.RowsOf;
    var db' := Commit(db, batch);
    forall k | IsDiscovery(k)
      ensures Get(db', k) == Get(cbor.RowsOf(db', RefOf(k)), k)
    {
      var ref := RefOf(k);
      assert Get(db', TokenKey(ref)) == Pending(db, batch, TokenKey(ref));
      if ref in done {
        RowsOfNew(cbor, db', ref, tokens[ref]);
      } else {
        assert TokenKey(ref) !in batch;
        SameRowsOf(cbor, db, db', ref);
      }
    }
  }

  lemma RowsOfNew(cbor: Cbor, db: Table, ref: Bytes, t: Token)
    requires Get(db, TokenKey(ref)) == Some(cbor.dumps(t)) && cbor.RoundTrips()
    ensures cbor.RowsOf(db, ref) == DiscoveryRows(ref, t)
  {
  }

  lemma MoreTwice(a: Undo, b: Undo, c: Undo, h: nat, ks: set<Bytes>, ks': set<Bytes>)
    requires RecordedMore(a, b, h, ks) && RecordedMore(b, c, h, ks')
    ensures RecordedMore(a, c, h, ks + ks')
  {
    hide HasKey, At;
  }

  lemma PutAllTwice(batch: Batch, m: Table, n: Table)
    ensures PutAll(PutAll(batch, m), n) == PutAll(batch, m + n)
  {
    var twice, once := PutAll(PutAll(batch, m), n), PutAll(batch, m + n);
    forall k
      ensures InBatch(twice, k) == InBatch(once, k)
    {
    }
    SameBatch(twice, once);
  }

  lemma SameBatch(a: Batch, b: Batch)
    requires forall k :: InBatch(a, k) == InBatch(b, k)
    ensures a == b
  {
    forall k
      ensures k in a <==> k in b
      ensures k in a ==> a[k] == b[k]
    {
      assert InBatch(a, k) == InBatch(b, k);
    }
  }

  // ----- Keeping the stages of a flush apart -----

  function InBatch(batch: Batch, k: Bytes): Option<Option<Bytes>> {
    if k in batch then Some(batch[k]) else None
  }

  ghost predicate SameOutside(a: Batch, b: Batch, kinds: set<int>) {
    forall k :: Kind(k) !in kinds ==> InBatch(a, k) == InBatch(b, k)
  }

  /** Entries were only added, for keys of these kinds. */
  ghost predicate GrownBy(undo: Undo, undo': Undo, kinds: set<int>) {
    forall h: nat, k {:trigger At(undo', h, k)} {:trigger At(undo, h, k)} ::
      (At(undo, h, k) ==> At(undo', h, k)) && (At(undo', h, k) && !At(undo, h, k) ==> Kind(k) in kinds)
  }

  lemma GrownMore(undo: Undo, undo': Undo, undo'': Undo, h: nat, ks: set<Bytes>, kinds: set<int>)
    requires GrownBy(undo, undo', kinds) && RecordedMore(undo', undo'', h, ks)
    requires forall k :: k in ks ==> Kind(k) in kinds
    ensures GrownBy(undo, undo'', kinds)
  {
    hide HasKey, At;
  }

  lemma GrownCovers(batch: Batch, undo: Undo, undo': Undo, kinds: set<int>)
    requires Covered(batch, undo) && GrownBy(undo, undo', kinds)
    ensures Covered(batch, undo')
  {
    hide HasKey, At, Recorded, Tracked;
    forall k | k in batch && Tracked(k)
      ensures Recorded(undo', k) && Small(batch[k])
    {
      RecordedAt(undo, k);
      RecordedAt(undo', k);
      var h: nat :| At(undo, h, k);
      assert At(undo', h, k);
    }
  }

  lemma FamilyKind(k: Bytes, kinds: set<int>)
    requires kinds <= BALANCE_KINDS + OTHER_KINDS + {79, 88}
    ensures IsDiscovery(k) || Kind(k) == 84 ==> Kind(k) !in kinds
  {
    hide Kind;
  }

  lemma TokensRecordedFrame(
      undo: Undo, undo': Undo, heights: map<Bytes, nat>, done: set<Bytes>, kinds: set<int>)
    requires TokensRecorded(undo, heights, done) && GrownBy(undo, undo', kinds)
    requires kinds <= BALANCE_KINDS + OTHER_KINDS + {79, 88}
    ensures TokensRecorded(undo', heights, done)
  {
    hide HasKey, At, RefOf, TokenKey, Kind, IsDiscovery;
    forall h: nat, k | At(undo', h, k) && (IsDiscovery(k) || Kind(k) == 84)
      ensures At(undo, h, k)
    {
      FamilyKind(k, kinds);
    }
    forall h: nat, ref | At(undo', h, TokenKey(ref))
      ensures At(undo, h, TokenKey(ref))
    {
      TokenKeyFacts(ref);
    }
  }

  lemma TokensFrame(
      cbor: Cbor, db: Table, batch: Batch, batch': Batch, undo: Undo, undo': Undo,
      tokens: map<Bytes, Token>, heights: map<Bytes, nat>, done: set<Bytes>, kinds: set<int>)
    requires TokensIn(cbor, db, batch, undo, tokens, heights, done)
    requires SameOutside(batch, batch', kinds) && GrownBy(undo, undo', kinds)
    requires kinds <= BALANCE_KINDS + OTHER_KINDS + {79, 88}
    ensures TokensIn(cbor, db, batch', undo', tokens, heights, done)
  {
    hide GrownBy, TokensRecorded, TokenRowsIn, SameOutside;
    TokensRecordedFrame(undo, undo', heights, done, kinds);
    TokenRowsFrame(cbor, db, batch, batch', tokens, done, kinds);
  }

  lemma TokenRowsFrame(
      cbor: Cbor, db: Table, batch: Batch, batch': Batch, tokens: map<Bytes, Token>, done: set<Bytes>, kinds: set<int>)
    requires TokenRowsIn(cbor, db, batch, tokens, done) && SameOutside(batch, batch', kinds)
    requires kinds <= BALANCE_KINDS + OTHER_KINDS + {79, 88}
    ensures TokenRowsIn(cbor, db, batch', tokens, done)
  {
    hide RefOf, TokenKey, Kind, IsDiscovery, DiscoveryRows;
    forall k | IsDiscovery(k)
      ensures InBatch(batch, k) == InBatch(batch', k)
    {
      FamilyKind(k, kinds);
    }
    forall ref
      ensures InBatch(batch, TokenKey(ref)) == InBatch(batch', TokenKey(ref))
    {
      TokenKeyFacts(ref);
      FamilyKind(TokenKey(ref), kinds);
    }
    forall k | IsDiscovery(k) && RefOf(k) in done
      ensures Pending(db, batch', k) == Get(DiscoveryRows(RefOf(k), tokens[RefOf(k)]), k)
    {
      assert Pending(db, batch, k) == Get(DiscoveryRows(RefOf(k), tokens[RefOf(k)]), k);
      assert InBatch(batch, k) == InBatch(batch', k);
    }
  }

  // ----- Balances -----

  /** What the cache and the pending deletes plan for a balance row. */
  function Planned(cache: map<Bytes, nat>, deletes: set<Bytes>, k: Bytes): Option<Option<Bytes>> {
    if k in cache then Some(Some(LE(cache[k], 8))) else if k in deletes then Some(None) else None
  }

  /** The rows planned, and their mirrors, are in the batch, and no other. */
  ghost predicate BalancesIn(batch: Batch, cache: map<Bytes, nat>, deletes: set<Bytes>) {
    forall k :: IsBalanceKey(k) ==>
      InBatch(batch, k) == Planned(cache, deletes, k) && InBatch(batch, Mirror(k)) == Planned(cache, deletes, k)
  }

  /** Cached balances are positive and fit eight bytes, and all changed rows are recorded. */
  ghost predicate BalancesOk(cache: map<Bytes, nat>, deletes: set<Bytes>, undo: Undo) {
    && (forall k :: k in cache ==>
          && IsBalanceKey(k) && 0 < cache[k] < Range(8) && k !in deletes
          && Recorded(undo, k) && Recorded(undo, Mirror(k)))
    && (forall k :: k in deletes ==> IsBalanceKey(k) && Recorded(undo, k) && Recorded(undo, Mirror(k)))
  }

  lemma AmountRow(n: nat)
    requires 0 < n < Range(8)
    ensures IsAmount(LE(n, 8)) && FromLE(LE(n, 8)) == n
  {
    FromLeOfLe(n, 8);
  }

  /** After the commit the rows hold the balances as seen before it. */
  lemma BalancesCommitted(db: Table, batch: Batch, cache: map<Bytes, nat>, deletes: set<Bytes>, undo: Undo)
    requires BalancesIn(batch, cache, deletes) && BalancesOk(cache, deletes, undo) && Mirrored(db) && Positive(db)
    ensures Mirrored(Commit(db, batch)) && Positive(Commit(db, batch))
    ensures forall k :: IsBalanceKey(k) ==> Stored(Commit(db, batch), k) == View(cache, deletes, db, k)
  {
    hide IsBalanceKey, Mirror, Recorded, IsAmount, LE, FromLE, Range;
    var db' := Commit(db, batch);
    forall k | IsBalanceKey(k)
      ensures Get(db', Mirror(k)) == Get(db', k) && (k in db' ==> IsAmount(db'[k]))
      ensures Stored(db', k) == View(cache, deletes, db, k)
    {
      assert Get(db', k) == Pending(db, batch, k) && Get(db', Mirror(k)) == Pending(db, batch, Mirror(k));
      assert InBatch(batch, k) == Planned(cache, deletes, k) == InBatch(batch, Mirror(k));
      assert Get(db, Mirror(k)) == Get(db, k);
      if k in cache {
        AmountRow(cache[k]);
      }
    }
  }

  lemma RecordPair(undo: Undo, undo': Undo, h: nat, k: Bytes)
    requires IsBalanceKey(k) && RecordedMore(undo, undo', h, {k, Mirror(k)}) && Paired(undo)
    ensures Paired(undo') && GrownBy(undo, undo', BALANCE_KINDS)
    ensures Recorded(undo', k) && Recorded(undo', Mirror(k))
  {
    hide HasKey, At, IsBalanceKey, Mirror, Recorded;
    KeyOfBalance(k);
    RecordedGrows(undo, undo', h, {k, Mirror(k)});
    forall h': nat, k' | IsBalanceKey(k')
      ensures At(undo', h', k') <==> At(undo', h', Mirror(k'))
    {
      MirrorsDiffer(k, k');
      KeyOfBalance(k');
      assert At(undo, h', k') <==> At(undo, h', Mirror(k'));
    }
  }

  lemma PairedOutside(undo: Undo, undo': Undo, kinds: set<int>)
    requires Paired(undo) && GrownBy(undo, undo', kinds) && kinds !! BALANCE_KINDS
    ensures Paired(undo')
  {
    hide HasKey, At, IsBalanceKey, Mirror;
    forall h: nat, k | IsBalanceKey(k)
      ensures At(undo', h, k) <==> At(undo', h, Mirror(k))
    {
      KeyOfBalance(k);
      assert At(undo, h, k) <==> At(undo, h, Mirror(k));
    }
  }

  lemma BalancesKept(
      cache: map<Bytes, nat>, deletes: set<Bytes>, undo: Undo, undo': Undo, key: Bytes, holderKey: Bytes)
    requires BalancesOk(cache, deletes, undo)
    requires forall k :: Recorded(undo', k) <==> Recorded(undo, k) || k == key || k == holderKey
    ensures BalancesOk(cache, deletes, undo')
  {
    hide Recorded, IsBalanceKey, Mirror, Range;
  }

  lemma OnlyKinds(undo: Undo, undo': Undo, kinds: set<int>)
    requires GrownBy(undo, undo', kinds)
    requires forall h: nat, k :: At(undo, h, k) ==> Kind(k) in kinds
    ensures forall h: nat, k :: At(undo', h, k) ==> Kind(k) in kinds
  {
    hide At, Kind;
  }

  lemma SmallToken(cbor: Cbor, ref: Bytes, t: Token, k: Bytes)
    requires GoodToken(cbor, ref, t)
    ensures k in TokenPuts(cbor, ref, t) ==> Small(Some(TokenPuts(cbor, ref, t)[k]))
  {
    hide DiscoveryRows, Tracked;
    if k in DiscoveryRows(ref, t) {
      DiscoveryKeyFacts(ref, t, k);
    }
  }

  lemma TokenStageStep(
      cbor: Cbor, db: Table, batch0: Batch, batch: Batch, undo0: Undo, undo: Undo, undo': Undo, h: nat, ref: Bytes, t: Token)
    requires GoodToken(cbor, ref, t) && Covered(batch, undo) && SameOutside(batch0, batch, TOKEN_KINDS)
    requires GrownBy(undo0, undo, TOKEN_KINDS) && RecordedMore(undo, undo', h, TokenKeys(cbor, db, ref, t))
    ensures var batch' := TokenBatch(cbor, db, batch, ref, t);
            && Covered(batch', undo') && SameOutside(batch0, batch', TOKEN_KINDS)
    ensures GrownBy(undo0, undo', TOKEN_KINDS)
  {
    hide At, Kind, Tracked, Recorded, Cbor.RowsOf, TokenPuts;
    var ks := TokenKeys(cbor, db, ref, t);
    forall k | k in ks
      ensures Kind(k) in TOKEN_KINDS && (k in TokenPuts(cbor, ref, t) ==> Small(Some(TokenPuts(cbor, ref, t)[k])))
    {
      TokenKeysFacts(cbor, db, ref, t, k);
      SmallToken(cbor, ref, t, k);
    }
    RecordedGrows(undo, undo', h, ks);
    GrownMore(undo0, undo, undo', h, ks, TOKEN_KINDS);
  }

  lemma GrownTwice(a: Undo, b: Undo, c: Undo, kinds: set<int>, kinds': set<int>)
    requires GrownBy(a, b, kinds) && GrownBy(b, c, kinds')
    ensures GrownBy(a, c, kinds + kinds')
  {
    hide At, Kind;
  }

  lemma BalancesGrown(cache: map<Bytes, nat>, deletes: set<Bytes>, undo: Undo, undo': Undo, kinds: set<int>)
    requires BalancesOk(cache, deletes, undo) && GrownBy(undo, undo', kinds)
    ensures BalancesOk(cache, deletes, undo')
  {
    hide At, IsBalanceKey, Mirror, Range, Recorded;
    forall k | Recorded(undo, k)
      ensures Recorded(undo', k)
    {
      RecordedAt(undo, k);
      RecordedAt(undo', k);
      var h: nat :| At(undo, h, k);
      assert At(undo', h, k);
    }
  }

  lemma BalancesFrame(batch: Batch, batch': Batch, cache: map<Bytes, nat>, deletes: set<Bytes>, kinds: set<int>)
    requires BalancesIn(batch, cache, deletes) && SameOutside(batch, batch', kinds) && kinds !! BALANCE_KINDS
    ensures BalancesIn(batch', cache, deletes)
  {
    hide IsBalanceKey, Mirror, Kind;
    forall k | IsBalanceKey(k)
      ensures InBatch(batch', k) == Planned(cache, deletes, k) && InBatch(batch', Mirror(k)) == Planned(cache, deletes, k)
    {
      KeyOfBalance(k);
      assert InBatch(batch, k) == Planned(cache, deletes, k) && InBatch(batch, Mirror(k)) == Planned(cache, deletes, k);
    }
  }

  /** Rows that are not tracked do not matter. */
  lemma CoveredOutside(batch: Batch, batch': Batch, undo: Undo)
    requires Covered(batch, undo) && forall k :: Tracked(k) ==> InBatch(batch', k) == InBatch(batch, k)
    ensures Covered(batch', undo)
  {
    hide Recorded, Tracked;
    forall k | k in batch' && Tracked(k)
      ensures Recorded(undo, k) && Small(batch'[k])
    {
      assert InBatch(batch', k) == InBatch(batch, k);
    }
  }

  lemma OwnersUntracked(batch: Batch, batch': Batch)
    requires SameOutside(batch, batch', {79})
    ensures forall k :: Tracked(k) ==> InBatch(batch', k) == InBatch(batch, k)
  {
    forall k | Tracked(k)
      ensures Kind(k) != 79
    {
    }
  }

  lemma GrownWider(undo: Undo, undo': Undo, kinds: set<int>, kinds': set<int>)
    requires GrownBy(undo, undo', kinds) && kinds <= kinds'
    ensures GrownBy(undo, undo', kinds')
  {
    hide At, Kind;
  }

  // ----- Which balances move at which height -----

  /** What is cached about balances, with the undo entries. */
  datatype Books = Books(undo: Undo, cache: map<Bytes, nat>, deletes: set<Bytes>) {
    function At(db: Table, k: Bytes): nat {
      View(cache, deletes, db, k)
    }
  }

  /** Entries were only added at `height`, and balances without an entry there did not move. */
  ghost predicate Steady(a: Books, b: Books, db: Table, height: nat) {
    && (forall h: nat, k {:trigger At(b.undo, h, k)} {:trigger At(a.undo, h, k)} ::
          (At(a.undo, h, k) ==> At(b.undo, h, k)) && (At(b.undo, h, k) && !At(a.undo, h, k) ==> h == height))
    && (forall k :: IsBalanceKey(k) && !At(b.undo, height, k) ==> b.At(db, k) == a.At(db, k))
  }

  lemma SteadySame(a: Books, db: Table, height: nat)
    ensures Steady(a, a, db, height)
  {
  }

  lemma SteadyTwice(a: Books, b: Books, c: Books, db: Table, height: nat)
    requires Steady(a, b, db, height) && Steady(b, c, db, height)
    ensures Steady(a, c, db, height)
  {
    hide Discovery.At, IsBalanceKey, Books.At;
    forall k | IsBalanceKey(k) && !At(c.undo, height, k)
      ensures c.At(db, k) == a.At(db, k)
    {
      assert !At(b.undo, height, k);
    }
  }

  lemma SteadyUpdate(a: Books, b: Books, db: Table, height: nat, key: Bytes)
    requires IsBalanceKey(key) && RecordedMore(a.undo, b.undo, height, {key, Mirror(key)})
    requires forall k :: k != key ==> b.At(db, k) == a.At(db, k)
    ensures Steady(a, b, db, height)
  {
    hide Discovery.At, IsBalanceKey, Books.At, Mirror;
    assert At(b.undo, height, key);
  }

  /** Zeroed balances are recorded at the height committed, and no other balance is. */
  ghost predicate DeletesRecorded(undo: Undo, undo': Undo, height: nat, done: set<Bytes>) {
    forall h: nat, k :: IsBalanceKey(k) ==> (At(undo', h, k) <==> At(undo, h, k) || (h == height && k in done))
  }

  lemma DeletesRecordedStep(undo: Undo, undo1: Undo, undo2: Undo, height: nat, done: set<Bytes>, key: Bytes)
    requires DeletesRecorded(undo, undo1, height, done) && IsBalanceKey(key)
    requires RecordedMore(undo1, undo2, height, {key, Mirror(key)})
    ensures DeletesRecorded(undo, undo2, height, done + {key})
  {
    hide Discovery.At, IsBalanceKey, Mirror, Kind;
    KeyOfBalance(key);
    forall h: nat, k | IsBalanceKey(k)
      ensures At(undo2, h, k) <==> At(undo, h, k) || (h == height && k in done + {key})
    {
      KeyOfBalance(k);
    }
  }

  lemma DeletesRecordedFrame(undo0: Undo, undo1: Undo, undo2: Undo, undo3: Undo, height: nat, done: set<Bytes>)
    requires GrownBy(undo0, undo1, TOKEN_KINDS) && DeletesRecorded(undo1, undo2, height, done) && GrownBy(undo2, undo3, OTHER_KINDS)
    ensures DeletesRecorded(undo0, undo3, height, done)
  {
    hide Discovery.At, IsBalanceKey, Kind;
    forall h: nat, k | IsBalanceKey(k)
      ensures At(undo3, h, k) <==> At(undo0, h, k) || (h == height && k in done)
    {
      KeyOfBalance(k);
    }
  }

  /** A balance was updated above `j`, or is to be removed above `j` by the flush at `hi`. */
  predicate MovedAbove(undo: Undo, deletes: set<Bytes>, j: int, hi: int, k: Bytes) {
    RecordedAbove(undo, j, k) || (k in deletes && j < hi)
  }

  lemma MovedIsRecorded(undo: Undo, undo': Undo, deletes: set<Bytes>, j: int, hi: nat, k: Bytes)
    requires DeletesRecorded(undo, undo', hi, deletes) && IsBalanceKey(k)
    ensures RecordedAbove(undo', j, k) <==> MovedAbove(undo, deletes, j, hi, k)
  {
    hide IsBalanceKey, HasKey;
    if RecordedAbove(undo', j, k) {
      var h :| h in undo' && h > j && HasKey(undo'[h], k);
      assert At(undo', h, k);
      if At(undo, h, k) {
        assert h in undo && h > j && HasKey(undo[h], k);
      }
    }
    if RecordedAbove(undo, j, k) {
      var h :| h in undo && h > j && HasKey(undo[h], k);
      assert At(undo, h, k);
      assert At(undo', h, k);
    }
    if k in deletes && j < hi {
      assert At(undo', hi, k);
    }
  }

  /** What backing up to a height inside the window gives for every balance: the amount from before
      the window if it moved above that height, else the amount flushed. */
  ghost predicate WindowBalances(db: Table, db': Table, books: Books, lo: int, hi: int) {
    forall j, k {:trigger MovedAbove(books.undo, books.deletes, j, hi, k)} :: -1 <= j && lo <= j <= hi && IsBalanceKey(k) ==>
      Stored(Unwind(db', hi, j), k) == if MovedAbove(books.undo, books.deletes, j, hi, k) then Stored(db, k) else books.At(db, k)
  }

  lemma WindowBalancesAre(db: Table, db': Table, books: Books, undo': Undo, lo: int, hi: nat, floor: int)
    requires FlushedOnto(db, db', undo', lo, hi, floor) && -1 <= lo <= hi && Height(hi)
    requires DeletesRecorded(books.undo, undo', hi, books.deletes)
    requires forall k :: IsBalanceKey(k) ==> Stored(db', k) == books.At(db, k)
    ensures WindowBalances(db, db', books, lo, hi)
  {
    hide FlushedOnto, Unwind, IsBalanceKey, FromLE, DeletesRecorded, RecordedAbove, Books.At, UndoKey, Tracked;
    forall j, k | lo <= j <= hi && IsBalanceKey(k)
      ensures Stored(Unwind(db', hi, j), k)
              == if MovedAbove(books.undo, books.deletes, j, hi, k) then Stored(db, k) else books.At(db, k)
    {
      KeyOfBalance(k);
      MovedIsRecorded(books.undo, undo', books.deletes, j, hi, k);
      BetweenTop(db, db', undo', lo, hi, floor);
      UnwindBetween(db, db', undo', lo, j, hi, hi, floor, db');
      assert Get(Unwind(db', hi, j), k) == if RecordedAbove(undo', j, k) then Get(db, k) else Get(db', k);
    }
  }
}
