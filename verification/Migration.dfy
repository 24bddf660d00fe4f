/** The in-place migration that backfills the discovery rows page by page
    (`_migrate_3_to_4` of electrumx/server/glyph_index.py). */
module Migration {
  import opened ByteStrings
  import opened UndoCodec
  import opened Overlay
  import opened Discovery
  import opened Balances
  import opened GlyphBatches
  import opened GlyphIndexes
  import opened Storage

  /** The keys of the database in order, as the engine keeps them. */
  ghost predicate KeysOf(keys: seq<Bytes>, db: Table) {
    Sorted(keys) && forall k :: k in keys <==> k in db
  }

  function Insert(keys: seq<Bytes>, k: Bytes): (r: seq<Bytes>)
    ensures forall x :: x in r <==> x in keys || x == k
  {
    if keys == [] then [k]
    else
      assert keys == [keys[0]] + keys[1..];
      if Lt(k, keys[0]) then [k] + keys
      else if k == keys[0] then keys
      else [keys[0]] + Insert(keys[1..], k)
  }

  lemma {:induction false} InsertSorted(keys: seq<Bytes>, k: Bytes)
    requires Sorted(keys)
    ensures Sorted(Insert(keys, k))
  {
    hide Lt;
    if keys != [] {
      var rest := keys[1..];
      LtTotal(k, keys[0]);
      if Lt(k, keys[0]) {
        forall i | 0 <= i < |keys|
          ensures Lt(k, keys[i])
        {
          if i > 0 {
            LtTransitive(k, keys[0], keys[i]);
          }
        }
      } else if k != keys[0] {
        InsertSorted(rest, k);
        var r := Insert(rest, k);
        forall i | 0 <= i < |r|
          ensures Lt(keys[0], r[i])
        {
          assert r[i] in rest || r[i] == k;
        }
      }
    }
  }

  method SortedKeys(db: Table) returns (keys: seq<Bytes>)
    ensures KeysOf(keys, db)
  {
    hide Lt, Sorted;
    keys := [];
    EmptySorted();
    var todo := db.Keys;
    while todo != {}
      invariant todo <= db.Keys && Sorted(keys) && forall k :: k in keys <==> k in db && k !in todo
    {
      var k :| k in todo;
      InsertSorted(keys, k);
      keys := Insert(keys, k);
      todo := todo - {k};
    }
  }

  lemma EmptySorted()
    ensures Sorted([])
  {
  }

  /** A sorted list is determined by its elements. */
  lemma {:induction false} SortedUnique(a: seq<Bytes>, b: seq<Bytes>)
    requires Sorted(a) && Sorted(b) && forall k :: k in a <==> k in b
    ensures a == b
  {
    hide Lt;
    assert a != [] ==> a[0] in b;
    assert b != [] ==> b[0] in a;
    if a != [] && b != [] {
      SameHead(a, b);
      var s, t := a[1..], b[1..];
      forall k
        ensures k in s <==> k in t
      {
        TailElements(a, k);
        TailElements(b, k);
      }
      assert forall i :: 0 <= i < |s| ==> s[i] == a[i + 1];
      assert forall i :: 0 <= i < |t| ==> t[i] == b[i + 1];
      SortedUnique(s, t);
      assert a == [a[0]] + s && b == [b[0]] + t;
    }
  }

  lemma SameHead(a: seq<Bytes>, b: seq<Bytes>)
    requires Sorted(a) && Sorted(b) && a != [] && b != [] && a[0] in b && b[0] in a
    ensures a[0] == b[0]
  {
    hide Lt;
    var i :| 0 <= i < |b| && b[i] == a[0];
    var j :| 0 <= j < |a| && a[j] == b[0];
    if a[0] != b[0] {
      LtLe(a[0], b[0]);
    }
  }

  lemma TailElements(a: seq<Bytes>, k: Bytes)
    requires Sorted(a) && a != []
    ensures k in a[1..] <==> k in a && k != a[0]
  {
    hide Lt;
    LtIrreflexive(a[0]);
    assert a == [a[0]] + a[1..];
    if k in a[1..] {
      var i :| 0 <= i < |a[1..]| && a[1..][i] == k;
      assert Lt(a[0], a[i + 1]);
    }
  }

  // ----- Paging over the token rows -----

  /** The token rows from a seek key on depend on the token rows only. */
  lemma SameTokenScan(db: Table, db': Table, keys: seq<Bytes>, keys': seq<Bytes>, seek: Bytes)
    requires KeysOf(keys, db) && KeysOf(keys', db') && forall k :: StartsWith(k, TOKEN) ==> (k in db <==> k in db')
    ensures ScanUp(keys, TOKEN, seek) == ScanUp(keys', TOKEN, seek)
  {
    hide Lt, StartsWith, RunUp, ParkUp;
    UpIsScan(keys, TOKEN, seek);
    UpIsScan(keys', TOKEN, seek);
    SortedUnique(ScanUp(keys, TOKEN, seek), ScanUp(keys', TOKEN, seek));
  }

  /** A zero byte appended gives the next possible key. */
  lemma {:induction false} NextKey(k: Bytes, x: Bytes)
    ensures Le(k + [0], x) <==> Lt(k, x)
  {
    if k == [] {
      assert k + [0] == [0] && [0][1..] == [];
      if x != [] && x[0] == 0 {
        if |x| == 1 {
          assert x == [0];
        } else {
          assert Lt([0][1..], x[1..]);
        }
      }
    } else if x != [] && x[0] == k[0] {
      assert (k + [0])[1..] == k[1..] + [0];
      NextKey(k[1..], x[1..]);
      assert x == [x[0]] + x[1..] && k + [0] == [k[0]] + (k[1..] + [0]);
    }
  }

  /** The scan that resumes after a row is the rest of the scan. */
  lemma ResumeAfter(keys: seq<Bytes>, n: nat)
    requires Sorted(keys) && 0 < n <= |ScanUp(keys, TOKEN, TOKEN)|
    ensures ScanUp(keys, TOKEN, ScanUp(keys, TOKEN, TOKEN)[n - 1] + [0]) == ScanUp(keys, TOKEN, TOKEN)[n..]
  {
    hide Lt, StartsWith, RunUp, ParkUp, TOKEN;
    var rows := ScanUp(keys, TOKEN, TOKEN);
    var last := rows[n - 1];
    var seek := last + [0];
    UpIsScan(keys, TOKEN, TOKEN);
    UpIsScan(keys, TOKEN, seek);
    assert last in rows;
    PrefixLe(last, TOKEN);
    NextKey(last, seek);
    LtAppend(last);
    LeTransitive(TOKEN, last, seek);
    var rest := rows[n..];
    forall k
      ensures k in rest <==> k in rows && Le(seek, k)
    {
      RestElements(rows, n, k);
      NextKey(last, k);
    }
    forall k
      ensures k in rows <==> k in keys && StartsWith(k, TOKEN)
    {
      if StartsWith(k, TOKEN) {
        PrefixLe(k, TOKEN);
      }
    }
    assert forall i :: 0 <= i < |rest| ==> rest[i] == rows[n + i];
    SortedUnique(ScanUp(keys, TOKEN, seek), rest);
  }

  lemma {:induction false} LtAppend(k: Bytes)
    ensures Lt(k, k + [0])
  {
    if k != [] {
      assert (k + [0])[1..] == k[1..] + [0];
      LtAppend(k[1..]);
    }
  }

  lemma RestElements(rows: seq<Bytes>, n: nat, k: Bytes)
    requires Sorted(rows) && 0 < n <= |rows|
    ensures k in rows[n..] <==> k in rows && Lt(rows[n - 1], k)
  {
    hide Lt;
    if k in rows[n..] {
      var i :| 0 <= i < |rows[n..]| && rows[n..][i] == k;
      assert rows[n + i] == k;
    }
    if k in rows && Lt(rows[n - 1], k) {
      var i :| 0 <= i < |rows| && rows[i] == k;
      if i < n {
        SortedAt(rows, i, n - 1);
        LtLe(rows[n - 1], k);
      }
      assert rows[n..][i - n] == k;
    }
  }

  // ----- What one token adds -----

  /** The row of a token that has a ref of the right length and can be read. */
  predicate Readable(cbor: Cbor, db: Table, k: Bytes) {
    k in db && StartsWith(k, TOKEN) && |k| == 2 + REF_LEN && cbor.loads(db[k]).Some?
  }

  function Count(cbor: Cbor, db: Table, rows: seq<Bytes>): nat {
    if rows == [] then 0
    else Count(cbor, db, rows[..|rows| - 1]) + if Readable(cbor, db, rows[|rows| - 1]) then 1 else 0
  }

  /** The tables with the discovery rows of the tokens in `rows` added; nothing else differs. */
  ghost predicate Backfilled(cbor: Cbor, db0: Table, db: Table, rows: seq<Bytes>) {
    forall k :: Get(db, k) ==
      if IsDiscovery(k) && |RefOf(k)| == REF_LEN && TokenKey(RefOf(k)) in rows && k in cbor.RowsOf(db0, RefOf(k))
      then Get(cbor.RowsOf(db0, RefOf(k)), k) else Get(db0, k)
  }

  lemma BackfillOne(cbor: Cbor, db0: Table, db: Table, rows: seq<Bytes>, key: Bytes)
    requires Backfilled(cbor, db0, db, rows) && key in db0 && StartsWith(key, TOKEN)
    ensures Readable(cbor, db0, key) ==>
              Backfilled(cbor, db0, db + DiscoveryRows(key[2..], cbor.loads(db0[key]).value), rows + [key])
    ensures !Readable(cbor, db0, key) ==> Backfilled(cbor, db0, db, rows + [key])
  {
    hide IsDiscovery, DiscoveryRows, RefOf;
    var ref := key[2..];
    assert key == TokenKey(ref);
    assert rows + [key] == rows + [TokenKey(ref)];
    forall r
      ensures TokenKey(r) in rows + [key] <==> TokenKey(r) in rows || r == ref
    {
      TokenKeyFacts(r);
      TokenKeyFacts(ref);
    }
    if Readable(cbor, db0, key) {
      var t := cbor.loads(db0[key]).value;
      assert cbor.RowsOf(db0, ref) == DiscoveryRows(ref, t);
      forall k
        ensures k in DiscoveryRows(ref, t) ==> IsDiscovery(k) && RefOf(k) == ref
      {
        if k in DiscoveryRows(ref, t) {
          DiscoveryKeyFacts(ref, t, k);
        }
      }
    } else {
      if |ref| == REF_LEN {
        assert cbor.RowsOf(db0, ref) == map[];
      }
    }
  }

  lemma BackfillNone(cbor: Cbor, db: Table)
    ensures Backfilled(cbor, db, db, [])
  {
  }

  /** Token rows are not touched. */
  lemma BackfilledTokens(cbor: Cbor, db0: Table, db: Table, rows: seq<Bytes>, k: Bytes)
    requires Backfilled(cbor, db0, db, rows) && StartsWith(k, TOKEN)
    ensures Get(db, k) == Get(db0, k)
  {
    assert k[..2][0] == k[0] && k[..2][1] == k[1];
  }

  // ----- The migration -----

  /** The token rows of the database, in order. */
  ghost predicate IsTokenRows(rows: seq<Bytes>, db: Table) {
    Sorted(rows) && forall k :: k in rows <==> k in db && StartsWith(k, TOKEN)
  }

  /** The discovery rows of every token row were added, and `total` counts the readable ones. */
  ghost predicate Migrated(cbor: Cbor, db0: Table, db: Table, total: nat) {
    exists rows :: IsTokenRows(rows, db0) && Backfilled(cbor, db0, db, rows) && total == Count(cbor, db0, rows)
  }

  /** Every token row is visited once, page by page. */
  method Migrate3To4(cbor: Cbor, db0: Table, pageSize: nat) returns (db: Table, total: nat)
    requires pageSize >= 1
    ensures Migrated(cbor, db0, db, total)
  {
    hide Backfilled, Sorted, StartsWith, ScanUp, Readable, Lt, TOKEN, IsTokenRows, Count;
    db := db0;
    var keys := SortedKeys(db);
    ghost var keys0 := keys;
    ghost var rows := ScanUp(keys, TOKEN, TOKEN);
    TokenRows(keys, db0, rows);
    var seek := TOKEN;
    total := 0;
    ghost var n := 0;
    BackfillNone(cbor, db0);
    CountNone(cbor, db0);
    assert rows[..0] == [] && rows[0..] == rows;
    while true
      invariant 0 <= n <= |rows| && KeysOf(keys, db)
      invariant Backfilled(cbor, db0, db, rows[..n]) && total == Count(cbor, db0, rows[..n])
      invariant ScanUp(keys, TOKEN, seek) == rows[n..]
      decreases |rows| - n
    {
      var ahead := RocksDbRows(keys, TOKEN, false, seek, true);
      var page := if |ahead| >= pageSize then ahead[..pageSize] else ahead;
      if page == [] {
        assert rows[..n] == rows;
        return;
      }
      ghost var m := n + |page|;
      assert ahead == rows[n..];
      TakeOfRest(rows, n, |page|);
      var more;
      db, more := MigratePage(cbor, db0, db, rows, n, page);
      total := total + more;
      n := m;
      if |page| < pageSize {
        assert rows[..n] == rows;
        return;
      }
      seek := page[|page| - 1] + [0];
      keys := SortedKeys(db);
      forall k | StartsWith(k, TOKEN)
        ensures k in db <==> k in db0
      {
        BackfilledTokens(cbor, db0, db, rows[..n], k);
      }
      SameTokenScan(db0, db, keys0, keys, seek);
      ResumeAfter(keys0, n);
    }
  }

  lemma TakeOfRest(rows: seq<Bytes>, n: nat, k: nat)
    requires n + k <= |rows|
    ensures rows[n..][..k] == rows[n..n + k]
    ensures k == |rows| - n ==> rows[n..] == rows[n..n + k]
  {
  }

  /** One page, committed in one batch. */
  method MigratePage(cbor: Cbor, ghost db0: Table, db1: Table, ghost rows: seq<Bytes>, ghost n: nat, page: seq<Bytes>)
    returns (db: Table, total: nat)
    requires n + |page| <= |rows| && page == rows[n..n + |page|] && Backfilled(cbor, db0, db1, rows[..n])
    requires forall k :: k in rows ==> k in db0 && StartsWith(k, TOKEN)
    ensures Backfilled(cbor, db0, db, rows[..n + |page|])
    ensures Count(cbor, db0, rows[..n]) + total == Count(cbor, db0, rows[..n + |page|])
  {
    hide Backfilled, DiscoveryRows, StartsWith, TOKEN;
    var batch: Table := map[];
    assert db1 + batch == db1;
    total := 0;
    for i := 0 to |page|
      invariant Backfilled(cbor, db0, db1 + batch, rows[..n + i])
      invariant Count(cbor, db0, rows[..n]) + total == Count(cbor, db0, rows[..n + i])
    {
      var key := page[i];
      assert key == rows[n + i] && rows[..n + i + 1] == rows[..n + i] + [key];
      BackfilledTokens(cbor, db0, db1, rows[..n], key);
      BackfillOne(cbor, db0, db1 + batch, rows[..n + i], key);
      CountOne(cbor, db0, rows[..n + i], key);
      var ref := key[2..];
      if |ref| != REF_LEN {
        continue;
      }
      match cbor.loads(db1[key]) {
        case None =>
        case Some(t) =>
          assert db1 + batch + DiscoveryRows(ref, t) == db1 + (batch + DiscoveryRows(ref, t));
          batch := batch + DiscoveryRows(ref, t);
          total := total + 1;
      }
    }
    db := db1 + batch;
  }

  lemma CountNone(cbor: Cbor, db: Table)
    ensures Count(cbor, db, []) == 0
  {
  }

  lemma CountOne(cbor: Cbor, db: Table, rows: seq<Bytes>, key: Bytes)
    ensures Count(cbor, db, rows + [key]) == Count(cbor, db, rows) + if Readable(cbor, db, key) then 1 else 0
    ensures StartsWith(key, TOKEN) ==> |key| >= 2
  {
    assert (rows + [key])[..|rows|] == rows;
  }

  lemma TokenRows(keys: seq<Bytes>, db: Table, rows: seq<Bytes>)
    requires KeysOf(keys, db) && rows == ScanUp(keys, TOKEN, TOKEN)
    ensures IsTokenRows(rows, db) && forall k :: k in rows ==> k in db && StartsWith(k, TOKEN)
  {
    hide Lt, StartsWith, RunUp, ParkUp;
    UpIsScan(keys, TOKEN, TOKEN);
    forall k
      ensures k in rows <==> k in db && StartsWith(k, TOKEN)
    {
      if StartsWith(k, TOKEN) {
        PrefixLe(k, TOKEN);
      }
    }
  }

  /** Started from tables whose discovery rows, if any, are all accounted for, as those of an
      interrupted run are, the migration ends with derived rows. */
  lemma MigrationDerives(cbor: Cbor, db0: Table, db: Table, total: nat)
    requires Migrated(cbor, db0, db, total)
    requires forall k :: IsDiscovery(k) && k in db0 ==> Get(db0, k) == Get(cbor.RowsOf(db0, RefOf(k)), k)
    ensures cbor.Derived(db)
  {
    hide IsDiscovery, RefOf, StartsWith, Cbor.RowsOf, Sorted;
    var rows :| IsTokenRows(rows, db0) && Backfilled(cbor, db0, db, rows) && total == Count(cbor, db0, rows);
    forall k | IsDiscovery(k)
      ensures Get(db, k) == Get(cbor.RowsOf(db, RefOf(k)), k)
    {
      var ref := RefOf(k);
      assert StartsWith(TokenKey(ref), TOKEN) by {
        TokenStarts(ref);
      }
      BackfilledTokens(cbor, db0, db, rows, TokenKey(ref));
      SameRowsOf(cbor, db, db0, ref);
      Accounted(cbor, db0, k);
      assert Get(db, k) == if |ref| == REF_LEN && TokenKey(ref) in rows && k in cbor.RowsOf(db0, ref)
                           then Get(cbor.RowsOf(db0, ref), k) else Get(db0, k);
    }
  }

  lemma TokenStarts(ref: Bytes)
    ensures StartsWith(TokenKey(ref), TOKEN)
  {
  }

  /** A row accounted for is under a token row of a whole ref. */
  lemma Accounted(cbor: Cbor, db: Table, k: Bytes)
    requires IsDiscovery(k)
    ensures k in cbor.RowsOf(db, RefOf(k)) ==> |RefOf(k)| == REF_LEN && TokenKey(RefOf(k)) in db
  {
    var ref := RefOf(k);
    if k in cbor.RowsOf(db, ref) && |ref| != REF_LEN {
      LongerThanRef(ref, cbor.loads(db[TokenKey(ref)]).value, k);
    }
  }

  lemma LongerThanRef(ref: Bytes, t: Token, k: Bytes)
    requires k in DiscoveryRows(ref, t)
    ensures |k| > |ref|
  {
  }

  /** Run again, the migration changes nothing. */
  lemma MigrationIdempotent(cbor: Cbor, db0: Table, db: Table, total: nat)
    requires Migrated(cbor, db0, db, total) && cbor.Derived(db0)
    ensures db == db0
  {
    hide IsDiscovery, RefOf, Cbor.RowsOf, IsTokenRows, Count;
    var rows :| IsTokenRows(rows, db0) && Backfilled(cbor, db0, db, rows) && total == Count(cbor, db0, rows);
    forall k
      ensures Get(db, k) == Get(db0, k)
    {
    }
    SameTables(db, db0);
  }

  lemma SameTables(a: Table, b: Table)
    requires forall k :: Get(a, k) == Get(b, k)
    ensures a == b
  {
    forall k
      ensures k in a <==> k in b
      ensures k in a ==> a[k] == b[k]
    {
      assert Get(a, k) == Get(b, k);
    }
  }

  // ----- Opening the index on migrated tables -----

  /** Keys of other tables keep their rows. */
  lemma OthersKept(cbor: Cbor, db0: Table, db: Table, total: nat, k: Bytes)
    requires Migrated(cbor, db0, db, total) && !IsDiscovery(k)
    ensures Get(db, k) == Get(db0, k)
  {
    hide IsDiscovery, RefOf, Sorted, StartsWith, Cbor.RowsOf, TokenKey;
  }

  /** What the index of the older version left, with discovery rows, if any, of an interrupted run. */
  ghost predicate OldTables(cbor: Cbor, db: Table, height: int) {
    && Mirrored(db) && Positive(db) && SmallValues(db) && UndoRowsOk(db, height)
    && forall k :: IsDiscovery(k) && k in db ==> Get(db, k) == Get(cbor.RowsOf(db, RefOf(k)), k)
  }

  /** Tables of the older version, migrated, are sound; the undo rows in them are not relied upon. */
  lemma MigratedIsFresh(cbor: Cbor, db0: Table, db: Table, total: nat, height: int)
    requires Migrated(cbor, db0, db, total) && OldTables(cbor, db0, height) && cbor.Usable() && -1 <= height
    ensures DbOk(cbor, db, height, height + 1, map[height := db])
  {
    hide Migrated, IsDiscovery, RefOf, Cbor.RowsOf, IsBalanceKey, Mirror, IsAmount, GoodEntries, Decode, UndoKey, Tracked, DbOk,
      Cbor.Derived, Cbor.Usable;
    MigrationDerives(cbor, db0, db, total);
    forall k | IsBalanceKey(k)
      ensures Get(db, Mirror(k)) == Get(db, k) && (k in db ==> IsAmount(db[k]))
    {
      KeyOfBalance(k);
      NotDiscovery(k);
      NotDiscovery(Mirror(k));
      OthersKept(cbor, db0, db, total, k);
      OthersKept(cbor, db0, db, total, Mirror(k));
      assert Get(db0, Mirror(k)) == Get(db0, k) && (k in db0 ==> IsAmount(db0[k]));
    }
    forall k | k in db && Tracked(k)
      ensures |db[k]| < SENTINEL
    {
      SmallMigrated(cbor, db0, db, total, k);
    }
    forall h: nat
      ensures Get(db, UndoKey(h)) == Get(db0, UndoKey(h))
    {
      UndoKind(UndoKey(h));
      NotDiscovery(UndoKey(h));
      OthersKept(cbor, db0, db, total, UndoKey(h));
    }
    Fresh(cbor, db, height);
  }

  lemma NotDiscovery(k: Bytes)
    ensures Kind(k) !in {90, 80, 81} ==> !IsDiscovery(k)
  {
  }

  lemma SmallMigrated(cbor: Cbor, db0: Table, db: Table, total: nat, k: Bytes)
    requires Migrated(cbor, db0, db, total) && SmallValues(db0) && k in db && Tracked(k)
    ensures |db[k]| < SENTINEL
  {
    hide IsDiscovery, RefOf, Sorted, StartsWith, TokenKey, Tracked, DiscoveryRows;
    var rows :| IsTokenRows(rows, db0) && Backfilled(cbor, db0, db, rows) && total == Count(cbor, db0, rows);
    assert Get(db, k) == if IsDiscovery(k) && |RefOf(k)| == REF_LEN && TokenKey(RefOf(k)) in rows && k in cbor.RowsOf(db0, RefOf(k))
                         then Get(cbor.RowsOf(db0, RefOf(k)), k) else Get(db0, k);
    if k in cbor.RowsOf(db0, RefOf(k)) {
      DiscoveryKeyFacts(RefOf(k), cbor.loads(db0[TokenKey(RefOf(k))]).value, k);
    }
  }

  /** Opening after the upgrade: migrate, then start the index.  From there on it runs as on any
      tables; heights up to here cannot be backed up by it. */
  method OpenMigrated(cbor: Cbor, reorgLimit: nat, db0: Table, height: int, pageSize: nat) returns (g: GlyphIndex)
    requires cbor.Usable() && OldTables(cbor, db0, height) && -1 <= height && pageSize >= 1
    ensures fresh(g) && g.Valid() && g.CachesEmpty() && g.dbHeight == height && g.marks == map[height := g.db]
    ensures exists total :: Migrated(cbor, db0, g.db, total)
    ensures cbor.Derived(g.db)
  {
    hide Migrated, OldTables, Cbor.Usable, Cbor.Derived, DbOk, GlyphIndex.Valid;
    var db, total := Migrate3To4(cbor, db0, pageSize);
    MigratedIsFresh(cbor, db0, db, total, height);
    MigratedDerived(cbor, db0, db, total, height);
    g := new GlyphIndex(cbor, reorgLimit, db, height, height + 1, map[height := db]);
  }

  lemma MigratedDerived(cbor: Cbor, db0: Table, db: Table, total: nat, height: int)
    requires Migrated(cbor, db0, db, total) && OldTables(cbor, db0, height)
    ensures cbor.Derived(db)
  {
    hide Migrated, IsDiscovery, RefOf, Cbor.RowsOf, Mirrored, Positive, SmallValues, UndoRowsOk;
    MigrationDerives(cbor, db0, db, total);
  }

  /** A database of the older version with one token: once opened it has the discovery rows of the
      token, and no other. */
  method OpenOneToken(cbor: Cbor, ref: Bytes, t: Token, height: nat, pageSize: nat) returns (g: GlyphIndex)
    requires cbor.Usable() && |ref| == REF_LEN && |cbor.dumps(t)| < SENTINEL && pageSize >= 1
    ensures g.Valid() && g.dbHeight == height && Get(g.db, TokenKey(ref)) == Some(cbor.dumps(t))
    ensures forall k :: IsDiscovery(k) ==> Get(g.db, k) == Get(DiscoveryRows(ref, t), k)
  {
    hide Migrated, OldTables, Cbor.Derived, GlyphIndex.Valid, IsDiscovery, DiscoveryRows, RefOf, TokenKey, Tracked;
    var db0 := map[TokenKey(ref) := cbor.dumps(t)];
    OneOldToken(cbor, ref, t, height);
    g := OpenMigrated(cbor, 100, db0, height, pageSize);
    ghost var total :| Migrated(cbor, db0, g.db, total);
    forall r
      ensures Get(g.db, TokenKey(r)) == if r == ref then Some(cbor.dumps(t)) else None
    {
      TokenKeyFacts(r);
      TokenKeyFacts(ref);
      NotDiscovery(TokenKey(r));
      OthersKept(cbor, db0, g.db, total, TokenKey(r));
    }
    forall k | IsDiscovery(k)
      ensures Get(g.db, k) == Get(DiscoveryRows(ref, t), k)
    {
      OnlyItsRows(cbor, g.db, ref, t, k);
    }
  }

  lemma OneOldToken(cbor: Cbor, ref: Bytes, t: Token, height: nat)
    requires |cbor.dumps(t)| < SENTINEL
    ensures OldTables(cbor, map[TokenKey(ref) := cbor.dumps(t)], height)
  {
    hide Tracked, UndoKey, Mirror, IsAmount, GoodEntries;
    var db := map[TokenKey(ref) := cbor.dumps(t)];
    TokenKeyFacts(ref);
    forall k | IsBalanceKey(k)
      ensures k !in db && Mirror(k) !in db
    {
      KeyOfBalance(k);
    }
    forall h: nat | Height(h)
      ensures UndoKey(h) !in db
    {
      assert !Tracked(UndoKey(h));
    }
  }

  lemma OnlyItsRows(cbor: Cbor, db: Table, ref: Bytes, t: Token, k: Bytes)
    requires cbor.Derived(db) && cbor.RoundTrips() && IsDiscovery(k) && |ref| == REF_LEN
    requires forall r {:trigger TokenKey(r)} :: Get(db, TokenKey(r)) == if r == ref then Some(cbor.dumps(t)) else None
    ensures Get(db, k) == Get(DiscoveryRows(ref, t), k)
  {
    hide DiscoveryRows, TokenKey, IsDiscovery, RefOf;
    assert Get(db, k) == Get(cbor.RowsOf(db, RefOf(k)), k);
    assert Get(db, TokenKey(RefOf(k))) == if RefOf(k) == ref then Some(cbor.dumps(t)) else None;
    if k in DiscoveryRows(ref, t) {
      DiscoveryKeyFacts(ref, t, k);
    }
  }

  // ----- Undo rows from before the migration -----

  /** The value of a key after restoring entries over `v`. */
  function After(entries: seq<Entry>, k: Bytes, v: Option<Bytes>): Option<Bytes> {
    if entries == [] then v else After(entries[1..], k, if entries[0].key == k then entries[0].prev else v)
  }

  lemma {:induction false} RestoreIsAfter(db: Table, entries: seq<Entry>, k: Bytes)
    ensures Get(Restore(db, entries), k) == After(entries, k, Get(db, k))
    decreases |entries|
  {
    if entries != [] {
      RestoreIsAfter(Set(db, entries[0].key, entries[0].prev), entries[1..], k);
    }
  }

  lemma {:induction false} AfterOther(entries: seq<Entry>, k: Bytes, v: Option<Bytes>)
    requires !HasKey(entries, k)
    ensures After(entries, k, v) == v
  {
    if entries != [] {
      assert entries[0].key != k;
      forall i | 0 <= i < |entries[1..]|
        ensures entries[1..][i].key != k
      {
        assert entries[1..][i] == entries[i + 1];
      }
      AfterOther(entries[1..], k, v);
    }
  }

  /** The discovery rows that a token record accounts for. */
  function RowsFor(cbor: Cbor, ref: Bytes, v: Option<Bytes>): Table {
    if v.None? then map[]
    else
      match cbor.loads(v.value)
      case None => map[]
      case Some(t) => DiscoveryRows(ref, t)
  }

  /** Undo rows from before the migration do not mention discovery rows. */
  predicate WithoutDiscovery(entries: seq<Entry>) {
    forall i :: 0 <= i < |entries| ==> !IsDiscovery(entries[i].key)
  }

  /** Each token record put back accounts for the discovery rows that the present one accounts for. */
  ghost predicate SameRows(cbor: Cbor, db: Table, entries: seq<Entry>) {
    forall ref {:trigger TokenKey(ref)} :: |ref| == REF_LEN && HasKey(entries, TokenKey(ref)) ==>
      RowsFor(cbor, ref, After(entries, TokenKey(ref), Get(db, TokenKey(ref)))) == RowsFor(cbor, ref, Get(db, TokenKey(ref)))
  }

  lemma WithoutKey(entries: seq<Entry>, k: Bytes)
    requires WithoutDiscovery(entries) && IsDiscovery(k)
    ensures !HasKey(entries, k)
  {
  }

  /** Restoring entries that do not mention discovery rows keeps these derived if and only if every
      token record put back accounts for the same ones. */
  lemma OldEntriesIff(cbor: Cbor, db: Table, entries: seq<Entry>)
    requires cbor.Derived(db) && WithoutDiscovery(entries)
    ensures cbor.Derived(Restore(db, entries)) <==> SameRows(cbor, db, entries)
  {
    hide IsDiscovery, RefOf, TokenKey, HasKey, DiscoveryRows, WithoutDiscovery;
    var db' := Restore(db, entries);
    forall k | IsDiscovery(k)
      ensures Get(db', k) == Get(db, k) == Get(cbor.RowsOf(db, RefOf(k)), k)
    {
      RestoreIsAfter(db, entries, k);
      WithoutKey(entries, k);
      AfterOther(entries, k, Get(db, k));
    }
    forall ref {:trigger TokenKey(ref)}
      ensures Get(db', TokenKey(ref)) == After(entries, TokenKey(ref), Get(db, TokenKey(ref)))
      ensures !HasKey(entries, TokenKey(ref)) ==> Get(db', TokenKey(ref)) == Get(db, TokenKey(ref))
    {
      RestoreIsAfter(db, entries, TokenKey(ref));
      if !HasKey(entries, TokenKey(ref)) {
        AfterOther(entries, TokenKey(ref), Get(db, TokenKey(ref)));
      }
    }
    if cbor.Derived(db') {
      forall ref | |ref| == REF_LEN
        ensures RowsFor(cbor, ref, Get(db', TokenKey(ref))) == RowsFor(cbor, ref, Get(db, TokenKey(ref)))
      {
        DerivedRows(cbor, db, db', ref);
      }
    } else {
      var k :| IsDiscovery(k) && Get(db', k) != Get(cbor.RowsOf(db', RefOf(k)), k);
      Accounted(cbor, db, k);
      Accounted(cbor, db', k);
    }
  }

  /** Derived tables with the same discovery rows account for them alike. */
  lemma DerivedRows(cbor: Cbor, a: Table, b: Table, ref: Bytes)
    requires cbor.Derived(a) && cbor.Derived(b) && |ref| == REF_LEN
    requires forall k :: IsDiscovery(k) ==> Get(a, k) == Get(b, k)
    ensures RowsFor(cbor, ref, Get(a, TokenKey(ref))) == RowsFor(cbor, ref, Get(b, TokenKey(ref)))
  {
    hide IsDiscovery, RefOf, TokenKey, DiscoveryRows;
    var r, s := cbor.RowsOf(a, ref), cbor.RowsOf(b, ref);
    forall k
      ensures Get(r, k) == Get(s, k)
    {
      if k in r {
        RowsUnderRef(cbor, a, ref, k);
      }
      if k in s {
        RowsUnderRef(cbor, b, ref, k);
      }
    }
    SameTables(r, s);
  }

  // ----- Backing up any number of such heights -----

  function RowEntries(db: Table, h: nat): seq<Entry> {
    if UndoKey(h) in db && db[UndoKey(h)] != [] then Decode(db[UndoKey(h)]) else []
  }

  /** The entries of the heights from `from` down to `to + 1`, in the order they are restored. */
  function EntriesDown(db: Table, from: int, to: int): seq<Entry>
    requires -1 <= to
    decreases from - to
  {
    if from <= to then [] else RowEntries(db, from) + EntriesDown(db, from - 1, to)
  }

  lemma {:induction false} RestoreTwice(db: Table, a: seq<Entry>, b: seq<Entry>)
    ensures Restore(Restore(db, a), b) == Restore(db, a + b)
    decreases |a|
  {
    if a == [] {
      assert a + b == b;
    } else {
      assert (a + b)[1..] == a[1..] + b;
      RestoreTwice(Set(db, a[0].key, a[0].prev), a[1..], b);
    }
  }

  lemma {:induction false} SameEntriesDown(a: Table, b: Table, from: int, to: int)
    requires -1 <= to && (from <= to || Height(from))
    requires forall h: nat :: h <= from && Height(h) ==> Get(a, UndoKey(h)) == Get(b, UndoKey(h))
    ensures EntriesDown(a, from, to) == EntriesDown(b, from, to)
    decreases from - to
  {
    hide UndoKey, Decode;
    if from > to {
      assert Get(a, UndoKey(from)) == Get(b, UndoKey(from));
      SameEntriesDown(a, b, from - 1, to);
    }
  }

  /** Backing up several heights restores their entries one after the other. */
  lemma {:induction false} UnwindRestores(db: Table, from: int, to: int, k: Bytes)
    requires -1 <= to && UndoRowsOk(db, from) && SmallValues(db) && (from <= to || Height(from)) && Tracked(k)
    ensures Get(Unwind(db, from, to), k) == Get(Restore(db, EntriesDown(db, from, to)), k)
    decreases from - to
  {
    hide UndoKey, Decode, Tracked, Restore, GoodEntries, BackedUp, UndoRowsOk, SmallValues, EntriesDown, Unwind;
    StepDown(db, from, to);
    if from > to {
      var db1, entries := BackedUp(db, from), RowEntries(db, from);
      BackupRows(db, from);
      OneHeight(db, from, k);
      forall h: nat | h <= from - 1 && Height(h)
        ensures Get(db1, UndoKey(h)) == Get(db, UndoKey(h))
      {
        OtherRows(db, from, h);
      }
      SameEntriesDown(db1, db, from - 1, to);
      UnwindRestores(db1, from - 1, to, k);
      RestoreSame(db1, Restore(db, entries), EntriesDown(db, from - 1, to), k);
      RestoreTwice(db, entries, EntriesDown(db, from - 1, to));
    }
  }

  lemma StepDown(db: Table, from: int, to: int)
    requires -1 <= to
    ensures from <= to ==> Unwind(db, from, to) == Restore(db, EntriesDown(db, from, to))
    ensures from > to ==> Unwind(db, from, to) == Unwind(BackedUp(db, from), from - 1, to)
    ensures from > to ==> EntriesDown(db, from, to) == RowEntries(db, from) + EntriesDown(db, from - 1, to)
  {
    hide BackedUp, RowEntries;
  }

  lemma OneHeight(db: Table, h: nat, k: Bytes)
    requires Tracked(k)
    ensures Get(BackedUp(db, h), k) == Get(Restore(db, RowEntries(db, h)), k)
  {
    hide Decode;
  }

  /** Backing up one height leaves the undo rows of others. */
  lemma OtherRows(db: Table, from: nat, h: nat)
    requires UndoRowsOk(db, from) && Height(from) && Height(h) && h != from
    ensures Get(BackedUp(db, from), UndoKey(h)) == Get(db, UndoKey(h))
  {
    hide Decode, Tracked, Restore, GoodEntries;
    UndoKeysDiffer(h, from);
    if UndoKey(from) in db && db[UndoKey(from)] != [] {
      RestoreWithin(db, Decode(db[UndoKey(from)]), UndoKey(h));
    }
  }

  /** Backing up any number of heights whose undo rows are from before the migration leaves the
      discovery rows derived if and only if every token record put back accounts for the rows that
      the present one accounts for. */
  lemma OldUndoRowsIff(cbor: Cbor, db: Table, from: int, to: int)
    requires cbor.Derived(db) && UndoRowsOk(db, from) && SmallValues(db) && -1 <= to && (from <= to || Height(from))
    requires WithoutDiscovery(EntriesDown(db, from, to))
    ensures cbor.Derived(Unwind(db, from, to)) <==> SameRows(cbor, db, EntriesDown(db, from, to))
  {
    hide UndoRowsOk, SmallValues, WithoutDiscovery, Unwind, Restore, EntriesDown, SameRows, Tracked, Cbor.Derived;
    var a, b := Unwind(db, from, to), Restore(db, EntriesDown(db, from, to));
    forall k | Tracked(k)
      ensures Get(a, k) == Get(b, k)
    {
      UnwindRestores(db, from, to, k);
    }
    OldEntriesIff(cbor, db, EntriesDown(db, from, to));
    if cbor.Derived(a) {
      DerivedSame(cbor, a, b);
    }
    if cbor.Derived(b) {
      SameTrackedSym(a, b);
      DerivedSame(cbor, b, a);
    }
  }

  /** An undo row written before the migration tells of a token row but not of its discovery
      rows.  Backing up its height after the migration leaves a discovery row without a token. */
  lemma OldUndoRowOrphans(cbor: Cbor, ref: Bytes, t: Token)
    requires |ref| == REF_LEN && cbor.RoundTrips() && DiscoveryRows(ref, t) != map[]
    ensures var db := map[TokenKey(ref) := cbor.dumps(t)] + DiscoveryRows(ref, t);
            cbor.Derived(db) && !cbor.Derived(Restore(db, [Entry(TokenKey(ref), None)]))
  {
    hide DiscoveryRows, IsDiscovery, RefOf, TokenKey;
    var rows := DiscoveryRows(ref, t);
    var db := map[TokenKey(ref) := cbor.dumps(t)] + rows;
    TokenKeyFacts(ref);
    forall k
      ensures k in rows ==> IsDiscovery(k) && RefOf(k) == ref && k != TokenKey(ref)
      ensures IsDiscovery(k) ==> k != TokenKey(RefOf(k)) && k != TokenKey(ref)
      ensures TokenKey(k) == TokenKey(ref) ==> k == ref
      ensures TokenKey(k) !in rows
    {
      NotToken(ref, t, k);
    }
    forall k | IsDiscovery(k)
      ensures Get(db, k) == Get(cbor.RowsOf(db, RefOf(k)), k)
    {
      assert RefOf(k) != ref ==> TokenKey(RefOf(k)) !in db;
    }
    var k :| k in rows;
    var db' := Restore(db, [Entry(TokenKey(ref), None)]);
    RestoreOne(db, TokenKey(ref));
    assert k in db' && TokenKey(ref) !in db';
    assert cbor.RowsOf(db', RefOf(k)) == map[];
  }

  lemma RestoreOne(db: Table, k: Bytes)
    ensures Restore(db, [Entry(k, None)]) == db - {k}
  {
    assert [Entry(k, None)][1..] == [];
  }

  lemma NotToken(ref: Bytes, t: Token, k: Bytes)
    requires |ref| == REF_LEN
    ensures k in DiscoveryRows(ref, t) ==> IsDiscovery(k) && RefOf(k) == ref && k != TokenKey(ref)
    ensures IsDiscovery(k) ==> k != TokenKey(RefOf(k)) && k != TokenKey(ref)
    ensures TokenKey(k) == TokenKey(ref) ==> k == ref
    ensures TokenKey(k) !in DiscoveryRows(ref, t)
  {
    hide DiscoveryRows;
    TokenKeyFacts(k);
    TokenKeyFacts(ref);
    TokenKeyFacts(RefOf(k));
    if k in DiscoveryRows(ref, t) {
      DiscoveryKeyFacts(ref, t, k);
    }
    if TokenKey(k) in DiscoveryRows(ref, t) {
      DiscoveryKeyFacts(ref, t, TokenKey(k));
    }
  }
}
