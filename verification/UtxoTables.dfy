/** The two database tables that hold the flushed part of the UTXO set
    (electrumx/server/block_processor.py:1139-1155).

    `h` rows are keyed by the first four bytes of the txid, the output index and the
    transaction number; `u` rows by the hashX, the output index and the transaction number.
    `Represents` says which outpoint map the rows stand for; the lemmas say how a lookup by a
    four-byte prefix finds the right row and what deleting and putting rows does to the map. */
module UtxoTables {
  import opened ByteStrings
  import opened Utxos

  /** Row keys; the index and the transaction number stand for their packings in four and five
      bytes, which are one-to-one (ByteStrings.FromLeOfLe). */
  datatype Key =
    | H(prefix: Bytes, idx: nat, num: nat)
    | U(hashX: Bytes, idx: nat, num: nat)

  type Table = map<Key, Bytes>

  function HKey(o: Outpoint, v: Bytes): Key
    requires |o.hash| == 32 && |v| == ENTRY_LEN
  {
    H(o.hash[..4], o.idx, NumOf(v))
  }

  function UKey(o: Outpoint, v: Bytes): Key
    requires |v| == ENTRY_LEN
  {
    U(HashXOf(v), o.idx, NumOf(v))
  }

  /** The value of an `h` row: hashX and code script hash. */
  function HValue(v: Bytes): Bytes
    requires |v| == ENTRY_LEN
  {
    v[..43]
  }

  /** The outpoint a row belongs to, found through its transaction number. */
  function Owner(k: Key, hashes: seq<Bytes>): Outpoint
    requires k.num < |hashes|
  {
    Outpoint(hashes[k.num], k.idx)
  }

  predicate HasRows(db: Table, o: Outpoint, v: Bytes, hashes: seq<Bytes>) {
    && EntryOk(o, v, hashes)
    && HKey(o, v) in db && db[HKey(o, v)] == HValue(v)
    && UKey(o, v) in db && db[UKey(o, v)] == ValueBytes(v)
  }

  /** A row is one of the two rows of its owner. */
  predicate RowOwned(k: Key, m: UtxoMap, hashes: seq<Bytes>) {
    && k.num < |hashes|
    && var o := Owner(k, hashes);
       o in m && EntryOk(o, m[o], hashes) && (k == HKey(o, m[o]) || k == UKey(o, m[o]))
  }

  /** The rows are exactly two for each entry of `m`. */
  ghost predicate Represents(db: Table, m: UtxoMap, hashes: seq<Bytes>) {
    && (forall o {:trigger HasRows(db, o, m[o], hashes)} :: o in m ==> HasRows(db, o, m[o], hashes))
    && (forall k {:trigger RowOwned(k, m, hashes)} :: k in db ==> RowOwned(k, m, hashes))
  }

  lemma EntryOkMore(o: Outpoint, v: Bytes, hashes: seq<Bytes>, more: seq<Bytes>)
    requires EntryOk(o, v, hashes)
    ensures EntryOk(o, v, hashes + more)
  {
    hide NumOf, HashXOf;
  }

  lemma RowOwnedMore(k: Key, m: UtxoMap, hashes: seq<Bytes>, more: seq<Bytes>)
    requires RowOwned(k, m, hashes)
    ensures RowOwned(k, m, hashes + more)
  {
    hide HKey, UKey, EntryOk;
    assert (hashes + more)[k.num] == hashes[k.num];
    EntryOkMore(Owner(k, hashes), m[Owner(k, hashes)], hashes, more);
  }

  /** Rows stay valid when more transactions are appended to the chain. */
  lemma RepresentsMore(db: Table, m: UtxoMap, hashes: seq<Bytes>, more: seq<Bytes>)
    requires Represents(db, m, hashes)
    ensures Represents(db, m, hashes + more)
  {
    hide HKey, UKey, EntryOk, RowOwned;
    forall o | o in m
      ensures HasRows(db, o, m[o], hashes + more)
    {
      assert HasRows(db, o, m[o], hashes);
      EntryOkMore(o, m[o], hashes, more);
    }
    forall k | k in db
      ensures RowOwned(k, m, hashes + more)
    {
      RowOwnedMore(k, m, hashes, more);
    }
  }

  /** And when the chain is cut back, as long as no entry names a transaction that is gone. */
  lemma RepresentsFewer(db: Table, m: UtxoMap, hashes: seq<Bytes>, n: nat)
    requires n <= |hashes| && Represents(db, m, hashes) && EntriesOk(m, hashes[..n])
    ensures Represents(db, m, hashes[..n])
  {
    hide HValue, ValueBytes, NumOf, HashXOf;
    forall o | o in m
      ensures HasRows(db, o, m[o], hashes[..n])
    {
      assert HasRows(db, o, m[o], hashes) && EntryOk(o, m[o], hashes[..n]);
    }
    forall k | k in db
      ensures RowOwned(k, m, hashes[..n])
    {
      assert RowOwned(k, m, hashes);
      var o := Owner(k, hashes);
      assert EntryOk(o, m[o], hashes[..n]);
    }
  }

  // ----- Looking an outpoint up by its four-byte prefix -----

  /** What the prefix scan of the `h` table returns. */
  function Candidates(db: Table, o: Outpoint): set<Key>
    requires |o.hash| == 32
  {
    set k | k in db && k.H? && k.prefix == o.hash[..4] && k.idx == o.idx
  }

  /** The row of a represented outpoint is a candidate; any other candidate belongs to another
      transaction, so comparing txids by transaction number tells them apart. */
  lemma CandidateIsOwn(db: Table, m: UtxoMap, hashes: seq<Bytes>, o: Outpoint, k: Key)
    requires Represents(db, m, hashes) && o in m && |o.hash| == 32 && k in Candidates(db, o)
    ensures HasRows(db, o, m[o], hashes) && HKey(o, m[o]) in Candidates(db, o)
    ensures k.num < |hashes|
    ensures hashes[k.num] == o.hash <==> k == HKey(o, m[o])
    ensures |Candidates(db, o)| <= 1 ==> k == HKey(o, m[o])
  {
    hide HashXOf, HValue, ValueBytes, NumOf;
    assert HasRows(db, o, m[o], hashes) && RowOwned(k, m, hashes);
    var own := HKey(o, m[o]);
    if |Candidates(db, o)| <= 1 {
      OnlyOne(Candidates(db, o), k, own);
    }
  }

  lemma OnlyOne<T>(s: set<T>, a: T, b: T)
    requires |s| <= 1 && a in s && b in s
    ensures a == b
  {
    assert s == {a} + (s - {a});
  }

  /** Reassembling the entry from its two rows. */
  lemma Reassemble(v: Bytes)
    requires |v| == ENTRY_LEN
    ensures HValue(v)[..HASHX_LEN] == HashXOf(v)
    ensures HValue(v)[..HASHX_LEN] + HValue(v)[HASHX_LEN..] + LE(NumOf(v), 5) + ValueBytes(v) == v
  {
    LeOfFromLe(NumBytes(v));
  }

  lemma LiveRows(db: Table, m: UtxoMap, hashes: seq<Bytes>, o: Outpoint)
    requires Represents(db, m, hashes) && o in m && |o.hash| == 32
    ensures |m[o]| == ENTRY_LEN && EntryOk(o, m[o], hashes) && HasRows(db, o, m[o], hashes)
    ensures HKey(o, m[o]) in Candidates(db, o)
  {
    assert HasRows(db, o, m[o], hashes);
  }

  /** Following the `h` row of an outpoint to its `u` row gives its entry back. */
  lemma OwnRows(db: Table, m: UtxoMap, hashes: seq<Bytes>, o: Outpoint, k: Key)
    requires Represents(db, m, hashes) && o in m && |o.hash| == 32 && k in Candidates(db, o)
    requires HasRows(db, o, m[o], hashes) && k == HKey(o, m[o])
    ensures k in db && HASHX_LEN <= |db[k]|
    ensures U(db[k][..HASHX_LEN], k.idx, k.num) == UKey(o, m[o])
    ensures UKey(o, m[o]) in db
    ensures db[k][..HASHX_LEN] + db[k][HASHX_LEN..] + LE(k.num, 5) + db[UKey(o, m[o])] == m[o]
  {
    Reassemble(m[o]);
  }

  // ----- Writing -----

  lemma OwnerOfRows(m: UtxoMap, hashes: seq<Bytes>, o: Outpoint)
    requires o in m && EntryOk(o, m[o], hashes)
    ensures HKey(o, m[o]).num < |hashes| && UKey(o, m[o]).num < |hashes|
    ensures Owner(HKey(o, m[o]), hashes) == o && Owner(UKey(o, m[o]), hashes) == o
  {
  }

  /** `keys` are the rows of the outpoints in `dead`. */
  ghost predicate RowsOf(keys: set<Key>, dead: set<Outpoint>, m: UtxoMap, hashes: seq<Bytes>) {
    && (forall o {:trigger o in dead} :: o in dead ==>
          o in m && EntryOk(o, m[o], hashes) && HKey(o, m[o]) in keys && UKey(o, m[o]) in keys)
    && (forall k {:trigger RowOwned(k, m, hashes)} :: k in keys ==> RowOwned(k, m, hashes) && Owner(k, hashes) in dead)
  }

  /** The batch deletes come first: the rows of the spent outpoints go, no others. */
  lemma DeleteRows(db: Table, m: UtxoMap, hashes: seq<Bytes>, dead: set<Outpoint>, keys: set<Key>)
    requires Represents(db, m, hashes) && RowsOf(keys, dead, m, hashes)
    ensures Represents(db - keys, m - dead, hashes)
  {
    hide HKey, UKey, HValue, ValueBytes, EntryOk, RowOwned;
    forall o | o in m - dead
      ensures HasRows(db - keys, o, (m - dead)[o], hashes)
    {
      assert HasRows(db, o, m[o], hashes);
      OwnerOfRows(m, hashes, o);
      EntryShape(o, m[o], hashes);
      assert RowOwned(HKey(o, m[o]), m, hashes) && RowOwned(UKey(o, m[o]), m, hashes);
    }
    forall k | k in db - keys
      ensures RowOwned(k, m - dead, hashes)
    {
      assert RowOwned(k, m, hashes);
      RowNotDead(k, m, hashes, dead, keys);
    }
  }

  lemma RowNotDead(k: Key, m: UtxoMap, hashes: seq<Bytes>, dead: set<Outpoint>, keys: set<Key>)
    requires RowOwned(k, m, hashes) && RowsOf(keys, dead, m, hashes) && k !in keys
    ensures RowOwned(k, m - dead, hashes)
  {
    hide HKey, UKey, EntryOk;
    var o := Owner(k, hashes);
    assert o !in dead;
    assert (m - dead)[o] == m[o];
  }

  function PutEntry(db: Table, o: Outpoint, v: Bytes): Table
    requires |o.hash| == 32 && |v| == ENTRY_LEN
  {
    db[HKey(o, v) := HValue(v)][UKey(o, v) := ValueBytes(v)]
  }

  /** Then the puts: a new entry gets its two rows. */
  lemma PutRows(db: Table, m: UtxoMap, hashes: seq<Bytes>, o: Outpoint, v: Bytes)
    requires Represents(db, m, hashes) && o !in m && EntryOk(o, v, hashes)
    ensures Represents(PutEntry(db, o, v), m[o := v], hashes)
  {
    EntryShape(o, v, hashes);
    hide HValue, ValueBytes, EntryOk, PutEntry, RowOwned, HasRows, NumOf, HashXOf;
    var m' := m[o := v];
    forall p | p in m'
      ensures HasRows(PutEntry(db, o, v), p, m'[p], hashes)
    {
      if p == o {
        NewRows(db, o, v, hashes);
      } else {
        OldRows(db, m, hashes, o, v, p);
      }
    }
    forall k | k in PutEntry(db, o, v)
      ensures RowOwned(k, m', hashes)
    {
      PutRowOwned(db, m, hashes, o, v, k);
    }
  }

  lemma NewRows(db: Table, o: Outpoint, v: Bytes, hashes: seq<Bytes>)
    requires EntryOk(o, v, hashes)
    ensures HasRows(PutEntry(db, o, v), o, v, hashes)
  {
    hide EntryOk, HValue, ValueBytes, HashXOf, NumOf;
    EntryShape(o, v, hashes);
  }

  lemma EntryShape(o: Outpoint, v: Bytes, hashes: seq<Bytes>)
    requires EntryOk(o, v, hashes)
    ensures |o.hash| == 32 && |v| == ENTRY_LEN
  {
  }

  lemma OldRows(db: Table, m: UtxoMap, hashes: seq<Bytes>, o: Outpoint, v: Bytes, p: Outpoint)
    requires Represents(db, m, hashes) && o !in m && EntryOk(o, v, hashes) && p in m
    ensures HasRows(PutEntry(db, o, v), p, m[p], hashes)
  {
    hide EntryOk, HValue, ValueBytes, NumOf, HashXOf;
    assert HasRows(db, p, m[p], hashes);
    EntryShape(o, v, hashes);
    OwnerOfRows(m[o := v], hashes, o);
    OwnerOfRows(m, hashes, p);
  }

  lemma PutRowOwned(db: Table, m: UtxoMap, hashes: seq<Bytes>, o: Outpoint, v: Bytes, k: Key)
    requires Represents(db, m, hashes) && o !in m && EntryOk(o, v, hashes) && k in PutEntry(db, o, v)
    ensures RowOwned(k, m[o := v], hashes)
  {
    hide HKey, UKey, HValue, ValueBytes, EntryOk;
    EntryShape(o, v, hashes);
    OwnerOfRows(m[o := v], hashes, o);
    if k != HKey(o, v) && k != UKey(o, v) {
      assert k in db;
      RowOwnedStill(k, m, hashes, o, v);
    }
  }

  lemma RowOwnedStill(k: Key, m: UtxoMap, hashes: seq<Bytes>, o: Outpoint, v: Bytes)
    requires RowOwned(k, m, hashes) && o !in m
    ensures RowOwned(k, m[o := v], hashes)
  {
    hide HKey, UKey, EntryOk;
  }

  /** Spending from the database marks the two rows of the outpoint for deletion. */
  lemma MarkRows(keys: set<Key>, dead: set<Outpoint>, m: UtxoMap, hashes: seq<Bytes>, o: Outpoint)
    requires RowsOf(keys, dead, m, hashes) && o in m && EntryOk(o, m[o], hashes)
    ensures RowsOf(keys + {HKey(o, m[o]), UKey(o, m[o])}, dead + {o}, m, hashes)
  {
    hide HashXOf, NumOf;
    OwnerOfRows(m, hashes, o);
    forall k | k in keys + {HKey(o, m[o]), UKey(o, m[o])}
      ensures RowOwned(k, m, hashes) && Owner(k, hashes) in dead + {o}
    {
      if k in keys {
        assert RowOwned(k, m, hashes);
      }
    }
  }

  // ----- Listing the rows of a hashX -----

  /** An unspent output as queries report it. */
  datatype Utxo = Utxo(num: nat, pos: nat, hash: Bytes, height: nat, value: nat)

  /** `counts` are the numbers of transactions up to each height. */
  function UtxoOf(o: Outpoint, v: Bytes, counts: seq<nat>): Utxo
    requires |v| == ENTRY_LEN
  {
    Utxo(NumOf(v), o.idx, o.hash, BisectRight(counts, NumOf(v)), FromLE(ValueBytes(v)))
  }

  /** What a `u` row says. */
  function RowUtxo(db: Table, k: Key, hashes: seq<Bytes>, counts: seq<nat>): Utxo
    requires k in db && k.num < |hashes|
  {
    Utxo(k.num, k.idx, hashes[k.num], BisectRight(counts, k.num), FromLE(db[k]))
  }

  /** The `u` row of an entry says what the entry says. */
  lemma RowSays(db: Table, m: UtxoMap, hashes: seq<Bytes>, o: Outpoint, counts: seq<nat>)
    requires Represents(db, m, hashes) && o in m
    ensures EntryOk(o, m[o], hashes) && UKey(o, m[o]) in db && UKey(o, m[o]).num < |hashes|
    ensures RowUtxo(db, UKey(o, m[o]), hashes, counts) == UtxoOf(o, m[o], counts)
  {
    hide BisectRight;
    assert HasRows(db, o, m[o], hashes);
  }

  /** Every `u` row is the row of its owner. */
  lemma RowIsOf(db: Table, m: UtxoMap, hashes: seq<Bytes>, k: Key)
    requires Represents(db, m, hashes) && k in db && k.U?
    ensures k.num < |hashes|
    ensures var o := Owner(k, hashes); o in m && EntryOk(o, m[o], hashes) && k == UKey(o, m[o])
  {
    assert RowOwned(k, m, hashes);
  }
}
