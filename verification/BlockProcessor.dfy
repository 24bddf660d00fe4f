/** The write-back cache of the UTXO set: electrumx/server/block_processor.py with the flush of
    electrumx/server/db.py.

    `utxos` is the one outpoint map that the cache, the pending deletes and the database rows
    stand for together, and `chain` the blocks behind it.  `Valid` says that the map is the one
    the chain determines; it is kept by advancing blocks, by flushing at any block boundary and
    by backing blocks up, so it holds in every state any run of these reaches. */
module BlockProcessors {
  import opened ByteStrings
  import opened Utxos
  import opened UtxoTables
  import ChainFiles
  import Scripts
  import Transactions

  /** The concatenated undo entries of a block, as they are stored. */
  function Join(es: seq<Bytes>): Bytes {
    if es == [] then [] else Join(es[..|es| - 1]) + es[|es| - 1]
  }

  predicate AllEntries(es: seq<Bytes>) {
    forall i :: 0 <= i < |es| ==> |es[i]| == ENTRY_LEN
  }

  lemma {:induction false} JoinLength(es: seq<Bytes>)
    requires AllEntries(es)
    ensures |Join(es)| == ENTRY_LEN * |es|
  {
    if es != [] {
      JoinLength(es[..|es| - 1]);
    }
  }

  /** The entries before position `k` are the first 56 * k bytes; the next 56 bytes are entry k. */
  lemma {:induction false} JoinSlice(es: seq<Bytes>, k: nat)
    requires AllEntries(es) && k < |es|
    ensures ENTRY_LEN * (k + 1) <= |Join(es)|
    ensures Join(es)[ENTRY_LEN * k..ENTRY_LEN * (k + 1)] == es[k]
  {
    var init, last := es[..|es| - 1], es[|es| - 1];
    JoinLength(es);
    JoinLength(init);
    if k < |init| {
      JoinSlice(init, k);
      assert Join(es)[ENTRY_LEN * k..ENTRY_LEN * (k + 1)] == Join(init)[ENTRY_LEN * k..ENTRY_LEN * (k + 1)];
    }
  }

  lemma {:induction false} SpentAreEntries(u: UtxoMap, ins: seq<Transactions.TxInput>, hashes: seq<Bytes>)
    requires InputsLive(u, ins) && EntriesOk(u, hashes)
    ensures AllEntries(SpentEntries(u, ins))
    decreases |ins|
  {
    hide Transactions.TxInput.IsGeneration, NumOf;
    if ins != [] {
      if ins[0].IsGeneration() {
        SpentAreEntries(u, ins[1..], hashes);
      } else {
        var o := PrevOut(ins[0]);
        assert EntryOk(o, u[o], hashes);
        SpentAreEntries(u - {o}, ins[1..], hashes);
      }
    }
  }
  class BlockProcessor {
    const coin: Coin
    const reorgLimit: nat

    // In memory, since the last flush
    var utxoCache: UtxoMap
    var dbDeletes: seq<Key>
    var undoInfos: seq<(seq<Bytes>, nat)>
    var touched: set<Bytes>
    var txHashes: seq<Bytes>
    var txCount: nat
    var height: int

    // In the database and the hash file
    var db: Table
    var undoDb: map<nat, Bytes>
    var fsHashes: seq<Bytes>
    var dbTxCount: nat
    var dbHeight: int

    // What they stand for
    ghost var committed: UtxoMap       // the map the rows represent
    ghost var dead: set<Outpoint>      // outpoints with rows marked for deletion
    ghost var utxos: UtxoMap           // the UTXO set
    ghost var chain: seq<Block>        // the blocks it comes from
    ghost var recorded: set<nat>       // heights whose undo information is kept

    /** The hashes the hash file is trusted for; what follows is left from before a reorg. */
    function Flushed(): seq<Bytes>
      reads this`fsHashes, this`dbTxCount
    {
      if dbTxCount <= |fsHashes| then fsHashes[..dbTxCount] else fsHashes
    }

    /** The representation: cache over database, with `hashes` the txids of all transactions
        that may own an entry. */
    ghost predicate Rep(hashes: seq<Bytes>)
      reads `utxoCache, `dbDeletes, `db, `fsHashes, `dbTxCount, `committed, `dead, `utxos
    {
      && dbTxCount <= |fsHashes| && Flushed() <= hashes
      && Represents(db, committed, Flushed())
      && RowsOf(Elements(dbDeletes), dead, committed, Flushed())
      && (forall o :: o in utxoCache ==> EntryOk(o, utxoCache[o], hashes) && (o in committed ==> o in dead))
      && utxos == (committed - dead) + utxoCache
    }

    constructor (coin: Coin, reorgLimit: nat)
      ensures this.coin == coin && this.reorgLimit == reorgLimit
      ensures Valid() && chain == [] && recorded == {} && height == dbHeight == -1
    {
      this.coin, this.reorgLimit := coin, reorgLimit;
      utxoCache, dbDeletes, undoInfos, touched, txHashes := map[], [], [], {}, [];
      txCount, height, db, undoDb, fsHashes, dbTxCount, dbHeight := 0, -1, map[], map[], [], 0, -1;
      committed, dead, utxos, chain, recorded := map[], {}, map[], [], {};
    }

    /** The txid of a flushed transaction number; None if it is not on disk. */
    function FsTxHash(num: nat): Option<Bytes>
      reads this`fsHashes, this`dbTxCount
    {
      if num < dbTxCount <= |fsHashes| then Some(fsHashes[num]) else None
    }

    /** Removes a live outpoint and returns its entry, from the cache or else from the rows:
        other outpoints whose txid starts with the same four bytes, and rows that are only
        waiting to be deleted, do not mislead it. */
    method SpendUtxo(o: Outpoint, ghost hashes: seq<Bytes>) returns (v: Bytes)
      requires Rep(hashes) && o in utxos && |o.hash| == 32
      modifies `utxoCache, `dbDeletes, `dead, `utxos
      ensures Rep(hashes)
      ensures v == old(utxos)[o] && utxos == old(utxos) - {o}
    {
      hide Represents, RowsOf, EntryOk, Candidates, HKey, UKey;
      if o in utxoCache {
        v := utxoCache[o];
        utxoCache := utxoCache - {o};
        utxos := utxos - {o};
        return;
      }
      var candidates := Candidates(db, o);
      ghost var entry := committed[o];
      LiveRows(db, committed, Flushed(), o);
      ghost var own := HKey(o, entry);
      var todo := candidates;
      while todo != {}
        invariant todo <= candidates && own in todo
        invariant unchanged(this)
      {
        var k: Key :| k in todo;
        todo := todo - {k};
        CandidateIsOwn(db, committed, Flushed(), o, k);
        if |candidates| > 1 && FsTxHash(k.num) != Some(o.hash) {
          continue;
        }
        OwnRows(db, committed, Flushed(), o, k);
        var hashX, codeScriptHash := db[k][..HASHX_LEN], db[k][HASHX_LEN..];
        var uKey := U(hashX, k.idx, k.num);
        if uKey in db {
          MarkRows(Elements(dbDeletes), dead, committed, Flushed(), o);
          assert k == own && uKey == UKey(o, entry);
          v := hashX + codeScriptHash + LE(k.num, 5) + db[uKey];
          assert Elements(dbDeletes + [k, uKey]) == Elements(dbDeletes) + {k, uKey};
          dbDeletes := dbDeletes + [k, uKey];
          dead, utxos := dead + {o}, utxos - {o};
          return;
        }
      }
      assert false;
    }

    lemma RepMore(hashes: seq<Bytes>, more: seq<Bytes>)
      requires Rep(hashes)
      ensures Rep(hashes + more)
    {
      hide EntryOk, Represents, RowsOf;
      forall o | o in utxoCache
        ensures EntryOk(o, utxoCache[o], hashes + more)
      {
        EntryOkMore(o, utxoCache[o], hashes, more);
      }
    }

    /** Every entry of the UTXO set names its transaction. */
    lemma RepEntries(hashes: seq<Bytes>)
      requires Rep(hashes)
      ensures EntriesOk(utxos, hashes)
    {
      hide EntryOk, RowsOf;
      forall o | o in utxos
        ensures EntryOk(o, utxos[o], hashes)
      {
        if o !in utxoCache {
          assert HasRows(db, o, committed[o], Flushed());
          EntryOkMore(o, committed[o], Flushed(), hashes[|Flushed()|..]);
          assert Flushed() + hashes[|Flushed()|..] == hashes;
        }
      }
    }

    /** Adds an entry to the cache. */
    method PutUtxo(o: Outpoint, v: Bytes, ghost hashes: seq<Bytes>)
      requires Rep(hashes) && o !in utxos && EntryOk(o, v, hashes)
      modifies `utxoCache, `utxos
      ensures Rep(hashes) && utxos == old(utxos)[o := v]
    {
      hide EntryOk, Represents, RowsOf;
      utxoCache, utxos := utxoCache[o := v], utxos[o := v];
    }

    /** The inputs of one transaction: the entries spent, and their hashXs. */
    method SpendTxInputs(ins: seq<Transactions.TxInput>, ghost hashes: seq<Bytes>)
      returns (entries: seq<Bytes>, hashXs: set<Bytes>)
      requires Rep(hashes) && InputsLive(utxos, ins)
      modifies `utxoCache, `dbDeletes, `dead, `utxos
      ensures Rep(hashes) && utxos == SpendInputs(old(utxos), ins)
      ensures entries == SpentEntries(old(utxos), ins)
      ensures hashXs == set v | v in entries :: HashXOf(v)
    {
      hide Rep, Transactions.TxInput.IsGeneration, HashXOf;
      entries, hashXs := [], {};
      ghost var u := utxos;
      assert ins[0..] == ins;
      for i := 0 to |ins|
        invariant Rep(hashes) && InputsLive(utxos, ins[i..])
        invariant SpendInputs(u, ins) == SpendInputs(utxos, ins[i..])
        invariant SpentEntries(u, ins) == entries + SpentEntries(utxos, ins[i..])
        invariant hashXs == set v | v in entries :: HashXOf(v)
      {
        assert ins[i..][0] == ins[i] && ins[i..][1..] == ins[i + 1..];
        if ins[i].IsGeneration() {
          continue;
        }
        RepEntries(hashes);
        var o := PrevOut(ins[i]);
        assert EntryOk(o, utxos[o], hashes);
        ghost var rest := SpentEntries(utxos - {o}, ins[i + 1..]);
        var v := SpendUtxo(o, hashes);
        assert entries + ([v] + rest) == entries + [v] + rest;
        entries, hashXs := entries + [v], hashXs + {HashXOf(v)};
      }
      assert ins[|ins|..] == [];
      assert entries + [] == entries;
    }

    /** The outputs of one transaction: those that are indexable enter the cache. */
    method AddTxOutputs(t: BlockTx, num: nat, ghost hashes: seq<Bytes>) returns (hashXs: set<Bytes>)
      requires Rep(hashes) && num < |hashes| && num < Range(5) && hashes[num] == t.hash && |t.hash| == 32
      requires forall o :: o in utxos ==> o.hash != t.hash
      modifies `utxoCache, `utxos
      ensures Rep(hashes) && utxos == AddOutputs(coin, old(utxos), t, num, 0)
      ensures hashXs == set i | 0 <= i < |t.tx.outputs| && Scripts.OutputIndexable(t.tx.outputs[i].script)
                          :: coin.OutputHashX(t.tx.outputs[i].script)
    {
      hide Rep, Scripts.OutputIndexable, Coin.OutputHashX, Coin.Entry, Range, NumOf;
      hashXs := {};
      ghost var u := utxos;
      for i := 0 to |t.tx.outputs|
        invariant Rep(hashes)
        invariant AddOutputs(coin, u, t, num, 0) == AddOutputs(coin, utxos, t, num, i)
        invariant forall o :: o in utxos && o.hash == t.hash ==> o.idx < i
        invariant hashXs == set j | 0 <= j < i && Scripts.OutputIndexable(t.tx.outputs[j].script)
                              :: coin.OutputHashX(t.tx.outputs[j].script)
      {
        var out := t.tx.outputs[i];
        var indexable := Scripts.CheckOutputIndexable(out.script);
        if !indexable {
          continue;
        }
        EntryParts(coin, out, num);
        PutUtxo(Outpoint(t.hash, i), coin.Entry(out, num), hashes);
        hashXs := hashXs + {coin.OutputHashX(out.script)};
      }
    }

    /** A block is being advanced: its txids are noted, and some of its transactions may be in the
        caches. */
    ghost predicate Open(block: Block)
      reads this
    {
      && |Txids(chain)| + |block| <= Range(5) && ValidTxs(coin, UtxosAt(coin, chain), block, |Txids(chain)|)
      && dbTxCount <= |fsHashes| && Rep(Txids(chain) + Hashes(block)) && ValidChain(coin, chain)
      && txCount == |Txids(chain)| && height == |chain| - 1
      && Txids(chain) + Hashes(block) == Flushed() + txHashes
      && -1 <= dbHeight <= height && dbTxCount == |Txids(chain[..dbHeight + 1])|
      && UndoKept(coin, chain, recorded, dbHeight, undoDb, undoInfos)
    }

    /** Notes the txids of a block. */
    method BeginBlock(block: Block)
      requires Valid() && ValidTxs(coin, utxos, block, txCount) && txCount + |block| <= Range(5)
      modifies `txHashes
      ensures Open(block)
    {
      hide Rep, Range, ValidTxs, Hashes, UndoKept, UtxosAt, Txids, ValidChain;
      RepMore(Txids(chain), Hashes(block));
      assert Txids(chain) + Hashes(block) == Flushed() + (txHashes + Hashes(block));
      txHashes := txHashes + Hashes(block);
    }

    /** The loop over the transactions of a block. */
    method AdvanceTxs(txs: Block) returns (undoInfo: seq<Bytes>, hashXsByTx: seq<set<Bytes>>)
      requires Open(txs) && ValidTxs(coin, utxos, txs, txCount)
      modifies `utxoCache, `dbDeletes, `dead, `utxos, `touched
      ensures Open(txs) && utxos == Utxos.AdvanceTxs(coin, old(utxos), txs, txCount)
      ensures undoInfo == UndoOf(coin, old(utxos), txs, txCount)
      ensures hashXsByTx == HashXsByTx(coin, old(utxos), txs, txCount)
      ensures touched == old(touched) + UnionAll(hashXsByTx)
    {
      hide Open, Progress, Utxos.AdvanceTx, Utxos.AdvanceTxs, UndoOf, HashXsByTx, ValidTxs, SpentEntries, TxHashXs;
      undoInfo, hashXsByTx := [], [];
      ghost var u := utxos;
      ProgressStart(coin, u, txs, txCount);
      assert UnionAll([]) == {};
      for i := 0 to |txs|
        invariant Open(txs) && Progress(coin, u, txs, txCount, i, utxos, undoInfo, hashXsByTx)
        invariant touched == old(touched) + UnionAll(hashXsByTx)
      {
        ProgressStep(coin, u, txs, txCount, i, utxos, undoInfo, hashXsByTx);
        var spent, hashXs := AdvanceTx(txs, i);
        UnionAllSnoc(hashXsByTx, hashXs);
        undoInfo, hashXsByTx := undoInfo + spent, hashXsByTx + [hashXs];
      }
      ProgressEnd(coin, u, txs, txCount, utxos, undoInfo, hashXsByTx);
    }

    /** One transaction: spend the inputs, then add the outputs. */
    method AdvanceTx(block: Block, i: nat) returns (spent: seq<Bytes>, hashXs: set<Bytes>)
      requires Open(block) && i < |block| && ValidTx(utxos, block[i])
      modifies `utxoCache, `dbDeletes, `dead, `utxos, `touched
      ensures Open(block) && utxos == Utxos.AdvanceTx(coin, old(utxos), block[i], txCount + i)
      ensures InputsLive(old(utxos), block[i].tx.inputs) && spent == SpentEntries(old(utxos), block[i].tx.inputs)
      ensures hashXs == TxHashXs(coin, old(utxos), block[i]) && touched == old(touched) + hashXs
    {
      hide Rep, Range, AddOutputs, SpendInputs, SpentEntries, InputsLive, Coin.OutputHashX, Scripts.OutputIndexable, ValidTxs,
        UndoKept, UtxosAt, Txids, ValidChain;
      ghost var all := Txids(chain) + Hashes(block);
      assert all[txCount + i] == block[i].hash;
      SpendOnlyRemoves(utxos, block[i].tx.inputs);
      var inHashXs, outHashXs;
      spent, inHashXs := SpendTxInputs(block[i].tx.inputs, all);
      outHashXs := AddTxOutputs(block[i], txCount + i, all);
      hashXs := inHashXs + outHashXs;
      touched := touched + hashXs;
    }

    /** Closes a block whose transactions are all in the caches. */
    method EndBlock(block: Block, undoInfo: seq<Bytes>, daemonHeight: int)
      requires Open(block) && utxos == Utxos.AdvanceTxs(coin, UtxosAt(coin, chain), block, txCount)
      requires undoInfo == UndoOf(coin, UtxosAt(coin, chain), block, txCount)
      modifies `txCount, `height, `undoInfos, `chain, `recorded
      ensures Valid() && chain == old(chain) + [block] && height == old(height) + 1
      ensures recorded == old(recorded) + (if |old(chain)| >= daemonHeight - reorgLimit + 1 then {|old(chain)|} else {})
    {
      hide Rep, Range, Utxos.AdvanceTxs, ValidTxs, UndoOf, Hashes, UndoKept, UtxosAt, Txids, ValidChain, LastUndo;
      var minHeight := daemonHeight - reorgLimit + 1;
      txCount := txCount + |block|;
      height := height + 1;
      ChainStep(coin, chain, block);
      assert (chain + [block])[..dbHeight + 1] == chain[..dbHeight + 1];
      UndoAfterAdvance(coin, chain, recorded, dbHeight, undoDb, undoInfos, block, undoInfo, height >= minHeight);
      chain := chain + [block];
      if height >= minHeight {
        undoInfos := undoInfos + [(undoInfo, height)];
        recorded := recorded + {height};
      } else {
        assert undoInfos + [] == undoInfos && recorded + {} == recorded;
      }
    }

    // ----- Flushing -----

    predicate CachesEmpty()
      reads this
    {
      utxoCache == map[] && dbDeletes == [] && undoInfos == [] && txHashes == []
    }

    /** Writes the cache to the tables, deletes before puts, in one batch.  The map they stand
        for does not change. */
    method FlushUtxos(ghost hashes: seq<Bytes>)
      requires Rep(hashes)
      requires hashes == Flushed() + txHashes || txHashes == []
      modifies `utxoCache, `dbDeletes, `db, `committed, `dead
      ensures utxoCache == map[] && dbDeletes == [] && committed == utxos && dead == {}
      ensures Represents(db, utxos, hashes)
    {
      hide EntryOk, Represents, RowsOf;
      var batch := db;
      ghost var live := committed - dead;
      ghost var fl := Flushed();
      assert hashes == fl + hashes[|fl|..];
      DeleteRows(batch, committed, fl, dead, Elements(dbDeletes));
      var i := 0;
      while i < |dbDeletes|
        invariant i <= |dbDeletes| && batch == db - Elements(dbDeletes[..i])
        invariant unchanged(this)
      {
        assert Elements(dbDeletes[..i + 1]) == Elements(dbDeletes[..i]) + {dbDeletes[i]};
        batch := batch - {dbDeletes[i]};
        i := i + 1;
      }
      assert dbDeletes[..i] == dbDeletes;
      RepresentsMore(batch, live, fl, hashes[|fl|..]);
      var todo := utxoCache.Keys;
      ghost var m := live;
      while todo != {}
        invariant todo <= utxoCache.Keys && unchanged(this)
        invariant Represents(batch, m, hashes)
        invariant m.Keys !! todo && m + utxoCache == utxos
        invariant forall o :: o in utxoCache && o !in todo ==> o in m && m[o] == utxoCache[o]
      {
        var o: Outpoint :| o in todo;
        todo := todo - {o};
        var v := utxoCache[o];
        EntryShape(o, v, hashes);
        PutRows(batch, m, hashes, o, v);
        batch := PutEntry(batch, o, v);
        m := m[o := v];
      }
      assert m == utxos;
      db, dbDeletes, utxoCache := batch, [], map[];
      committed, dead := utxos, {};
    }

    // ----- Backing up one block -----

    /** Spends the outputs of a transaction again. */
    method RemoveTxOutputs(t: BlockTx, ghost hashes: seq<Bytes>)
      requires Rep(hashes) && |t.hash| == 32
      requires forall o :: o in Created(t, |t.tx.outputs|) ==> o in utxos
      modifies `utxoCache, `dbDeletes, `dead, `utxos, `touched
      ensures Rep(hashes) && utxos == old(utxos) - Created(t, |t.tx.outputs|)
      ensures touched == old(touched) + set o | o in Created(t, |t.tx.outputs|) && o in old(utxos) :: HashXOf(old(utxos)[o])
    {
      hide Rep, Scripts.OutputIndexable, HashXOf;
      ghost var u, touched0 := utxos, touched;
      assert Created(t, 0) == {};
      for i := 0 to |t.tx.outputs|
        invariant Rep(hashes) && utxos == u - Created(t, i)
        invariant touched == touched0 + set o | o in Created(t, i) && o in u :: HashXOf(u[o])
      {
        var indexable := Scripts.CheckOutputIndexable(t.tx.outputs[i].script);
        if !indexable {
          assert Created(t, i + 1) == Created(t, i);
          continue;
        }
        var o := Outpoint(t.hash, i);
        assert Created(t, i + 1) == Created(t, i) + {o};
        assert o in Created(t, |t.tx.outputs|);
        var v := SpendUtxo(o, hashes);
        touched := touched + {HashXOf(v)};
      }
    }

    /** Puts the inputs of a transaction back, last first, reading the undo information from its
        end.  `u` is the map before the transaction and `es` the entries read so far from the end
        on; the last of them are the ones this transaction spent. */
    method RestoreTxInputs(ins: seq<Transactions.TxInput>, undoInfo: Bytes, n0: nat,
                           ghost u: UtxoMap, ghost all: seq<Bytes>, ghost pre: seq<Bytes>, ghost hashes: seq<Bytes>)
      returns (n: nat)
      requires Rep(hashes) && InputsLive(u, ins) && EntriesOk(u, hashes) && utxos == SpendInputs(u, ins)
      requires undoInfo == Join(all) && AllEntries(all) && pre + SpentEntries(u, ins) <= all
      requires n0 == ENTRY_LEN * (|pre| + |SpentEntries(u, ins)|)
      modifies `utxoCache, `utxos, `touched
      ensures Rep(hashes) && utxos == u && n == ENTRY_LEN * |pre|
      ensures touched == old(touched) + set v | v in SpentEntries(u, ins) :: HashXOf(v)
    {
      hide Rep, Transactions.TxInput.IsGeneration, HashXOf, Join, SpentEntries, SpendInputs, InputsLive, EntryOk;
      n := n0;
      ghost var touched0 := touched;
      ghost var spent := SpentEntries(u, ins);
      assert ins[..|ins|] == ins;
      var j := |ins|;
      while j > 0
        invariant 0 <= j <= |ins| && Rep(hashes) && InputsLive(u, ins[..j]) && utxos == SpendInputs(u, ins[..j])
        invariant |SpentEntries(u, ins[..j])| <= |spent| && SpentEntries(u, ins[..j]) == spent[..|SpentEntries(u, ins[..j])|]
        invariant n == ENTRY_LEN * (|pre| + |SpentEntries(u, ins[..j])|)
        invariant touched == touched0 + set v | v in spent[|SpentEntries(u, ins[..j])|..] :: HashXOf(v)
      {
        j := j - 1;
        LastInput(u, ins[..j + 1]);
        assert ins[..j + 1][..j] == ins[..j];
        if ins[j].IsGeneration() {
          continue;
        }
        var o := PrevOut(ins[j]);
        ghost var k := |pre| + |SpentEntries(u, ins[..j])|;
        assert all[k] == (pre + spent)[k];
        JoinSlice(all, k);
        n := n - ENTRY_LEN;
        var undoItem := undoInfo[n..n + ENTRY_LEN];
        SpendOnlyRemoves(u, ins[..j]);
        assert EntryOk(o, u[o], hashes);
        ghost var c := |SpentEntries(u, ins[..j])|;
        assert spent[c..] == [spent[c]] + spent[c + 1..];
        PutUtxo(o, undoItem, hashes);
        touched := touched + {HashXOf(undoItem)};
        assert utxos == SpendInputs(u, ins[..j]);
      }
      assert ins[..0] == [];
      NoInputs(u);
    }

    /** Undoes one transaction: its outputs are spent, then its inputs put back. */
    method BackupTx(t: BlockTx, undoInfo: Bytes, n0: nat, ghost u: UtxoMap, ghost num: nat,
                    ghost all: seq<Bytes>, ghost pre: seq<Bytes>, ghost hashes: seq<Bytes>)
      returns (n: nat)
      requires Rep(hashes) && ValidTx(u, t) && num < Range(5) && EntriesOk(u, hashes)
      requires utxos == Utxos.AdvanceTx(coin, u, t, num)
      requires InputsLive(u, t.tx.inputs) && pre + SpentEntries(u, t.tx.inputs) <= all
      requires undoInfo == Join(all) && AllEntries(all)
      requires n0 == ENTRY_LEN * (|pre| + |SpentEntries(u, t.tx.inputs)|)
      modifies `utxoCache, `dbDeletes, `dead, `utxos, `touched
      ensures Rep(hashes) && utxos == u && n == ENTRY_LEN * |pre|
      ensures touched == old(touched) + TxHashXs(coin, u, t)
    {
      hide Rep, Range, AddOutputs, SpendInputs, SpentEntries, InputsLive, Coin.OutputHashX, Scripts.OutputIndexable,
           Join, NumOf, HashXOf, EntriesOk, Utxos.BackupTx;
      ghost var spent, touched0 := SpentEntries(u, t.tx.inputs), touched;
      SpendOnlyRemoves(u, t.tx.inputs);
      AddedOutputs(coin, SpendInputs(u, t.tx.inputs), t, num, 0);
      assert Created(t, 0) == {};
      RemoveUndoesAdd(coin, SpendInputs(u, t.tx.inputs), t, num);
      ghost var after := utxos;
      RemoveTxOutputs(t, hashes);
      n := RestoreTxInputs(t.tx.inputs, undoInfo, n0, u, all, pre, hashes);
      BackupTouchesTx(coin, u, t, num, pre);
      BackupUndoesTx(coin, u, t, num, pre);
      assert (pre + spent)[|pre|..] == spent;
    }

    /** Undoes the transactions of a block, last first.  The undo information is used up exactly,
        and every hashX the block put in the history is touched. */
    method BackupTxs(txs: Block, undoInfo: Bytes, ghost u: UtxoMap, ghost num: nat, ghost hashes: seq<Bytes>)
      returns (n: nat)
      requires Rep(hashes) && ValidTxs(coin, u, txs, num) && num + |txs| <= Range(5)
      requires num <= |hashes| && EntriesOk(u, hashes[..num]) && Hashes(txs) == hashes[num..]
      requires utxos == Utxos.AdvanceTxs(coin, u, txs, num)
      requires undoInfo == Join(UndoOf(coin, u, txs, num)) && AllEntries(UndoOf(coin, u, txs, num))
      requires txCount == num + |txs|
      modifies `utxoCache, `dbDeletes, `dead, `utxos, `touched, `txCount
      ensures Rep(hashes) && utxos == u && n == 0 && txCount == num
      ensures touched == old(touched) + UnionAll(HashXsByTx(coin, u, txs, num))
    {
      hide Rep, Range, Utxos.AdvanceTx, Utxos.AdvanceTxs, UndoOf, HashXsByTx, ValidTxs, ValidTx, SpentEntries,
           TxHashXs, Join, EntriesOk, HashXOf, AllEntries, Hashes;
      n := |undoInfo|;
      ghost var all := UndoOf(coin, u, txs, num);
      ghost var touched0 := touched;
      JoinLength(all);
      var i := |txs|;
      assert txs[..|txs|] == txs;
      NoTouches(coin, u, txs, num);
      while i > 0
        invariant 0 <= i <= |txs| && Rep(hashes)
        invariant ValidTxs(coin, u, txs[..i], num) && utxos == Utxos.AdvanceTxs(coin, u, txs[..i], num)
        invariant UndoOf(coin, u, txs[..i], num) <= all && n == ENTRY_LEN * |UndoOf(coin, u, txs[..i], num)|
        invariant touched == touched0 + UnionAll(HashXsByTx(coin, u, txs, num)[i..])
        invariant txCount == num + |txs|
      {
        i := i - 1;
        ghost var m, pre := MidBlock(u, txs, num, i, hashes);
        n := BackupTx(txs[i], undoInfo, n, m, num + i, all, pre, hashes);
        ghost var sets := HashXsByTx(coin, u, txs, num);
        assert sets[i..] == [sets[i]] + sets[i + 1..];
      }
      assert txs[..0] == [];
      EmptyBlock(coin, u, num);
      assert HashXsByTx(coin, u, txs, num)[0..] == HashXsByTx(coin, u, txs, num);
      txCount := txCount - |txs|;
    }

    /** The map before transaction `i` of the block, and the undo entries of those before it. */
    lemma MidBlock(u: UtxoMap, txs: Block, num: nat, i: nat, hashes: seq<Bytes>) returns (m: UtxoMap, pre: seq<Bytes>)
      requires ValidTxs(coin, u, txs, num) && i < |txs| && num + |txs| <= Range(5)
      requires num <= |hashes| && EntriesOk(u, hashes[..num]) && Hashes(txs) == hashes[num..]
      ensures ValidTxs(coin, u, txs[..i], num) && ValidTxs(coin, u, txs[..i + 1], num)
      ensures m == Utxos.AdvanceTxs(coin, u, txs[..i], num) && pre == UndoOf(coin, u, txs[..i], num)
      ensures ValidTx(m, txs[i]) && InputsLive(m, txs[i].tx.inputs) && EntriesOk(m, hashes)
      ensures Utxos.AdvanceTxs(coin, u, txs[..i + 1], num) == Utxos.AdvanceTx(coin, m, txs[i], num + i)
      ensures UndoOf(coin, u, txs[..i + 1], num) == pre + SpentEntries(m, txs[i].tx.inputs)
      ensures HashXsByTx(coin, u, txs, num)[i] == TxHashXs(coin, m, txs[i])
    {
      hide Range, Utxos.AdvanceTx, ValidTx, SpentEntries, TxHashXs, EntryOk;
      SplitAdvance(coin, u, txs, num, i + 1);
      var front := txs[..i + 1];
      SplitAdvance(coin, u, front, num, i);
      assert front[..i] == txs[..i] && front[i..] == [txs[i]];
      m, pre := Utxos.AdvanceTxs(coin, u, txs[..i], num), UndoOf(coin, u, txs[..i], num);
      OneTx(coin, m, txs[i], num + i);
      EntriesOkTxs(coin, u, txs[..i], hashes[..num]);
      forall o | o in m
        ensures EntryOk(o, m[o], hashes)
      {
        var known := hashes[..num] + Hashes(txs[..i]);
        assert EntryOk(o, m[o], known);
        EntryOkMore(o, m[o], known, hashes[num + i..]);
        assert known == hashes[..num + i] by {
          assert Hashes(txs[..i]) == Hashes(txs)[..i];
        }
        assert known + hashes[num + i..] == hashes;
      }
      HashXsAt(coin, u, txs, num, i);
    }

    // ----- Whole blocks -----

    ghost predicate Valid()
      reads this
    {
      && dbTxCount <= |fsHashes| && Rep(Txids(chain)) && ValidChain(coin, chain) && utxos == UtxosAt(coin, chain)
      && txCount == |Txids(chain)| && height == |chain| - 1
      && Txids(chain) == Flushed() + txHashes
      && -1 <= dbHeight <= height && dbTxCount == |Txids(chain[..dbHeight + 1])|
      && (dbHeight == height ==> CachesEmpty())
      && UndoKept(coin, chain, recorded, dbHeight, undoDb, undoInfos)
    }

    /** Advances one block.  Undo information is kept for it when it is within the reorg limit
        of the daemon's height. */
    method AdvanceBlock(block: Block, daemonHeight: int) returns (hashXsByTx: seq<set<Bytes>>)
      requires Valid() && ValidTxs(coin, utxos, block, txCount) && txCount + |block| <= Range(5)
      modifies `txHashes, `utxoCache, `dbDeletes, `dead, `utxos, `touched, `txCount, `height, `undoInfos, `chain, `recorded
      ensures Valid() && chain == old(chain) + [block]
      ensures recorded == old(recorded) + (if |old(chain)| >= daemonHeight - reorgLimit + 1 then {|old(chain)|} else {})
      ensures hashXsByTx == HashXsByTx(coin, old(utxos), block, old(txCount))
      ensures touched == old(touched) + UnionAll(hashXsByTx)
    {
      hide Rep, Range, Utxos.AdvanceTxs, ValidTxs, UndoOf, HashXsByTx, Hashes, UndoKept, UtxosAt, Txids, ValidChain, LastUndo,
        UnionAll;
      BeginBlock(block);
      var undoInfo;
      undoInfo, hashXsByTx := AdvanceTxs(block);
      EndBlock(block, undoInfo, daemonHeight);
    }

    /** Flushes everything at a block boundary.  Neither the map nor the chain changes. */
    method Flush()
      requires Valid()
      modifies this
      ensures Valid() && CachesEmpty() && dbHeight == height && committed == utxos
      ensures chain == old(chain) && utxos == old(utxos) && recorded == old(recorded) && touched == old(touched)
    {
      hide Rep, UndoKept, UtxosAt, Txids, ValidChain, Represents;
      if height == dbHeight {
        FlushedRows();
        return;
      }
      ghost var hashes := Txids(chain);
      FlushUtxos(hashes);
      FlushHashes();
      FlushUndo();
      assert chain[..height + 1] == chain;
      RepFlushed(hashes);
      dbHeight := height;
    }

    /** Appends the txids to the hash file, over what an earlier reorg left there. */
    method FlushHashes()
      requires dbTxCount <= |fsHashes| && txCount == dbTxCount + |txHashes|
      modifies `fsHashes, `dbTxCount, `txHashes
      ensures Flushed() == old(Flushed()) + old(txHashes) && txHashes == []
      ensures dbTxCount == txCount <= |fsHashes|
    {
      fsHashes := Overwritten(fsHashes, dbTxCount, txHashes);
      dbTxCount, txHashes := txCount, [];
    }

    lemma RepFlushed(hashes: seq<Bytes>)
      requires utxoCache == map[] && dbDeletes == [] && committed == utxos && dead == {}
      requires dbTxCount <= |fsHashes| && Flushed() == hashes && Represents(db, utxos, hashes)
      ensures Rep(hashes)
    {
    }

    /** Writes the undo rows of the window. */
    method FlushUndo()
      requires UndoKept(coin, chain, recorded, dbHeight, undoDb, undoInfos)
      modifies `undoDb, `undoInfos
      ensures undoInfos == []
      ensures forall newHeight :: newHeight == |chain| - 1 ==> UndoKept(coin, chain, recorded, newHeight, undoDb, [])
    {
      hide Join, UndoRow;
      var rows: map<nat, Bytes> := undoDb;
      for i := 0 to |undoInfos|
        invariant unchanged(this)
        invariant forall h :: h in undoDb && h <= dbHeight ==> h in rows && rows[h] == undoDb[h]
        invariant forall j :: 0 <= j < i ==>
                    undoInfos[j].1 in rows && undoInfos[j].1 < |chain| && rows[undoInfos[j].1] == UndoRow(coin, chain, undoInfos[j].1)
      {
        var h: nat := undoInfos[i].1;
        rows := rows[h := Join(undoInfos[i].0)];
      }
      undoDb, undoInfos := rows, [];
    }

    /** The tip block is undone in the caches; the rows and the file still describe it. */
    ghost predicate BackedUp(block: Block)
      reads this
    {
      && dbTxCount <= |fsHashes| && Rep(Txids(chain + [block])) && ValidChain(coin, chain) && utxos == UtxosAt(coin, chain)
      && txCount == |Txids(chain)| && height == |chain| - 1 && txHashes == [] && undoInfos == []
      && Flushed() == Txids(chain + [block]) && Txids(chain) <= Txids(chain + [block])
      && UndoKept(coin, chain, recorded, height, undoDb, [])
    }

    /** Undoes the tip block from its undo row. */
    method UndoTip(block: Block)
      requires Valid() && CachesEmpty() && dbHeight == height && height >= 0
      requires block == chain[height] && height in recorded && height in undoDb
      modifies `utxoCache, `dbDeletes, `dead, `utxos, `touched, `txCount, `height, `chain, `recorded
      ensures BackedUp(block)
      ensures chain == old(chain)[..|old(chain)| - 1] && recorded == old(recorded) - {old(height)}
      ensures ValidTxs(coin, utxos, block, txCount)
      ensures touched == old(touched) + UnionAll(HashXsByTx(coin, utxos, block, txCount))
    {
      hide Rep, Join, Utxos.AdvanceTxs, ValidTxs, UndoOf, HashXsByTx, Hashes, Range, EntriesOk, UndoKept, UtxosAt, Txids,
           ValidChain, LastUndo, AllEntries, UnionAll;
      ghost var hashes, before := Txids(chain), chain[..|chain| - 1];
      assert chain == before + [block] && chain[..height + 1] == chain;
      LastBlock(coin, before, block);
      UndoRowIs(coin, chain, recorded, dbHeight, undoDb, undoInfos, height);
      ghost var u, num := UtxosAt(coin, before), |Txids(before)|;
      EntriesOkChain(coin, before);
      UndoEntries(coin, u, block, num, Txids(before));
      assert hashes[..num] == Txids(before) && hashes[num..] == Hashes(block);
      UndoAfterBackup(coin, before, block, recorded, dbHeight, undoDb);
      var undoInfo := undoDb[height];
      var n := BackupTxs(block, undoInfo, u, num, hashes);
      assert n == 0;
      height := height - 1;
      chain, recorded := before, recorded - {height + 1};
    }

    /** Commits the backed-up state: the file pointers move back, the caches go to the rows. */
    method FlushBackup(ghost block: Block)
      requires BackedUp(block)
      modifies `utxoCache, `dbDeletes, `db, `committed, `dead, `dbTxCount, `dbHeight
      ensures Valid() && CachesEmpty() && dbHeight == height && committed == utxos
    {
      hide Rep, UndoKept, UtxosAt, Txids, ValidChain, EntriesOk, Represents;
      ghost var hashes := Txids(chain + [block]);
      EntriesOkChain(coin, chain);
      FlushUtxos(hashes);
      assert hashes[..txCount] == Txids(chain);
      RepresentsFewer(db, utxos, hashes, txCount);
      dbTxCount, dbHeight := txCount, height;
      assert Flushed() == hashes[..txCount];
      assert chain[..height + 1] == chain;
      RepFlushed(Txids(chain));
    }

    /** Backs up the tip block and flushes, restoring the state before the block.  False if there
        is no undo information; nothing has changed then. */
    method BackupBlock(block: Block) returns (ok: bool)
      requires Valid() && CachesEmpty() && dbHeight == height && height > 0
      requires block == chain[height]
      requires height in undoDb ==> height in recorded
      modifies this
      ensures ok <==> old(height) in old(undoDb)
      ensures Valid() && CachesEmpty() && dbHeight == height && undoDb == old(undoDb)
      ensures !ok ==> chain == old(chain) && recorded == old(recorded) && touched == old(touched)
      ensures ok ==> chain == old(chain)[..|old(chain)| - 1] && recorded == old(recorded) - {old(height)}
      ensures ok ==> ValidTxs(coin, utxos, block, txCount) && committed == utxos
      ensures ok ==> touched == old(touched) + UnionAll(HashXsByTx(coin, utxos, block, txCount))
    {
      hide Rep, UndoKept, UtxosAt, Txids, ValidChain, ValidTxs, HashXsByTx, UnionAll, BackedUp;
      if height !in undoDb {
        return false;
      }
      UndoTip(block);
      FlushBackup(block);
      return true;
    }

    /** A reorg of `count` blocks: flush, then back up block by block.  `blocks` are the blocks
        replaced, in increasing height. */
    method ReorgChain(count: nat, blocks: seq<Block>) returns (ok: bool)
      requires Valid() && count < |chain| && blocks == chain[|chain| - count..]
      requires forall h :: |chain| - count <= h < |chain| ==> h in recorded
      modifies this
      ensures ok && Valid() && CachesEmpty() && chain == old(chain)[..|old(chain)| - count]
      ensures utxos == UtxosAt(coin, old(chain)[..|old(chain)| - count])
    {
      hide Rep, UndoKept, UtxosAt, Txids, ValidChain;
      Flush();
      var i := count;
      while i > 0
        invariant 0 <= i <= count && Valid() && CachesEmpty() && dbHeight == height
        invariant chain == old(chain)[..|old(chain)| - count + i]
        invariant forall h :: |old(chain)| - count <= h < |chain| ==> h in recorded
      {
        i := i - 1;
        assert blocks[i] == chain[height];
        UndoRowIs(coin, chain, recorded, dbHeight, undoDb, undoInfos, height);
        ok := BackupBlock(blocks[i]);
        assert ok;
      }
      ok := true;
    }

    // ----- Queries, answered from the database once flushed -----

    lemma FlushedRows()
      requires Rep(Txids(chain)) && dbDeletes == [] && utxoCache == map[]
      ensures Represents(db, utxos, Flushed()) && committed == utxos
    {
      hide EntryOk, HKey, UKey, RowOwned;
      assert Elements(dbDeletes) == {};
      assert dead == {};
      assert utxos == committed;
    }

    /** All unspent outputs filed under a hashX: each once, no other, with the height of its block. */
    method AllUtxos(hashX: Bytes, counts: seq<nat>) returns (r: seq<Utxo>)
      requires Valid() && CachesEmpty() && counts == ChainFiles.Counts(chain)
      ensures forall i, j :: 0 <= i < j < |r| ==> r[i] != r[j]
      ensures forall x :: x in r <==> exists o :: o in utxos && |utxos[o]| == ENTRY_LEN && HashXOf(utxos[o]) == hashX && x == UtxoOf(o, utxos[o], counts)
      ensures forall x :: x in r ==> ChainFiles.InBlock(chain, x.num, x.height)
    {
      hide Rep, UndoKept, UtxosAt, Txids, ValidChain, Represents, HashXOf, UtxoOf, ChainFiles.Counts, ChainFiles.InBlock;
      FlushedRows();
      r := RowsUnder(hashX, counts);
      forall x | x in r
        ensures ChainFiles.InBlock(chain, x.num, x.height)
      {
        ChainFiles.FoundInBlock(chain, x.num);
      }
    }

    /** The rows under a hashX, resolved. */
    method RowsUnder(hashX: Bytes, counts: seq<nat>) returns (r: seq<Utxo>)
      requires dbTxCount <= |fsHashes| && Represents(db, utxos, Flushed())
      ensures forall i, j :: 0 <= i < j < |r| ==> r[i] != r[j]
      ensures forall x :: x in r <==> exists o :: o in utxos && |utxos[o]| == ENTRY_LEN && HashXOf(utxos[o]) == hashX && x == UtxoOf(o, utxos[o], counts)
      ensures forall x :: x in r ==> x.num < dbTxCount && x.height == BisectRight(counts, x.num)
    {
      hide Represents, EntryOk, HashXOf, NumOf, ValueBytes, UKey, FromLE, BisectRight;
      ghost var hashes := Flushed();
      var keys := set k | k in db && k.U? && k.hashX == hashX;
      var todo := keys;
      r := [];
      while todo != {}
        invariant todo <= keys
        invariant forall i, j :: 0 <= i < j < |r| ==> r[i] != r[j]
        invariant forall x :: x in r ==> exists k :: k in keys - todo && k.num < |hashes| && x == RowUtxo(db, k, hashes, counts)
        invariant forall k :: k in keys - todo ==> k.num < |hashes| && RowUtxo(db, k, hashes, counts) in r
      {
        var k: Key :| k in todo;
        RowIsOf(db, utxos, hashes, k);
        ghost var r0 := r;
        assert forall k' :: k' in keys - todo ==> k'.num != k.num || k'.idx != k.idx;
        assert RowUtxo(db, k, hashes, counts) !in r0;
        r := r + [Utxo(k.num, k.idx, FsTxHash(k.num).value, BisectRight(counts, k.num), FromLE(db[k]))];
        assert r[|r0|] == RowUtxo(db, k, hashes, counts) && forall x :: x in r <==> x in r0 || x == RowUtxo(db, k, hashes, counts);
        todo := todo - {k};
      }
      RowsAreUtxos(db, utxos, hashes, hashX, counts);
    }

    /** The hashX and value of a prevout if it is unspent, else None. */
    method LookupUtxo(o: Outpoint) returns (r: Option<(Bytes, nat)>)
      requires Valid() && CachesEmpty() && |o.hash| == 32
      ensures o in utxos ==>
                && |utxos[o]| == ENTRY_LEN
                && r == Some((HashXOf(utxos[o]), FromLE(ValueBytes(utxos[o]))))
      ensures o !in utxos ==> r == None
    {
      hide Rep, UndoKept, UtxosAt, Txids, ValidChain, Represents, EntryOk;
      FlushedRows();
      ghost var hashes := Flushed();
      var candidates := Candidates(db, o);
      var todo := candidates;
      if o in utxos {
        LiveRows(db, utxos, hashes, o);
      }
      while todo != {}
        invariant todo <= candidates
        invariant o in utxos ==> HKey(o, utxos[o]) in todo
      {
        var k: Key :| k in todo;
        todo := todo - {k};
        CandidateOwner(db, utxos, hashes, o, k);
        if FsTxHash(k.num) == Some(o.hash) {
          OwnRows(db, utxos, hashes, o, k);
          var hashX := db[k][..HASHX_LEN];
          var uKey := U(hashX, k.idx, k.num);
          return Some((hashX, FromLE(db[uKey])));
        }
      }
      return None;
    }
  }

  lemma CandidateOwner(db: Table, m: UtxoMap, hashes: seq<Bytes>, o: Outpoint, k: Key)
    requires Represents(db, m, hashes) && |o.hash| == 32 && k in Candidates(db, o)
    ensures k.num < |hashes|
    ensures hashes[k.num] == o.hash ==> o in m && HasRows(db, o, m[o], hashes) && k == HKey(o, m[o])
    ensures hashes[k.num] == o.hash ==> db[UKey(o, m[o])] == ValueBytes(m[o]) && UKey(o, m[o]).hashX == HashXOf(m[o])
    ensures hashes[k.num] != o.hash && o in m ==> |m[o]| == ENTRY_LEN && k != HKey(o, m[o])
  {
    hide HashXOf, NumOf;
    assert RowOwned(k, m, hashes);
    if o in m {
      assert HasRows(db, o, m[o], hashes);
    }
  }

  lemma RowsAreUtxos(db: Table, m: UtxoMap, hashes: seq<Bytes>, hashX: Bytes, counts: seq<nat>)
    requires Represents(db, m, hashes)
    ensures forall k :: k in db && k.U? && k.hashX == hashX ==>
              && k.num < |hashes|
              && exists o :: o in m && |m[o]| == ENTRY_LEN && HashXOf(m[o]) == hashX && RowUtxo(db, k, hashes, counts) == UtxoOf(o, m[o], counts)
    ensures forall o :: o in m && |m[o]| == ENTRY_LEN && HashXOf(m[o]) == hashX ==>
              exists k :: k in db && k.U? && k.hashX == hashX && k.num < |hashes| && RowUtxo(db, k, hashes, counts) == UtxoOf(o, m[o], counts)
  {
    hide HashXOf, NumOf, Represents, UtxoOf, RowUtxo, EntryOk;
    forall k | k in db && k.U? && k.hashX == hashX
      ensures k.num < |hashes|
      ensures exists o :: o in m && |m[o]| == ENTRY_LEN && HashXOf(m[o]) == hashX && RowUtxo(db, k, hashes, counts) == UtxoOf(o, m[o], counts)
    {
      RowIsOf(db, m, hashes, k);
      RowSays(db, m, hashes, Owner(k, hashes), counts);
      EntryShape(Owner(k, hashes), m[Owner(k, hashes)], hashes);
    }
    forall o | o in m && |m[o]| == ENTRY_LEN && HashXOf(m[o]) == hashX
      ensures exists k :: k in db && k.U? && k.hashX == hashX && k.num < |hashes| && RowUtxo(db, k, hashes, counts) == UtxoOf(o, m[o], counts)
    {
      RowSays(db, m, hashes, o, counts);
      assert UKey(o, m[o]).U? && UKey(o, m[o]).hashX == hashX;
    }
  }

  // ----- The undo rows -----

  /** The row that belongs to a height. */
  function UndoRow(coin: Coin, chain: seq<Block>, h: nat): Bytes
    requires h < |chain|
  {
    Join(LastUndo(coin, chain[..h + 1]))
  }

  /** The undo rows kept, in the database or waiting for the flush, are those of the chain. */
  ghost predicate UndoKept(coin: Coin, chain: seq<Block>, recorded: set<nat>, dbHeight: int,
                           undoDb: map<nat, Bytes>, undoInfos: seq<(seq<Bytes>, nat)>)
  {
    && (forall h :: h in recorded ==>
          && h < |chain|
          && (h <= dbHeight ==> h in undoDb && undoDb[h] == UndoRow(coin, chain, h))
          && (h > dbHeight ==> exists i :: 0 <= i < |undoInfos| && undoInfos[i].1 == h))
    && (forall i :: 0 <= i < |undoInfos| ==>
          dbHeight < undoInfos[i].1 < |chain| && Join(undoInfos[i].0) == UndoRow(coin, chain, undoInfos[i].1))
  }

  lemma UndoRowIs(coin: Coin, chain: seq<Block>, recorded: set<nat>, dbHeight: int,
                  undoDb: map<nat, Bytes>, undoInfos: seq<(seq<Bytes>, nat)>, h: nat)
    requires UndoKept(coin, chain, recorded, dbHeight, undoDb, undoInfos) && h in recorded && h <= dbHeight
    ensures h < |chain| && h in undoDb && undoDb[h] == Join(LastUndo(coin, chain[..h + 1]))
  {
    hide Join, LastUndo;
  }

  lemma RowOfPrefix(coin: Coin, chain: seq<Block>, block: Block, h: nat)
    requires h < |chain|
    ensures UndoRow(coin, chain + [block], h) == UndoRow(coin, chain, h)
  {
    assert (chain + [block])[..h + 1] == chain[..h + 1];
  }

  lemma UndoAfterAdvance(coin: Coin, chain: seq<Block>, recorded: set<nat>, dbHeight: int, undoDb: map<nat, Bytes>,
                         undoInfos: seq<(seq<Bytes>, nat)>, block: Block, undoInfo: seq<Bytes>, keep: bool)
    requires UndoKept(coin, chain, recorded, dbHeight, undoDb, undoInfos) && dbHeight < |chain|
    requires undoInfo == LastUndo(coin, chain + [block])
    ensures UndoKept(coin, chain + [block], recorded + (if keep then {|chain|} else {}), dbHeight, undoDb,
                     undoInfos + (if keep then [(undoInfo, |chain|)] else []))
  {
    hide Join, LastUndo, UndoRow;
    var all := undoInfos + (if keep then [(undoInfo, |chain|)] else []);
    assert forall i :: 0 <= i < |undoInfos| ==> all[i] == undoInfos[i];
    forall h | h in recorded
      ensures UndoRow(coin, chain + [block], h) == UndoRow(coin, chain, h)
      ensures h > dbHeight ==> exists i :: 0 <= i < |all| && all[i].1 == h
    {
      RowOfPrefix(coin, chain, block, h);
      if h > dbHeight {
        var i :| 0 <= i < |undoInfos| && undoInfos[i].1 == h;
        assert all[i].1 == h;
      }
    }
    forall i | 0 <= i < |all|
      ensures dbHeight < all[i].1 < |chain| + 1 && Join(all[i].0) == UndoRow(coin, chain + [block], all[i].1)
    {
      if i < |undoInfos| {
        RowOfPrefix(coin, chain, block, undoInfos[i].1);
      } else {
        NewRow(coin, chain, block);
      }
    }
    if keep {
      assert all[|undoInfos|].1 == |chain|;
    }
  }

  lemma NewRow(coin: Coin, chain: seq<Block>, block: Block)
    ensures UndoRow(coin, chain + [block], |chain|) == Join(LastUndo(coin, chain + [block]))
  {
    assert (chain + [block])[..|chain| + 1] == chain + [block];
  }

  lemma UndoAfterBackup(coin: Coin, chain: seq<Block>, block: Block, recorded: set<nat>, dbHeight: int, undoDb: map<nat, Bytes>)
    requires UndoKept(coin, chain + [block], recorded, dbHeight, undoDb, []) && dbHeight == |chain|
    ensures UndoKept(coin, chain, recorded - {|chain|}, dbHeight - 1, undoDb, [])
  {
    hide UndoRow;
    forall h | h in recorded - {|chain|}
      ensures h < |chain| && UndoRow(coin, chain, h) == UndoRow(coin, chain + [block], h)
    {
      RowOfPrefix(coin, chain, block, h);
    }
  }

  // ----- One more block -----

  lemma LastBlock(coin: Coin, chain: seq<Block>, block: Block)
    requires ValidChain(coin, chain + [block])
    ensures Txids(chain + [block]) == Txids(chain) + Hashes(block) && |Txids(chain)| + |block| <= Range(5)
    ensures ValidChain(coin, chain) && ValidTxs(coin, UtxosAt(coin, chain), block, |Txids(chain)|)
    ensures UtxosAt(coin, chain + [block]) == Utxos.AdvanceTxs(coin, UtxosAt(coin, chain), block, |Txids(chain)|)
    ensures LastUndo(coin, chain + [block]) == UndoOf(coin, UtxosAt(coin, chain), block, |Txids(chain)|)
  {
    hide Range, Utxos.AdvanceTxs, ValidTxs, UndoOf;
    assert (chain + [block])[..|chain|] == chain;
  }

  lemma ChainStep(coin: Coin, chain: seq<Block>, block: Block)
    requires ValidChain(coin, chain) && ValidTxs(coin, UtxosAt(coin, chain), block, |Txids(chain)|)
    requires |Txids(chain)| + |block| <= Range(5)
    ensures ValidChain(coin, chain + [block])
    ensures Txids(chain + [block]) == Txids(chain) + Hashes(block)
    ensures UtxosAt(coin, chain + [block]) == Utxos.AdvanceTxs(coin, UtxosAt(coin, chain), block, |Txids(chain)|)
    ensures LastUndo(coin, chain + [block]) == UndoOf(coin, UtxosAt(coin, chain), block, |Txids(chain)|)
  {
    hide Range, Utxos.AdvanceTxs, ValidTxs, UndoOf;
    assert (chain + [block])[..|chain|] == chain;
  }

  lemma UndoEntries(coin: Coin, u: UtxoMap, txs: Block, num: nat, hashes: seq<Bytes>)
    requires ValidTxs(coin, u, txs, num) && |hashes| == num && EntriesOk(u, hashes) && num + |txs| <= Range(5)
    ensures AllEntries(UndoOf(coin, u, txs, num))
    decreases |txs|
  {
    hide Utxos.AdvanceTx, SpentEntries, ValidTx, Range, EntriesOk;
    if txs != [] {
      ValidInputs(u, txs[0]);
      SpentAreEntries(u, txs[0].tx.inputs, hashes);
      ValidHash(u, txs[0]);
      EntriesOkTx(coin, u, txs[0], hashes);
      UndoEntries(coin, Utxos.AdvanceTx(coin, u, txs[0], num), txs[1..], num + 1, hashes + [txs[0].hash]);
    }
  }

  lemma ValidHash(u: UtxoMap, t: BlockTx)
    requires ValidTx(u, t)
    ensures |t.hash| == 32
  {
  }

  lemma OneTx(coin: Coin, m: UtxoMap, t: BlockTx, num: nat)
    requires ValidTxs(coin, m, [t], num)
    ensures ValidTx(m, t) && InputsLive(m, t.tx.inputs)
    ensures Utxos.AdvanceTxs(coin, m, [t], num) == Utxos.AdvanceTx(coin, m, t, num)
    ensures UndoOf(coin, m, [t], num) == SpentEntries(m, t.tx.inputs)
  {
    hide Utxos.AdvanceTx, SpentEntries;
    assert [t][1..] == [];
    assert SpentEntries(m, t.tx.inputs) + [] == SpentEntries(m, t.tx.inputs);
  }

  lemma {:induction false} HashXsAt(coin: Coin, u: UtxoMap, txs: Block, num: nat, i: nat)
    requires ValidTxs(coin, u, txs, num) && i < |txs|
    ensures ValidTxs(coin, u, txs[..i], num)
    ensures var m := Utxos.AdvanceTxs(coin, u, txs[..i], num);
            InputsLive(m, txs[i].tx.inputs) && HashXsByTx(coin, u, txs, num)[i] == TxHashXs(coin, m, txs[i])
    decreases |txs|
  {
    hide Utxos.AdvanceTx, SpentEntries, TxHashXs, ValidTx;
    ValidInputs(u, txs[0]);
    if i > 0 {
      assert txs[..i][1..] == txs[1..][..i - 1];
      HashXsAt(coin, Utxos.AdvanceTx(coin, u, txs[0], num), txs[1..], num + 1, i - 1);
    }
  }

  // ----- In the middle of a block -----

  /** After the first `i` transactions of a block on top of `u`, the map is `now`, and the undo
      entries and the history lists are those so far. */
  ghost predicate Progress(
      coin: Coin, u: UtxoMap, txs: Block, num: nat, i: nat, now: UtxoMap, undoInfo: seq<Bytes>, hashXsByTx: seq<set<Bytes>>)
  {
    && ValidTxs(coin, u, txs, num) && i <= |txs| && ValidTxs(coin, now, txs[i..], num + i)
    && Utxos.AdvanceTxs(coin, u, txs, num) == Utxos.AdvanceTxs(coin, now, txs[i..], num + i)
    && UndoOf(coin, u, txs, num) == undoInfo + UndoOf(coin, now, txs[i..], num + i)
    && HashXsByTx(coin, u, txs, num) == hashXsByTx + HashXsByTx(coin, now, txs[i..], num + i)
  }

  lemma ProgressStart(coin: Coin, u: UtxoMap, txs: Block, num: nat)
    requires ValidTxs(coin, u, txs, num)
    ensures Progress(coin, u, txs, num, 0, u, [], [])
  {
    hide ValidTxs, UndoOf, HashXsByTx, Utxos.AdvanceTxs;
    assert txs[0..] == txs;
  }

  lemma ProgressStep(
      coin: Coin, u: UtxoMap, txs: Block, num: nat, i: nat, now: UtxoMap, undoInfo: seq<Bytes>, hashXsByTx: seq<set<Bytes>>)
    requires Progress(coin, u, txs, num, i, now, undoInfo, hashXsByTx) && i < |txs|
    ensures ValidTx(now, txs[i]) && InputsLive(now, txs[i].tx.inputs)
    ensures Progress(coin, u, txs, num, i + 1, Utxos.AdvanceTx(coin, now, txs[i], num + i),
              undoInfo + SpentEntries(now, txs[i].tx.inputs), hashXsByTx + [TxHashXs(coin, now, txs[i])])
  {
    hide ValidTxs, UndoOf, HashXsByTx, Utxos.AdvanceTxs, Utxos.AdvanceTx, SpentEntries, TxHashXs, ValidTx;
    FirstTx(coin, now, txs, i, num + i);
    var next, spent := Utxos.AdvanceTx(coin, now, txs[i], num + i), SpentEntries(now, txs[i].tx.inputs);
    var undoRest, hashXRest := UndoOf(coin, next, txs[i + 1..], num + i + 1), HashXsByTx(coin, next, txs[i + 1..], num + i + 1);
    assert undoInfo + (spent + undoRest) == undoInfo + spent + undoRest;
    assert hashXsByTx + ([TxHashXs(coin, now, txs[i])] + hashXRest) == hashXsByTx + [TxHashXs(coin, now, txs[i])] + hashXRest;
  }

  lemma ProgressEnd(
      coin: Coin, u: UtxoMap, txs: Block, num: nat, now: UtxoMap, undoInfo: seq<Bytes>, hashXsByTx: seq<set<Bytes>>)
    requires Progress(coin, u, txs, num, |txs|, now, undoInfo, hashXsByTx)
    ensures ValidTxs(coin, u, txs, num) && now == Utxos.AdvanceTxs(coin, u, txs, num)
    ensures undoInfo == UndoOf(coin, u, txs, num) && hashXsByTx == HashXsByTx(coin, u, txs, num)
  {
    hide ValidTxs, UndoOf, HashXsByTx, Utxos.AdvanceTxs;
    assert txs[|txs|..] == [];
    EmptyBlock(coin, now, num + |txs|);
    assert undoInfo + [] == undoInfo && hashXsByTx + [] == hashXsByTx;
  }

  /** One step of the functions of a block, for the rest of the block from position `i` on. */
  lemma FirstTx(coin: Coin, m: UtxoMap, txs: Block, i: nat, num: nat)
    requires i < |txs| && ValidTxs(coin, m, txs[i..], num)
    ensures ValidTx(m, txs[i]) && InputsLive(m, txs[i].tx.inputs) && Hashes(txs)[i] == txs[i].hash
    ensures var m' := Utxos.AdvanceTx(coin, m, txs[i], num);
            && ValidTxs(coin, m', txs[i + 1..], num + 1)
            && Utxos.AdvanceTxs(coin, m, txs[i..], num) == Utxos.AdvanceTxs(coin, m', txs[i + 1..], num + 1)
            && UndoOf(coin, m, txs[i..], num)
               == SpentEntries(m, txs[i].tx.inputs) + UndoOf(coin, m', txs[i + 1..], num + 1)
            && HashXsByTx(coin, m, txs[i..], num)
               == [TxHashXs(coin, m, txs[i])] + HashXsByTx(coin, m', txs[i + 1..], num + 1)
  {
    hide Utxos.AdvanceTx, SpentEntries, TxHashXs;
    assert txs[i..][0] == txs[i] && txs[i..][1..] == txs[i + 1..];
  }

  lemma EmptyBlock(coin: Coin, m: UtxoMap, num: nat)
    ensures ValidTxs(coin, m, [], num) && Utxos.AdvanceTxs(coin, m, [], num) == m
    ensures UndoOf(coin, m, [], num) == [] && HashXsByTx(coin, m, [], num) == []
  {
  }

  lemma NoTouches(coin: Coin, u: UtxoMap, txs: Block, num: nat)
    requires ValidTxs(coin, u, txs, num)
    ensures UnionAll(HashXsByTx(coin, u, txs, num)[|txs|..]) == {}
  {
    hide HashXsByTx;
  }

  /** The last input of a list, seen from the end. */
  lemma LastInput(u: UtxoMap, ins: seq<Transactions.TxInput>)
    requires InputsLive(u, ins) && ins != []
    ensures var init, i := ins[..|ins| - 1], ins[|ins| - 1];
            && InputsLive(u, init)
            && (i.IsGeneration() ==> SpendInputs(u, ins) == SpendInputs(u, init) && SpentEntries(u, ins) == SpentEntries(u, init))
            && (!i.IsGeneration() ==>
                  && PrevOut(i) in SpendInputs(u, init)
                  && SpendInputs(u, ins) == SpendInputs(u, init) - {PrevOut(i)}
                  && SpentEntries(u, ins) == SpentEntries(u, init) + [SpendInputs(u, init)[PrevOut(i)]])
  {
    hide Transactions.TxInput.IsGeneration;
    var init := ins[..|ins| - 1];
    SplitSpend(u, ins, |ins| - 1);
    assert ins[|ins| - 1..] == [ins[|ins| - 1]];
    OneInput(SpendInputs(u, init), ins[|ins| - 1]);
  }

  lemma NoInputs(u: UtxoMap)
    ensures InputsLive(u, []) && SpendInputs(u, []) == u && SpentEntries(u, []) == []
  {
  }

  lemma OneInput(m: UtxoMap, i: Transactions.TxInput)
    requires InputsLive(m, [i])
    ensures i.IsGeneration() ==> SpendInputs(m, [i]) == m && SpentEntries(m, [i]) == []
    ensures !i.IsGeneration() ==> PrevOut(i) in m && SpendInputs(m, [i]) == m - {PrevOut(i)} && SpentEntries(m, [i]) == [m[PrevOut(i)]]
  {
    hide Transactions.TxInput.IsGeneration;
    assert [i][1..] == [];
  }

  lemma {:induction false} UnionAllSnoc(ss: seq<set<Bytes>>, x: set<Bytes>)
    ensures UnionAll(ss + [x]) == UnionAll(ss) + x
  {
    if ss == [] {
      assert UnionAll([x]) == x + UnionAll([]);
    } else {
      UnionAllSnoc(ss[1..], x);
      assert (ss + [x])[1..] == ss[1..] + [x];
    }
  }
}
