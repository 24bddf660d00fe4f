/** Crashes at any point of a forward flush, and after reorganisations (electrumx/server/db.py,
    electrumx/server/history.py).

    `flush_dbs` writes three stores one after the other: the flat files, the history database in
    one batch and the UTXO database in one batch.  The process may stop between any two of
    these, or in the middle of a file write.  Opening the databases again drops the history rows
    that the UTXO database does not know of, and reads the files up to its height only.

    `flush_backup` truncates the histories before it commits the UTXO database.  A crash between
    the two is not repaired by opening the databases: `TornBackupIff` says when it does harm. */
module Crash {
  import opened ByteStrings
  import opened Utxos
  import opened HistoryRows
  import Histories
  import Indexers
  import opened ChainFiles

  /** The first seven fields are on disk, the others in memory. */
  datatype Node = Node(
    hashFile: Bytes, countFile: Bytes,
    rows: Rows, historyCount: nat,
    utxos: UtxoMap, height: int, utxoCount: nat,
    chain: seq<Block>, fsHeight: int, unflushed: map<Bytes, Bytes>)

  datatype Step =
    | Advance(block: Block, unflushed: map<Bytes, Bytes>)   // a block, with the histories it extends
    | TearFiles(hashes: nat, counts: nat)                   // so many bytes of the file writes are done
    | FlushFs
    | FlushHistory
    | CommitUtxos
    | Backup(touched: set<Bytes>, rows: Rows)               // a whole flush after a block is backed up
    | Restart                                               // a crash and the next start

  // ----- The files -----

  /** What flushing the files writes behind the part that is there already. */
  function Rest(all: Bytes, have: Bytes): Bytes {
    if |have| <= |all| then all[|have|..] else []
  }

  function HashRest(n: Node): Bytes
    requires -1 <= n.fsHeight < |n.chain|
  {
    Rest(HashBytes(n.chain), HashBytes(n.chain[..n.fsHeight + 1]))
  }

  function CountRest(n: Node): Bytes
    requires -1 <= n.fsHeight < |n.chain|
  {
    Rest(CountBytes(n.chain), CountBytes(n.chain[..n.fsHeight + 1]))
  }

  /** The files when the first `i` and `j` bytes have been written. */
  function WithFiles(n: Node, i: nat, j: nat): Node
    requires -1 <= n.fsHeight < |n.chain| && FilesHold(n.hashFile, n.countFile, n.chain[..n.fsHeight + 1])
    requires i <= |HashRest(n)| && j <= |CountRest(n)|
  {
    var done := n.chain[..n.fsHeight + 1];
    n.(hashFile := Overwritten(n.hashFile, |HashBytes(done)|, HashRest(n)[..i]),
       countFile := Overwritten(n.countFile, |CountBytes(done)|, CountRest(n)[..j]))
  }

  // ----- The steps -----

  ghost predicate Touched(coin: Coin, n: Node, block: Block, unflushed: map<Bytes, Bytes>)
    requires ValidChain(coin, n.chain) && ValidTxs(coin, UtxosAt(coin, n.chain), block, |Txids(n.chain)|)
  {
    var num := |Txids(n.chain)|;
    && Histories.WholeNumbers(unflushed)
    && forall h :: TxNums(Histories.BytesOr(unflushed, h))
                   == TxNums(Histories.BytesOr(n.unflushed, h))
                      + Touching(HashXsByTx(coin, UtxosAt(coin, n.chain), block, num), num, h)
  }

  ghost predicate Enabled(coin: Coin, n: Node, s: Step)
    requires Inv(coin, n)
  {
    match s
    case Advance(block, unflushed) =>
      && ValidTxs(coin, UtxosAt(coin, n.chain), block, |Txids(n.chain)|) && |Txids(n.chain + [block])| <= Range(5)
      && Touched(coin, n, block, unflushed)
    case TearFiles(hashes, counts) => hashes <= |HashRest(n)| && counts <= |CountRest(n)|
    case FlushFs => true
    case FlushHistory => n.fsHeight == |n.chain| - 1
    case CommitUtxos => n.fsHeight == |n.chain| - 1 && n.unflushed == map[]
    case Backup(touched, rows) =>
      && Settled(n) && n.height > 0 && LastTouched(coin, n.chain) <= touched
      && Truncated(n.rows, rows, touched, |Txids(n.chain[..n.height])|, n.historyCount + 1)
    case Restart => true
  }

  /** Everything is flushed. */
  predicate Settled(n: Node) {
    n.height == n.fsHeight == |n.chain| - 1 && n.unflushed == map[] && n.historyCount == n.utxoCount
  }

  /** The hashXs that the last block put in the histories. */
  function LastTouched(coin: Coin, chain: seq<Block>): set<Bytes>
    requires ValidChain(coin, chain)
  {
    if chain == [] then {}
    else
      var before := chain[..|chain| - 1];
      UnionAll(HashXsByTx(coin, UtxosAt(coin, before), chain[|chain| - 1], |Txids(before)|))
  }

  /** `rows'` are the rows with the numbers from `txCount` on removed from the histories in `touched`. */
  ghost predicate Truncated(rows: Rows, rows': Rows, touched: set<Bytes>, txCount: nat, top: nat) {
    && WellFormed(rows') && IdsBelow(rows', top)
    && forall h {:trigger Joined(rows', h, top)} ::
         TxNums(Joined(rows', h, top))
         == if h in touched then Below(TxNums(Joined(rows, h, top)), txCount) else TxNums(Joined(rows, h, top))
  }

  /** Opening the databases again. */
  function Reopened(n: Node): Node
    requires -1 <= n.height < |n.chain|
  {
    n.(rows := if n.historyCount <= n.utxoCount then n.rows else Histories.UpTo(n.rows, n.utxoCount),
       historyCount := if n.historyCount <= n.utxoCount then n.historyCount else n.utxoCount,
       chain := n.chain[..n.height + 1], fsHeight := n.height, unflushed := map[])
  }

  ghost function Next(coin: Coin, n: Node, s: Step): Node
    requires Inv(coin, n) && Enabled(coin, n, s)
  {
    match s
    case Advance(block, unflushed) => n.(chain := n.chain + [block], unflushed := unflushed)
    case TearFiles(hashes, counts) => WithFiles(n, hashes, counts)
    case FlushFs => WithFiles(n, |HashRest(n)|, |CountRest(n)|).(fsHeight := |n.chain| - 1)
    case FlushHistory =>
      n.(rows := FlushedRows(n.rows, n.unflushed, n.historyCount + 1), historyCount := n.historyCount + 1, unflushed := map[])
    case CommitUtxos => n.(utxos := UtxosAt(coin, n.chain), height := |n.chain| - 1, utxoCount := n.historyCount)
    case Backup(_, rows) =>
      var before := n.chain[..n.height];
      n.(rows := rows, historyCount := n.historyCount + 1, utxos := UtxosAt(coin, before), height := n.height - 1,
         utxoCount := n.historyCount + 1, chain := before, fsHeight := n.height - 1)
    case Restart => Reopened(n)
  }

  // ----- The invariant -----

  /** Rows below `top` and what is unflushed spell the histories of the chain. */
  ghost predicate Spells(coin: Coin, chain: seq<Block>, rows: Rows, top: nat, unflushed: map<Bytes, Bytes>)
    requires ValidChain(coin, chain)
  {
    forall h {:trigger Indexers.HistoryAt(coin, chain, h)} ::
      TxNums(Joined(rows, h, top)) + TxNums(Histories.BytesOr(unflushed, h)) == Indexers.HistoryAt(coin, chain, h)
  }

  predicate FilesHold(hashFile: Bytes, countFile: Bytes, chain: seq<Block>) {
    HashBytes(chain) <= hashFile && CountBytes(chain) <= countFile
  }

  predicate RowsOk(rows: Rows, historyCount: nat, utxoCount: nat) {
    WellFormed(rows) && IdsBelow(rows, historyCount + 1) && utxoCount <= historyCount
  }

  /** The UTXO database, and the rows up to its flush count, describe the blocks up to its height;
      all rows, with what is unflushed, describe the chain in memory. */
  ghost predicate Inv(coin: Coin, n: Node) {
    && -1 <= n.height <= n.fsHeight < |n.chain|
    && ValidChain(coin, n.chain) && ValidChain(coin, n.chain[..n.height + 1])
    && FilesHold(n.hashFile, n.countFile, n.chain[..n.fsHeight + 1])
    && RowsOk(n.rows, n.historyCount, n.utxoCount) && Histories.WholeNumbers(n.unflushed)
    && Spells(coin, n.chain[..n.height + 1], n.rows, n.utxoCount + 1, map[])
    && Spells(coin, n.chain, n.rows, n.historyCount + 1, n.unflushed)
    && n.utxos == UtxosAt(coin, n.chain[..n.height + 1])
  }

  /** All stores describe the blocks up to the height of the UTXO database. */
  ghost predicate Consistent(coin: Coin, n: Node) {
    && ValidChain(coin, n.chain) && n.height == n.fsHeight == |n.chain| - 1 && n.unflushed == map[]
    && n.utxos == UtxosAt(coin, n.chain) && Spells(coin, n.chain, n.rows, n.historyCount + 1, map[])
    && RowsOk(n.rows, n.historyCount, n.utxoCount) && n.historyCount == n.utxoCount
    && FilesHold(n.hashFile, n.countFile, n.chain)
  }

  /** A new database. */
  lemma StartIsOk(coin: Coin)
    ensures Inv(coin, Node([], [], map[], 0, map[], -1, 0, [], -1, map[]))
  {
    hide Indexers.HistoryAt;
    var none: seq<Block> := [];
    assert none[..0] == none;
    forall h
      ensures TxNums(Joined(map[], h, 1)) + TxNums(Histories.BytesOr(map[], h)) == Indexers.HistoryAt(coin, none, h)
    {
      JoinedBeyond(map[], h, 0, 1);
      NoHistory(coin, h);
    }
  }

  lemma NoHistory(coin: Coin, h: Bytes)
    ensures Indexers.HistoryAt(coin, [], h) == [] && TxNums([]) == []
  {
  }

  // ----- Every step keeps it -----

  lemma SpellsAdvanced(coin: Coin, n: Node, block: Block, unflushed: map<Bytes, Bytes>)
    requires ValidChain(coin, n.chain) && Spells(coin, n.chain, n.rows, n.historyCount + 1, n.unflushed)
    requires ValidTxs(coin, UtxosAt(coin, n.chain), block, |Txids(n.chain)|) && |Txids(n.chain + [block])| <= Range(5)
    requires Touched(coin, n, block, unflushed)
    ensures ValidChain(coin, n.chain + [block]) && Spells(coin, n.chain + [block], n.rows, n.historyCount + 1, unflushed)
  {
    hide TxNums, Joined, ValidTxs, Touching, HashXsByTx, UtxosAt, Range, Txids;
    var chain' := n.chain + [block];
    assert chain'[..|chain'| - 1] == n.chain;
    forall h
      ensures TxNums(Joined(n.rows, h, n.historyCount + 1)) + TxNums(Histories.BytesOr(unflushed, h))
              == Indexers.HistoryAt(coin, chain', h)
    {
      assert TxNums(Joined(n.rows, h, n.historyCount + 1)) + TxNums(Histories.BytesOr(n.unflushed, h))
             == Indexers.HistoryAt(coin, n.chain, h);
    }
  }

  lemma AdvanceKeeps(coin: Coin, n: Node, block: Block, unflushed: map<Bytes, Bytes>)
    requires Inv(coin, n) && Enabled(coin, n, Advance(block, unflushed))
    ensures Inv(coin, Next(coin, n, Advance(block, unflushed)))
  {
    hide Spells, ValidChain, ValidTxs, Touching, HashXsByTx, UtxosAt, Range, FilesHold, RowsOk, Txids, TxNums;
    SpellsAdvanced(coin, n, block, unflushed);
    var chain' := n.chain + [block];
    assert chain'[..n.height + 1] == n.chain[..n.height + 1] && chain'[..n.fsHeight + 1] == n.chain[..n.fsHeight + 1];
  }

  lemma FlushFsKeeps(coin: Coin, n: Node)
    requires Inv(coin, n)
    ensures Inv(coin, Next(coin, n, FlushFs))
  {
    hide HashBytes, CountBytes, ValidChain, UtxosAt, Spells, RowsOk, Histories.WholeNumbers, Overwritten;
    FilesGrow(n.chain, n.fsHeight + 1);
    FilesPartly(n, |HashRest(n)|, |CountRest(n)|);
    assert HashRest(n)[..|HashRest(n)|] == HashRest(n) && CountRest(n)[..|CountRest(n)|] == CountRest(n);
    assert n.chain[..|n.chain| - 1 + 1] == n.chain;
  }

  /** Part of the writes leaves what was there and adds the part. */
  lemma FilesPartly(n: Node, i: nat, j: nat)
    requires -1 <= n.fsHeight < |n.chain| && FilesHold(n.hashFile, n.countFile, n.chain[..n.fsHeight + 1])
    requires i <= |HashRest(n)| && j <= |CountRest(n)|
    ensures var m, done := WithFiles(n, i, j), n.chain[..n.fsHeight + 1];
            HashBytes(done) + HashRest(n)[..i] <= m.hashFile && CountBytes(done) + CountRest(n)[..j] <= m.countFile
  {
    hide HashBytes, CountBytes, HashRest, CountRest, Overwritten;
    var done := n.chain[..n.fsHeight + 1];
    Completed(n.hashFile, HashBytes(done), HashRest(n)[..i]);
    Completed(n.countFile, CountBytes(done), CountRest(n)[..j]);
  }

  /** A torn file write keeps the part that was flushed before. */
  lemma TearKeeps(coin: Coin, n: Node, hashes: nat, counts: nat)
    requires Inv(coin, n) && Enabled(coin, n, TearFiles(hashes, counts))
    ensures Inv(coin, Next(coin, n, TearFiles(hashes, counts)))
  {
    hide HashBytes, CountBytes, ValidChain, UtxosAt, Spells, RowsOk, Histories.WholeNumbers, HashRest, CountRest, Overwritten;
    FilesPartly(n, hashes, counts);
  }

  // ----- Backing up -----

  lemma HistoryBefore(coin: Coin, n: Node, touched: set<Bytes>, rows: Rows, h: Bytes)
    requires Inv(coin, n) && Enabled(coin, n, Backup(touched, rows))
    ensures ValidChain(coin, n.chain[..n.height])
    ensures TxNums(Joined(rows, h, n.historyCount + 1)) == Indexers.HistoryAt(coin, n.chain[..n.height], h)
  {
    hide TxNums, Joined, UtxosAt, ValidTxs, HashXsByTx, UnionAll, Below, Txids, WellFormed, IdsBelow, FilesHold, Indexers.HistoryAt,
      ValidChain, Histories.WholeNumbers;
    assert n.chain[..|n.chain|] == n.chain && n.chain[..n.height] == n.chain[..|n.chain| - 1];
    ValidPrefix(coin, n.chain, n.height);
    NoNums(h);
    assert TxNums(Joined(n.rows, h, n.historyCount + 1)) + TxNums(Histories.BytesOr(map[], h))
           == Indexers.HistoryAt(coin, n.chain, h);
    Indexers.HistoryWithoutLast(coin, n.chain, touched, h);
  }

  lemma BackupKeeps(coin: Coin, n: Node, touched: set<Bytes>, rows: Rows)
    requires Inv(coin, n) && Enabled(coin, n, Backup(touched, rows))
    ensures Inv(coin, Next(coin, n, Backup(touched, rows)))
  {
    hide TxNums, Joined, UtxosAt, ValidTxs, HashXsByTx, UnionAll, Below, Txids, HashBytes, CountBytes, ValidChain,
      Indexers.HistoryAt, LastTouched;
    var before, top := n.chain[..n.height], n.historyCount + 1;
    assert before[..|before|] == before && n.chain[..|n.chain|] == n.chain;
    FilesGrow(n.chain, n.height);
    ValidPrefix(coin, n.chain, n.height);
    forall h
      ensures TxNums(Joined(rows, h, top + 1)) + TxNums(Histories.BytesOr(map[], h)) == Indexers.HistoryAt(coin, before, h)
    {
      HistoryBefore(coin, n, touched, rows, h);
      JoinedBeyond(rows, h, top, top + 1);
      NoNums(h);
    }
  }

  /** The databases as they are opened after a crash between the truncation of the histories and the
      commit of the UTXO database. */
  function Torn(n: Node, rows: Rows): Node
    requires -1 <= n.height < |n.chain|
  {
    Reopened(n.(rows := rows, historyCount := n.historyCount + 1))
  }

  lemma TornParts(coin: Coin, n: Node, touched: set<Bytes>, rows: Rows)
    requires Inv(coin, n) && Enabled(coin, n, Backup(touched, rows))
    ensures Consistent(coin, Torn(n, rows)) <==> Spells(coin, n.chain, Torn(n, rows).rows, n.historyCount + 1, map[])
  {
    hide UtxosAt, ValidChain, Spells, HashBytes, CountBytes, LastTouched, Histories.UpTo, TxNums, Joined, Below, WellFormed, IdsBelow, Txids;
    assert n.chain[..|n.chain|] == n.chain;
    assert WellFormed(rows);
    ClearedRowsOk(rows, n.utxoCount);
  }

  /** It is consistent if and only if the block that was backed up had touched no history. */
  lemma TornBackupIff(coin: Coin, n: Node, touched: set<Bytes>, rows: Rows)
    requires Inv(coin, n) && Enabled(coin, n, Backup(touched, rows))
    ensures ValidChain(coin, n.chain) && n.chain != []
    ensures Consistent(coin, Torn(n, rows)) <==> forall h :: Touching(LastHashXs(coin, n.chain), LastNum(n.chain), h) == []
  {
    hide TxNums, Joined, UtxosAt, ValidTxs, HashXsByTx, UnionAll, Below, Txids, HashBytes, CountBytes, LastTouched, Touching, Range,
      Consistent, Torn;
    var before, top, torn := n.chain[..n.height], n.historyCount + 1, Torn(n, rows);
    TornParts(coin, n, touched, rows);
    assert before == n.chain[..|n.chain| - 1] && n.chain[..|n.chain|] == n.chain;
    var added, num := LastHashXs(coin, n.chain), LastNum(n.chain);
    forall h
      ensures TxNums(Joined(torn.rows, h, top)) + TxNums(Histories.BytesOr(map[], h)) == Indexers.HistoryAt(coin, n.chain, h)
              <==> Touching(added, num, h) == []
    {
      HistoryBefore(coin, n, touched, rows, h);
      TornRows(n, rows, h);
      NoNums(h);
      Appended(Indexers.HistoryAt(coin, before, h), Touching(added, num, h));
    }
    if Spells(coin, n.chain, torn.rows, top, map[]) {
      forall h
        ensures Touching(added, num, h) == []
      {
        assert TxNums(Joined(torn.rows, h, top)) + TxNums(Histories.BytesOr(map[], h)) == Indexers.HistoryAt(coin, n.chain, h);
      }
    } else {
      var h :| TxNums(Joined(torn.rows, h, top)) + TxNums(Histories.BytesOr(map[], h)) != Indexers.HistoryAt(coin, n.chain, h);
      assert Touching(added, num, h) != [];
    }
  }

  lemma TornRows(n: Node, rows: Rows, h: Bytes)
    requires -1 <= n.height < |n.chain| && n.historyCount == n.utxoCount
    ensures Joined(Torn(n, rows).rows, h, n.historyCount + 1) == Joined(rows, h, n.historyCount + 1)
  {
    Histories.ClearedRows(rows, Torn(n, rows).rows, h, n.utxoCount, n.utxoCount + 1, n.utxoCount + 1);
  }

  /** The hashXs the transactions of the last block touch, and the number of the first of these. */
  function LastHashXs(coin: Coin, chain: seq<Block>): seq<set<Bytes>>
    requires ValidChain(coin, chain) && chain != []
  {
    var before := chain[..|chain| - 1];
    HashXsByTx(coin, UtxosAt(coin, before), chain[|chain| - 1], |Txids(before)|)
  }

  function LastNum(chain: seq<Block>): nat
    requires chain != []
  {
    |Txids(chain[..|chain| - 1])|
  }

  lemma Appended(a: seq<nat>, b: seq<nat>)
    ensures a + b == a <==> b == []
  {
    assert b == [] ==> a + b == a;
    assert |a + b| == |a| + |b|;
  }

  lemma FlushedJoined(rows: Rows, unflushed: map<Bytes, Bytes>, id: nat, h: Bytes)
    requires WellFormed(rows) && IdsBelow(rows, id) && Histories.WholeNumbers(unflushed)
    ensures var rows' := FlushedRows(rows, unflushed, id);
            && (forall lo: nat :: lo <= id ==> Joined(rows', h, lo) == Joined(rows, h, lo))
            && TxNums(Joined(rows', h, id + 1)) == TxNums(Joined(rows, h, id)) + TxNums(Histories.BytesOr(unflushed, h))
  {
    hide TxNums, Joined;
    var rows' := FlushedRows(rows, unflushed, id);
    forall lo: nat | lo <= id
      ensures Joined(rows', h, lo) == Joined(rows, h, lo)
    {
      JoinedSame(rows', rows, h, lo);
    }
    JoinedWhole(rows, h, id);
    JoinedLast(rows', h, id);
    assert RowOr(rows', h, id) == Histories.BytesOr(unflushed, h) by {
      assert RowKey(h, id) !in rows;
    }
    TxNumsConcat(Joined(rows, h, id), Histories.BytesOr(unflushed, h));
  }

  lemma FlushedRowsOk(rows: Rows, unflushed: map<Bytes, Bytes>, id: nat)
    requires WellFormed(rows) && IdsBelow(rows, id) && Histories.WholeNumbers(unflushed)
    ensures WellFormed(FlushedRows(rows, unflushed, id)) && IdsBelow(FlushedRows(rows, unflushed, id), id + 1)
  {
  }

  lemma NoNums(h: Bytes)
    ensures TxNums(Histories.BytesOr(map[], h)) == [] && forall s: seq<nat> :: s + TxNums(Histories.BytesOr(map[], h)) == s
  {
  }

  lemma SpellsFlushed(coin: Coin, chain: seq<Block>, rows: Rows, top: nat, unflushed: map<Bytes, Bytes>)
    requires ValidChain(coin, chain) && WellFormed(rows) && IdsBelow(rows, top) && Histories.WholeNumbers(unflushed)
    requires Spells(coin, chain, rows, top, unflushed)
    ensures Spells(coin, chain, FlushedRows(rows, unflushed, top), top + 1, map[])
  {
    hide TxNums, Joined, ValidChain, FlushedRows, WellFormed, IdsBelow, Histories.WholeNumbers, Indexers.HistoryAt;
    forall h
      ensures TxNums(Joined(FlushedRows(rows, unflushed, top), h, top + 1)) + TxNums(Histories.BytesOr(map[], h))
              == Indexers.HistoryAt(coin, chain, h)
    {
      FlushedJoined(rows, unflushed, top, h);
      NoNums(h);
    }
  }

  lemma SpellsBelow(coin: Coin, chain: seq<Block>, rows: Rows, top: nat, unflushed: map<Bytes, Bytes>, lo: nat)
    requires ValidChain(coin, chain) && WellFormed(rows) && IdsBelow(rows, top) && Histories.WholeNumbers(unflushed) && lo <= top
    requires Spells(coin, chain, rows, lo, map[])
    ensures Spells(coin, chain, FlushedRows(rows, unflushed, top), lo, map[])
  {
    hide TxNums, Joined, ValidChain, FlushedRows, WellFormed, IdsBelow, Histories.WholeNumbers, Indexers.HistoryAt;
    forall h
      ensures Joined(FlushedRows(rows, unflushed, top), h, lo) == Joined(rows, h, lo)
    {
      FlushedJoined(rows, unflushed, top, h);
    }
  }

  lemma FlushHistoryKeeps(coin: Coin, n: Node)
    requires Inv(coin, n) && Enabled(coin, n, FlushHistory)
    ensures Inv(coin, Next(coin, n, FlushHistory))
  {
    hide Spells, ValidChain, UtxosAt, FilesHold, FlushedRows, WellFormed, IdsBelow;
    FlushedRowsOk(n.rows, n.unflushed, n.historyCount + 1);
    SpellsFlushed(coin, n.chain, n.rows, n.historyCount + 1, n.unflushed);
    SpellsBelow(coin, n.chain[..n.height + 1], n.rows, n.historyCount + 1, n.unflushed, n.utxoCount + 1);
  }

  lemma CommitKeeps(coin: Coin, n: Node)
    requires Inv(coin, n) && Enabled(coin, n, CommitUtxos)
    ensures Inv(coin, Next(coin, n, CommitUtxos))
  {
    hide Spells, ValidChain, UtxosAt, FilesHold, WellFormed, IdsBelow;
    assert n.chain[..|n.chain| - 1 + 1] == n.chain;
  }

  lemma SpellsCleared(coin: Coin, chain: seq<Block>, rows: Rows, id: nat)
    requires ValidChain(coin, chain) && Spells(coin, chain, rows, id + 1, map[])
    ensures Spells(coin, chain, Histories.UpTo(rows, id), id + 1, map[])
  {
    hide TxNums, Joined, ValidChain, Indexers.HistoryAt;
    var rows', top := Histories.UpTo(rows, id), id + 1;
    forall h
      ensures Joined(rows', h, top) == Joined(rows, h, top)
    {
      Histories.ClearedRows(rows, rows', h, id, top, top);
    }
  }

  lemma ClearedRowsOk(rows: Rows, id: nat)
    requires WellFormed(rows)
    ensures RowsOk(Histories.UpTo(rows, id), id, id)
  {
  }

  /** Opening the databases after a crash finds all stores at one height. */
  lemma RestartIsConsistent(coin: Coin, n: Node)
    requires Inv(coin, n)
    ensures Consistent(coin, Next(coin, n, Restart)) && Inv(coin, Next(coin, n, Restart))
    ensures Next(coin, n, Restart).height == n.height
  {
    hide Spells, ValidChain, UtxosAt, HashBytes, CountBytes, WellFormed, IdsBelow, Histories.UpTo;
    var done, fs := n.chain[..n.height + 1], n.chain[..n.fsHeight + 1];
    assert fs[..n.height + 1] == done && done[..n.height + 1] == done;
    FilesGrow(fs, n.height + 1);
    if n.historyCount > n.utxoCount {
      SpellsCleared(coin, done, n.rows, n.utxoCount);
      ClearedRowsOk(n.rows, n.utxoCount);
    }
  }

  lemma StepKeeps(coin: Coin, n: Node, s: Step)
    requires Inv(coin, n) && Enabled(coin, n, s)
    ensures Inv(coin, Next(coin, n, s))
  {
    hide Inv, Next, Enabled;
    match s {
      case Advance(block, unflushed) => AdvanceKeeps(coin, n, block, unflushed);
      case TearFiles(hashes, counts) => TearKeeps(coin, n, hashes, counts);
      case FlushFs => FlushFsKeeps(coin, n);
      case FlushHistory => FlushHistoryKeeps(coin, n);
      case CommitUtxos => CommitKeeps(coin, n);
      case Backup(touched, rows) => BackupKeeps(coin, n, touched, rows);
      case Restart => RestartIsConsistent(coin, n);
    }
  }

  // ----- Whole runs -----

  ghost predicate CanRun(coin: Coin, n: Node, steps: seq<Step>)
    requires Inv(coin, n)
    decreases |steps|
  {
    steps == [] || (Enabled(coin, n, steps[0]) && (StepKeeps(coin, n, steps[0]); CanRun(coin, Next(coin, n, steps[0]), steps[1..])))
  }

  ghost function Run(coin: Coin, n: Node, steps: seq<Step>): Node
    requires Inv(coin, n) && CanRun(coin, n, steps)
    decreases |steps|
  {
    if steps == [] then n
    else
      StepKeeps(coin, n, steps[0]);
      Run(coin, Next(coin, n, steps[0]), steps[1..])
  }

  /** However far a run of advances, flushes, file writes, backups and earlier restarts got, opening the
      databases finds the UTXO map, every history, the tx-hash file and the tx counts at the
      height of the last commit. */
  lemma {:induction false} CrashAnywhere(coin: Coin, n: Node, steps: seq<Step>)
    requires Inv(coin, n) && CanRun(coin, n, steps)
    ensures Inv(coin, Run(coin, n, steps)) && Consistent(coin, Next(coin, Run(coin, n, steps), Restart))
    ensures (forall s :: s in steps ==> !s.CommitUtxos? && !s.Backup?) ==>
              Next(coin, Run(coin, n, steps), Restart).height == n.height
    decreases |steps|
  {
    hide Inv, Next, Enabled, Consistent;
    if steps == [] {
      RestartIsConsistent(coin, n);
    } else {
      assert steps == [steps[0]] + steps[1..];
      StepKeeps(coin, n, steps[0]);
      if !steps[0].CommitUtxos? && !steps[0].Backup? {
        HeightKept(coin, n, steps[0]);
      }
      CrashAnywhere(coin, Next(coin, n, steps[0]), steps[1..]);
    }
  }

  lemma HeightKept(coin: Coin, n: Node, s: Step)
    requires Inv(coin, n) && Enabled(coin, n, s) && !s.CommitUtxos? && !s.Backup?
    ensures Next(coin, n, s).height == n.height
  {
    hide Inv, HashRest, CountRest, Overwritten;
  }

  /** The writes of `flush_dbs`: `torn` are moments of the file writes. */
  ghost predicate IsFlush(steps: seq<Step>) {
    |steps| >= 3 && (forall i :: 0 <= i < |steps| - 3 ==> steps[i].TearFiles?)
    && steps[|steps| - 3..] == [FlushFs, FlushHistory, CommitUtxos]
  }

  /** A crash after any number of the writes of a flush leads back to the old commit or to the new
      one. */
  lemma CrashDuringFlush(coin: Coin, n: Node, steps: seq<Step>, k: nat)
    requires Inv(coin, n) && IsFlush(steps) && k <= |steps| && CanRun(coin, n, steps[..k])
    ensures Inv(coin, Run(coin, n, steps[..k]))
    ensures var after := Next(coin, Run(coin, n, steps[..k]), Restart);
            Consistent(coin, after) && (after.height == if k < |steps| then n.height else |n.chain| - 1)
  {
    hide Inv, Consistent, Next, Enabled, Run, CanRun;
    var done := steps[..k];
    CrashAnywhere(coin, n, done);
    BeforeCommit(steps);
    if k == |steps| {
      assert done == steps;
      LastCommits(coin, n, done);
      RestartHeight(coin, Run(coin, n, done));
    }
  }

  lemma BeforeCommit(steps: seq<Step>)
    requires IsFlush(steps)
    ensures steps[|steps| - 1] == CommitUtxos
    ensures forall i :: 0 <= i < |steps| - 1 ==> steps[i].TearFiles? || steps[i].FlushFs? || steps[i].FlushHistory?
  {
    assert steps[|steps| - 3..][0] == FlushFs && steps[|steps| - 3..][1] == FlushHistory && steps[|steps| - 3..][2] == CommitUtxos;
  }

  lemma RestartHeight(coin: Coin, n: Node)
    requires Inv(coin, n)
    ensures Next(coin, n, Restart).height == n.height
  {
  }

  lemma {:induction false} LastCommits(coin: Coin, n: Node, steps: seq<Step>)
    requires Inv(coin, n) && CanRun(coin, n, steps) && steps != [] && steps[|steps| - 1] == CommitUtxos
    requires forall i :: 0 <= i < |steps| - 1 ==> steps[i].TearFiles? || steps[i].FlushFs? || steps[i].FlushHistory?
    ensures Run(coin, n, steps).height == |n.chain| - 1
    decreases |steps|
  {
    hide Inv, Enabled;
    StepKeeps(coin, n, steps[0]);
    if |steps| == 1 {
      assert steps[1..] == [];
    } else {
      LastCommits(coin, Next(coin, n, steps[0]), steps[1..]);
    }
  }
}
