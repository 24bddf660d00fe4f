/** The block processor and the history together: electrumx/server/block_processor.py drives
    both through electrumx/server/db.py.

    The history of every address is a function of the chain, through any run of advances,
    flushes and reorganisations.  This needs the touched set of a backed up block to cover all
    that the block put in the histories (Utxos.BackupTouchesHistory). */
module Indexers {
  import opened ByteStrings
  import opened Utxos
  import opened HistoryRows
  import Histories
  import BlockProcessors

  /** The numbers of the transactions of the chain that touch `hashX`, in order. */
  ghost function HistoryAt(coin: Coin, chain: seq<Block>, hashX: Bytes): seq<nat>
    requires ValidChain(coin, chain)
  {
    if chain == [] then []
    else
      var before := chain[..|chain| - 1];
      var num := |Txids(before)|;
      HistoryAt(coin, before, hashX)
      + Touching(HashXsByTx(coin, UtxosAt(coin, before), chain[|chain| - 1], num), num, hashX)
  }

  lemma {:induction false} HistoryRecorded(coin: Coin, chain: seq<Block>, hashX: Bytes)
    requires ValidChain(coin, chain)
    ensures Recorded(HistoryAt(coin, chain, hashX), |Txids(chain)|)
  {
    hide ValidTxs, HashXsByTx, UtxosAt, Touching, Range;
    if chain != [] {
      var before := chain[..|chain| - 1];
      var num := |Txids(before)|;
      HistoryRecorded(coin, before, hashX);
      TouchingFrom(HashXsByTx(coin, UtxosAt(coin, before), chain[|chain| - 1], num), num, hashX);
    }
  }

  /** A hashX that no transaction of the block touches gets no number. */
  lemma {:induction false} TouchingOutside(hashXsByTx: seq<set<Bytes>>, first: nat, hashX: Bytes)
    requires hashX !in UnionAll(hashXsByTx)
    ensures Touching(hashXsByTx, first, hashX) == []
  {
    if hashXsByTx != [] {
      TouchingOutside(hashXsByTx[1..], first + 1, hashX);
    }
  }

  /** Truncating the touched histories at the number of remaining transactions takes away
      exactly what the last block added. */
  lemma HistoryWithoutLast(coin: Coin, chain: seq<Block>, touched: set<Bytes>, hashX: Bytes)
    requires chain != [] && ValidChain(coin, chain)
    requires var before := chain[..|chain| - 1];
             UnionAll(HashXsByTx(coin, UtxosAt(coin, before), chain[|chain| - 1], |Txids(before)|)) <= touched
    ensures var before := chain[..|chain| - 1];
            var all := HistoryAt(coin, chain, hashX);
            HistoryAt(coin, before, hashX) == if hashX in touched then Below(all, |Txids(before)|) else all
  {
    hide ValidTxs, HashXsByTx, UtxosAt, Touching, Below, UnionAll, Txids, Range;
    var before := chain[..|chain| - 1];
    var num := |Txids(before)|;
    var added := HashXsByTx(coin, UtxosAt(coin, before), chain[|chain| - 1], num);
    var kept := HistoryAt(coin, before, hashX);
    HistoryRecorded(coin, before, hashX);
    TouchingFrom(added, num, hashX);
    BelowConcat(kept, Touching(added, num, hashX), num);
    BelowAll(kept, num);
    BelowNone(Touching(added, num, hashX), num);
    assert kept + [] == kept;
    if hashX !in touched {
      TouchingOutside(added, num, hashX);
    }
  }

  lemma ChainFacts(b: BlockProcessors.BlockProcessor)
    requires b.Valid()
    ensures ValidChain(b.coin, b.chain) && b.utxos == UtxosAt(b.coin, b.chain)
    ensures b.txCount == |Txids(b.chain)| && b.height == |b.chain| - 1
  {
  }

  lemma UndoThere(b: BlockProcessors.BlockProcessor)
    requires b.Valid() && b.dbHeight == b.height >= 0 && b.height in b.recorded
    ensures b.height in b.undoDb
  {
    BlockProcessors.UndoRowIs(b.coin, b.chain, b.recorded, b.dbHeight, b.undoDb, b.undoInfos, b.height);
  }

  class Indexer {
    const blocks: BlockProcessors.BlockProcessor
    const history: Histories.History

    ghost predicate Valid()
      reads this, blocks, history
    {
      && blocks.Valid() && history.Valid() && history.next == blocks.txCount
      && history.compFlushCount == -1
      && (blocks.dbHeight == blocks.height ==> history.unflushed == map[])
      && forall h :: history.All(h) == HistoryAt(blocks.coin, blocks.chain, h)
    }

    constructor (coin: Coin, reorgLimit: nat, maxHistRowEntries: nat)
      requires maxHistRowEntries > 0
      ensures Valid() && fresh(blocks) && fresh(history) && blocks.chain == []
    {
      blocks := new BlockProcessors.BlockProcessor(coin, reorgLimit);
      history := new Histories.History(maxHistRowEntries);
      new;
      forall h ensures history.All(h) == [] {
        JoinedBeyond(history.rows, h, 0, history.Top());
      }
    }

    method AdvanceBlock(block: Block, daemonHeight: int)
      requires Valid()
      requires ValidTxs(blocks.coin, blocks.utxos, block, blocks.txCount) && blocks.txCount + |block| <= Range(5)
      modifies blocks`txHashes, blocks`utxoCache, blocks`dbDeletes, blocks`dead, blocks`utxos, blocks`touched, blocks`txCount,
        blocks`height, blocks`undoInfos, blocks`chain, blocks`recorded
      modifies history`unflushed, history`unflushedCount, history`next
      ensures Valid() && blocks.chain == old(blocks.chain) + [block]
      ensures forall h :: TxNums(Histories.BytesOr(history.unflushed, h))
                          == TxNums(Histories.BytesOr(old(history.unflushed), h))
                             + Touching(HashXsByTx(blocks.coin, old(blocks.utxos), block, old(blocks.txCount)), old(blocks.txCount), h)
    {
      hide Range, ValidTxs, HashXsByTx, Touching, UnionAll, TxNums, Joined;
      var first := blocks.txCount;
      var hashXsByTx := blocks.AdvanceBlock(block, daemonHeight);
      assert blocks.chain[..|blocks.chain| - 1] == old(blocks.chain);
      history.AddUnflushed(hashXsByTx, first);
    }

    method Flush()
      requires Valid() && history.flushCount + 1 < 0x1_0000_0000
      modifies blocks, history
      ensures Valid() && blocks.CachesEmpty() && blocks.dbHeight == blocks.height
      ensures blocks.chain == old(blocks.chain) && blocks.recorded == old(blocks.recorded)
      ensures history.unflushed == map[] && blocks.committed == blocks.utxos
      ensures history.flushCount == if old(blocks.height) == old(blocks.dbHeight) then old(history.flushCount) else old(history.flushCount) + 1
      ensures history.rows == if old(blocks.height) == old(blocks.dbHeight) then old(history.rows)
                              else FlushedRows(old(history.rows), old(history.unflushed), old(history.flushCount) + 1)
    {
      hide TxNums, Joined, BlockProcessors.BlockProcessor.Rep, UtxosAt, HistoryAt, FlushedRows;
      if blocks.height != blocks.dbHeight {
        history.Flush();
      }
      blocks.Flush();
    }

    /** Backs up the last block; the histories touched, by this block or before, are truncated. */
    method BackupBlock(block: Block)
      requires Valid() && blocks.CachesEmpty() && blocks.dbHeight == blocks.height > 0
      requires block == blocks.chain[blocks.height] && blocks.height in blocks.recorded
      requires history.flushCount + 1 < 0x1_0000_0000
      modifies blocks, history
      ensures Valid() && blocks.CachesEmpty() && blocks.dbHeight == blocks.height
      ensures blocks.chain == old(blocks.chain)[..|old(blocks.chain)| - 1]
      ensures blocks.recorded == old(blocks.recorded) - {old(blocks.height)}
      ensures history.unflushed == map[] && history.flushCount == old(history.flushCount) + 1
      ensures blocks.committed == blocks.utxos && ValidTxs(blocks.coin, blocks.utxos, block, blocks.txCount)
      ensures UnionAll(HashXsByTx(blocks.coin, blocks.utxos, block, blocks.txCount)) <= blocks.touched
      ensures IdsBelow(history.rows, history.flushCount)
      ensures forall h :: history.Flushed(h) == if h in blocks.touched then Below(old(history.Flushed(h)), blocks.txCount)
                                                else old(history.Flushed(h))
    {
      hide BlockProcessors.BlockProcessor.Valid, Histories.History.Valid, Histories.History.All,
        ValidTxs, HashXsByTx, UtxosAt, Txids, UnionAll, HistoryAt, Below, Recorded, Histories.History.Flushed;
      ChainFacts(blocks);
      UndoThere(blocks);
      forall h
        ensures history.All(h) == history.Flushed(h)
      {
        AllIsFlushed(h);
      }
      var ok := blocks.BackupBlock(block);
      ChainFacts(blocks);
      history.Backup(blocks.touched, blocks.txCount);
      ghost var chain := old(blocks.chain);
      forall h
        ensures HistoryAt(blocks.coin, blocks.chain, h)
                == (if h in blocks.touched then Below(old(history.All(h)), blocks.txCount) else old(history.All(h)))
        ensures h !in blocks.touched ==> Recorded(old(history.All(h)), blocks.txCount)
      {
        HistoryWithoutLast(blocks.coin, chain, blocks.touched, h);
        HistoryRecorded(blocks.coin, blocks.chain, h);
      }
    }

    /** Nothing is unflushed. */
    lemma AllIsFlushed(h: Bytes)
      requires history.unflushed == map[]
      ensures history.All(h) == history.Flushed(h)
    {
      assert TxNums([]) == [] && history.Flushed(h) + [] == history.Flushed(h);
    }

    method ReorgChain(count: nat, replaced: seq<Block>)
      requires Valid() && count < |blocks.chain| && replaced == blocks.chain[|blocks.chain| - count..]
      requires forall h :: |blocks.chain| - count <= h < |blocks.chain| ==> h in blocks.recorded
      requires history.flushCount + 1 + count < 0x1_0000_0000
      modifies blocks, history
      ensures Valid() && blocks.CachesEmpty() && history.unflushed == map[]
      ensures blocks.chain == old(blocks.chain)[..|old(blocks.chain)| - count]
    {
      hide BlockProcessors.BlockProcessor.Valid, Histories.History.Valid, Histories.History.All, HistoryAt;
      ChainFacts(blocks);
      Flush();
      var i := count;
      while i > 0
        invariant 0 <= i <= count
        invariant Valid() && blocks.CachesEmpty() && blocks.dbHeight == blocks.height && history.unflushed == map[]
        invariant blocks.chain == old(blocks.chain)[..|old(blocks.chain)| - count + i]
        invariant forall h :: |old(blocks.chain)| - count <= h < |blocks.chain| ==> h in blocks.recorded
        invariant history.flushCount + i <= old(history.flushCount) + 1 + count
      {
        i := i - 1;
        ChainFacts(blocks);
        assert replaced[i] == blocks.chain[blocks.height];
        BackupBlock(replaced[i]);
      }
    }

    /** What an address query reads once everything is flushed. */
    method TxNumsOf(hashX: Bytes, limit: int, reverse: bool) returns (r: seq<nat>)
      requires Valid() && history.unflushed == map[]
      ensures r == Histories.Limited(
                     Histories.Ordered(HistoryAt(blocks.coin, blocks.chain, hashX), reverse), limit)
    {
      assert history.Flushed(hashX) == history.All(hashX) by {
        assert history.Flushed(hashX) + [] == history.Flushed(hashX);
      }
      r := history.GetTxNums(hashX, limit, reverse);
    }
  }
}
