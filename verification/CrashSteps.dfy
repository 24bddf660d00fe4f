/** The steps of the crash model are what the indexer does: advancing a block, flushing and backing up
    with the classes take the stored state through exactly those steps. */
module CrashSteps {
  import opened ByteStrings
  import opened Utxos
  import opened HistoryRows
  import opened ChainFiles
  import opened Crash
  import BlockProcessors
  import Histories
  import Indexers

  /** What is stored and what is in memory, for an indexer between flushes: every commit so far wrote
      the flush count of the histories, and the files hold what is committed. */
  ghost function NodeOf(ix: Indexers.Indexer, hashFile: Bytes, countFile: Bytes): Node
    reads ix, ix.blocks, ix.history
  {
    Node(hashFile, countFile, ix.history.rows, ix.history.flushCount, ix.blocks.committed, ix.blocks.dbHeight,
         ix.history.flushCount, ix.blocks.chain, ix.blocks.dbHeight, ix.history.unflushed)
  }

  /** The stored state describes the blocks up to the committed height. */
  ghost predicate Ready(ix: Indexers.Indexer, hashFile: Bytes, countFile: Bytes)
    reads ix, ix.blocks, ix.history
  {
    ix.Valid() && Inv(ix.blocks.coin, NodeOf(ix, hashFile, countFile))
  }

  lemma StartIsReady(ix: Indexers.Indexer)
    requires ix.Valid() && ix.blocks.chain == [] && ix.history.rows == map[] && ix.history.flushCount == 0
    requires ix.blocks.dbHeight == -1 && ix.blocks.committed == map[] && ix.history.unflushed == map[]
    ensures Ready(ix, [], [])
  {
    hide Inv, Indexers.Indexer.Valid;
    StartIsOk(ix.blocks.coin);
  }

  lemma Facts(ix: Indexers.Indexer)
    requires ix.Valid()
    ensures ValidChain(ix.blocks.coin, ix.blocks.chain) && ix.blocks.utxos == UtxosAt(ix.blocks.coin, ix.blocks.chain)
    ensures ix.blocks.txCount == |Txids(ix.blocks.chain)| && ix.blocks.height == |ix.blocks.chain| - 1
    ensures -1 <= ix.blocks.dbHeight <= ix.blocks.height && ix.history.compFlushCount == -1
    ensures Histories.WholeNumbers(ix.history.unflushed) && WellFormed(ix.history.rows)
    ensures ix.blocks.dbHeight == ix.blocks.height ==> ix.history.unflushed == map[]
  {
    hide BlockProcessors.BlockProcessor.Rep, BlockProcessors.UndoKept, UtxosAt, Txids, ValidChain, TxNums, Joined, Recorded,
      Indexers.HistoryAt;
  }

  /** Advancing a block is the step that adds it to the chain in memory. */
  method Advance(ix: Indexers.Indexer, block: Block, daemonHeight: int, ghost hashFile: Bytes, ghost countFile: Bytes)
    requires Ready(ix, hashFile, countFile)
    requires ValidTxs(ix.blocks.coin, ix.blocks.utxos, block, ix.blocks.txCount) && ix.blocks.txCount + |block| <= Range(5)
    modifies ix.blocks, ix.history
    ensures Ready(ix, hashFile, countFile)
    ensures Enabled(ix.blocks.coin, old(NodeOf(ix, hashFile, countFile)), Step.Advance(block, ix.history.unflushed))
    ensures NodeOf(ix, hashFile, countFile)
            == Next(ix.blocks.coin, old(NodeOf(ix, hashFile, countFile)), Step.Advance(block, ix.history.unflushed))
  {
    hide Indexers.Indexer.Valid, Inv, UtxosAt, Txids, ValidChain, ValidTxs, HashXsByTx, Touching, TxNums, Range,
      Histories.WholeNumbers, Next;
    ghost var n, coin := NodeOf(ix, hashFile, countFile), ix.blocks.coin;
    Facts(ix);
    ix.AdvanceBlock(block, daemonHeight);
    Facts(ix);
    ghost var s := Step.Advance(block, ix.history.unflushed);
    LastTxids(coin, n.chain, block);
    assert Enabled(coin, n, s);
    StepKeeps(coin, n, s);
    assert Next(coin, n, s) == n.(chain := n.chain + [block], unflushed := ix.history.unflushed) by {
      NextAdvance(coin, n, block, ix.history.unflushed);
    }
  }

  lemma NextAdvance(coin: Coin, n: Node, block: Block, unflushed: map<Bytes, Bytes>)
    requires Inv(coin, n) && Enabled(coin, n, Step.Advance(block, unflushed))
    ensures Next(coin, n, Step.Advance(block, unflushed)) == n.(chain := n.chain + [block], unflushed := unflushed)
  {
    hide Inv, Enabled;
  }

  lemma LastTxids(coin: Coin, chain: seq<Block>, block: Block)
    requires |Txids(chain)| + |block| <= Range(5)
    ensures |Txids(chain + [block])| <= Range(5)
  {
    hide Range;
    assert (chain + [block])[..|chain + [block]| - 1] == chain;
  }

  /** A flush is the three writes one after the other. */
  method Flush(ix: Indexers.Indexer, ghost hashFile: Bytes, ghost countFile: Bytes) returns (ghost hashFile': Bytes, ghost countFile': Bytes)
    requires Ready(ix, hashFile, countFile) && ix.history.flushCount + 1 < 0x1_0000_0000
    modifies ix.blocks, ix.history
    ensures Ready(ix, hashFile', countFile') && ix.blocks.dbHeight == ix.blocks.height
    ensures old(ix.blocks.dbHeight) == old(ix.blocks.height) ==>
              NodeOf(ix, hashFile', countFile') == old(NodeOf(ix, hashFile, countFile))
    ensures old(ix.blocks.dbHeight) < old(ix.blocks.height) ==>
              var n := old(NodeOf(ix, hashFile, countFile));
              && CanRun(ix.blocks.coin, n, [FlushFs, FlushHistory, CommitUtxos])
              && NodeOf(ix, hashFile', countFile') == Run(ix.blocks.coin, n, [FlushFs, FlushHistory, CommitUtxos])
  {
    hide Indexers.Indexer.Valid, Inv, UtxosAt, ValidChain, Run, CanRun, HashRest, CountRest, WithFiles, FlushedRows;
    ghost var n, coin := NodeOf(ix, hashFile, countFile), ix.blocks.coin;
    Facts(ix);
    ix.Flush();
    Facts(ix);
    if old(ix.blocks.dbHeight) == old(ix.blocks.height) {
      hashFile', countFile' := hashFile, countFile;
      SameUtxos(coin, n);
    } else {
      FlushSteps(coin, n);
      ghost var m := Run(coin, n, [FlushFs, FlushHistory, CommitUtxos]);
      hashFile', countFile' := m.hashFile, m.countFile;
    }
  }

  /** Committed at the height of the chain. */
  lemma SameUtxos(coin: Coin, n: Node)
    requires Inv(coin, n) && n.height == |n.chain| - 1
    ensures n.utxos == UtxosAt(coin, n.chain)
  {
    hide UtxosAt, ValidChain, Spells;
    assert n.chain[..|n.chain|] == n.chain;
  }

  lemma FlushSteps(coin: Coin, n: Node)
    requires Inv(coin, n) && n.fsHeight == n.height
    ensures CanRun(coin, n, [FlushFs, FlushHistory, CommitUtxos])
    ensures var m := Run(coin, n, [FlushFs, FlushHistory, CommitUtxos]);
            && Inv(coin, m) && m.rows == FlushedRows(n.rows, n.unflushed, n.historyCount + 1)
            && m.historyCount == m.utxoCount == n.historyCount + 1 && m.utxos == UtxosAt(coin, n.chain)
            && m.height == m.fsHeight == |n.chain| - 1 && m.chain == n.chain && m.unflushed == map[]
  {
    hide Inv, UtxosAt, FlushedRows, HashRest, CountRest, Overwritten;
    var steps := [FlushFs, FlushHistory, CommitUtxos];
    InvBounds(coin, n);
    StepKeeps(coin, n, FlushFs);
    var n1 := Next(coin, n, FlushFs);
    InvBounds(coin, n1);
    StepKeeps(coin, n1, FlushHistory);
    var n2 := Next(coin, n1, FlushHistory);
    StepKeeps(coin, n2, CommitUtxos);
    assert steps[1..] == [FlushHistory, CommitUtxos] && steps[1..][1..] == [CommitUtxos] && steps[1..][1..][1..] == [];
    OneStep(coin, n2, CommitUtxos);
    TwoSteps(coin, n1, FlushHistory, [CommitUtxos]);
    TwoSteps(coin, n, FlushFs, [FlushHistory, CommitUtxos]);
  }

  lemma InvBounds(coin: Coin, n: Node)
    requires Inv(coin, n)
    ensures -1 <= n.fsHeight < |n.chain| && FilesHold(n.hashFile, n.countFile, n.chain[..n.fsHeight + 1])
  {
  }

  lemma OneStep(coin: Coin, n: Node, s: Step)
    requires Inv(coin, n) && Enabled(coin, n, s)
    ensures CanRun(coin, n, [s]) && Run(coin, n, [s]) == Next(coin, n, s)
  {
    hide Inv, Enabled, Next;
    StepKeeps(coin, n, s);
    assert [s][1..] == [];
  }

  lemma TwoSteps(coin: Coin, n: Node, s: Step, rest: seq<Step>)
    requires Inv(coin, n) && Enabled(coin, n, s) && Inv(coin, Next(coin, n, s)) && CanRun(coin, Next(coin, n, s), rest)
    ensures CanRun(coin, n, [s] + rest) && Run(coin, n, [s] + rest) == Run(coin, Next(coin, n, s), rest)
  {
    hide Inv, Enabled, Next;
    assert ([s] + rest)[1..] == rest;
  }

  /** Backing a block up is the step that shortens all stores at once. */
  method BackupBlock(ix: Indexers.Indexer, block: Block, ghost hashFile: Bytes, ghost countFile: Bytes)
    requires Ready(ix, hashFile, countFile)
    requires ix.blocks.CachesEmpty() && ix.blocks.dbHeight == ix.blocks.height > 0
    requires block == ix.blocks.chain[ix.blocks.height] && ix.blocks.height in ix.blocks.recorded
    requires ix.history.flushCount + 1 < 0x1_0000_0000
    modifies ix.blocks, ix.history
    ensures Ready(ix, hashFile, countFile)
    ensures var n, s := old(NodeOf(ix, hashFile, countFile)), Step.Backup(ix.blocks.touched, ix.history.rows);
            Enabled(ix.blocks.coin, n, s) && NodeOf(ix, hashFile, countFile) == Next(ix.blocks.coin, n, s)
  {
    hide Indexers.Indexer.Valid, Inv, UtxosAt, Txids, ValidChain, ValidTxs, HashXsByTx, UnionAll, TxNums, Joined, Below, Range;
    ghost var n, coin := NodeOf(ix, hashFile, countFile), ix.blocks.coin;
    Facts(ix);
    ix.BackupBlock(block);
    Facts(ix);
    ghost var s := Step.Backup(ix.blocks.touched, ix.history.rows);
    forall h
      ensures Joined(ix.history.rows, h, ix.history.flushCount + 1) == Joined(ix.history.rows, h, ix.history.flushCount)
    {
      JoinedBeyond(ix.history.rows, h, ix.history.flushCount, ix.history.flushCount + 1);
    }
    assert n.chain[..n.height] == n.chain[..|n.chain| - 1];
    assert Enabled(coin, n, s);
    StepKeeps(coin, n, s);
  }
}
