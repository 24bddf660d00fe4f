/** The block processor with its ref tables and the Glyph index: what electrumx/server/block_processor.py
    does with every transaction, and the flush of electrumx/server/db.py.

    Before and after every transaction each Glyph balance is the sum of the values of the live
    outputs of its holder that carry its ref.  What a transaction debits is read from the tables,
    what it credits from its outputs. */
module TokenIndexers {
  import opened ByteStrings
  import opened Utxos
  import opened RefRows
  import opened Balances
  import opened GlyphLedger
  import opened GlyphBatches
  import GlyphIndexes
  import BlockProcessors
  import RefTables
  import LedgerRows
  import Overlay
  import Discovery
  import Scripts
  import Transactions

  class TokenIndexer {
    const blocks: BlockProcessors.BlockProcessor
    const refs: RefTables.RefProcessor
    const glyphs: GlyphIndexes.GlyphIndex
    ghost var past: seq<Window>   // for each committed height, the window it was committed in

    constructor (coin: Coin, base: Bytes -> Bytes, reorgLimit: nat, cbor: Discovery.Cbor)
      requires cbor.Usable() && GoodBase(base) && BaseIs(coin, base)
      ensures fresh(blocks) && fresh(refs) && fresh(glyphs) && Valid() && blocks.chain == [] && past == []
      ensures blocks.coin == coin && refs.base == base && blocks.reorgLimit == glyphs.reorgLimit == reorgLimit
      ensures blocks.height == blocks.dbHeight == -1 && glyphs.marks == map[-1 := map[]] && glyphs.floor <= 0
      ensures Ledgered()
    {
      hide GlyphIndexes.DbOk, BlockProcessors.BlockProcessor.Valid, RefTables.RefProcessor.Valid, GlyphIndexes.GlyphIndex.Valid,
        Booked, LiveAt, GoodBase, BaseIs, GlyphIndexes.GlyphIndex.Ledger, Carried;
      GlyphIndexes.EmptyTables(cbor);
      GlyphIndexes.Fresh(cbor, map[], -1);
      blocks := new BlockProcessors.BlockProcessor(coin, reorgLimit);
      refs := new RefTables.RefProcessor(base);
      glyphs := new GlyphIndexes.GlyphIndex(cbor, reorgLimit, map[], -1, 0, map[-1 := map[]]);
      past := [];
      new;
      NothingLive(coin, base);
      assert blocks.chain[..0] == [];
      BookedIsBalanced(glyphs, map[]);
    }

    ghost predicate Valid()
      reads this, blocks, refs, glyphs
    {
      && blocks.Valid() && refs.Valid() && glyphs.Valid()
      && blocks.chain == refs.chain && blocks.recorded == refs.recorded
      && blocks.dbHeight == refs.dbHeight == glyphs.dbHeight && glyphs.top == blocks.height
      && (blocks.dbHeight == blocks.height ==> glyphs.CachesEmpty())
      && (blocks.height == -1 || Overlay.Height(blocks.height))
      && GoodBase(refs.base) && BaseIs(blocks.coin, refs.base)
      && MarksBooked(blocks.coin, refs.base, blocks.chain, glyphs.marks)
      && Recalled(blocks.coin, refs.base, blocks.chain, glyphs.db, blocks.dbHeight, glyphs.floor, past)
    }

    /** The window that a height was committed in, or the one that is open. */
    ghost function WindowOf(h: nat): Window
      reads this, blocks`dbHeight, blocks`height, glyphs
    {
      if h < |past| then past[h] else Window(blocks.dbHeight, blocks.height, glyphs.Now())
    }

    // ----- The ledger -----

    /** The ledger is that of the live outputs, and every ref these carry is known. */
    ghost predicate Balanced(live: Live)
      reads glyphs`balanceCache, glyphs`balanceDeletes, glyphs`tokenCache, glyphs`db
    {
      glyphs.Ledger(live) && forall r :: Carried(live, r) ==> glyphs.Known(r)
    }

    /** The ledger is that of the chain, and it is known what it was since the last flush. */
    ghost predicate Ledgered()
      reads blocks`chain, blocks`dbHeight
      reads glyphs`balanceCache, glyphs`balanceDeletes, glyphs`tokenCache, glyphs`db, glyphs`undoCache
    {
      && Balanced(LiveAt(blocks.coin, refs.base, blocks.chain))
      && Windowed(blocks.coin, refs.base, blocks.chain, blocks.dbHeight, glyphs.Now(), glyphs.db)
    }

    /** A block that consensus accepts on top of the chain. */
    ghost predicate ValidNext(block: Block)
      reads blocks
    {
      && |block| <= 0x1_0000 && blocks.txCount + |block| <= Range(5) && Overlay.Height(|blocks.chain|)
      && ValidTxs(blocks.coin, blocks.utxos, block, blocks.txCount)
      && ValidRefs(refs.base, RowsAt(refs.base, blocks.chain), MintedAt(blocks.chain), block)
      && SupplyOk(blocks.coin, blocks.utxos, block, blocks.txCount)
    }

    // ----- One transaction -----

    /** Transaction `i` of a block whose earlier transactions are in the caches. */
    method AdvanceTx(block: Block, i: nat, mints0: set<Bytes>, undo0: Locs, ghost moved: set<Bytes>, ghost m: Minted, ghost held: Live)
      returns (spent: seq<Bytes>, hashXs: set<Bytes>, mints: set<Bytes>, undo: Locs)
      requires blocks.Open(block) && i < |block| <= 0x1_0000 && ValidTx(blocks.utxos, block[i])
      requires refs.UndoSoFar(undo0, moved, mints0) && ValidRefsTx(refs.db + refs.refCache, m, block[i])
      requires MintRows(refs.db + refs.refCache, m) && refs.locs.Keys <= m.singles && RefTables.GoodLocs(refs.locs)
      requires glyphs.Valid() && -1 <= glyphs.dbHeight < glyphs.top == blocks.height + 1 && Overlay.Height(glyphs.top)
      requires GoodBase(refs.base) && BaseIs(blocks.coin, refs.base)
      requires Agree(blocks.utxos, refs.db + refs.refCache, held) && Balanced(LiveOf(blocks.utxos, held))
      requires Supply(blocks.utxos) < Range(8)
      requires Supply(Utxos.AdvanceTx(blocks.coin, blocks.utxos, block[i], blocks.txCount + i)) < Range(8)
      modifies blocks`utxoCache, blocks`dbDeletes, blocks`dead, blocks`utxos, blocks`touched
      modifies refs`refCache, refs`refLocCache
      modifies glyphs`tokenCache, glyphs`tokenHeight, glyphs`knownRefs, glyphs`pending, glyphs`undoCache, glyphs`balanceCache,
        glyphs`balanceHeight, glyphs`balanceDeletes, glyphs`ownerCache
      ensures blocks.Open(block) && blocks.utxos == Utxos.AdvanceTx(blocks.coin, old(blocks.utxos), block[i], blocks.txCount + i)
      ensures InputsLive(old(blocks.utxos), block[i].tx.inputs) && spent == SpentEntries(old(blocks.utxos), block[i].tx.inputs)
      ensures hashXs == TxHashXs(blocks.coin, old(blocks.utxos), block[i])
      ensures refs.db + refs.refCache == RowsTx(refs.base, refs.db + old(refs.refCache), block[i])
      ensures refs.locs + refs.refLocCache == LocsTx(refs.locs + old(refs.refLocCache), block[i])
      ensures refs.UndoSoFar(undo, moved + Moved(block[i]), mints)
      ensures glyphs.Valid() && Balanced(LiveOf(blocks.utxos, HeldTx(refs.base, held, block[i])))
      ensures Steady(old(glyphs.Now()), glyphs.Now(), glyphs.db, blocks.height + 1)
      ensures Agree(blocks.utxos, refs.db + refs.refCache, HeldTx(refs.base, held, block[i]))
    {
      hide BlockProcessors.BlockProcessor.Open, GlyphIndexes.GlyphIndex.Valid, Agree, LiveOf, HeldTx, ValidTx, ValidRefsTx, MintRows,
        GoodBase, BaseIs, Utxos.AdvanceTx, SpentEntries, TxHashXs, RowsTx, LocsTx, Range, DebitsOf, DebitedOuts, CreditsTo,
        GlyphIndexes.Spent, GlyphIndexes.Credited, GlyphIndexes.GoodDebits, GlyphIndexes.GoodCredits, GlyphIndexes.RefsIn,
        GlyphIndexes.GlyphIndex.Ledger, Carried, Supply, InputsLive, RefTables.GoodLocs, Moved, GlyphIndexes.GlyphIndex.Known,
        Steady;
      var t := block[i];
      ghost var u, rows, live := blocks.utxos, refs.db + refs.refCache, LiveOf(blocks.utxos, held);
      NumFits(blocks, block, i);
      spent, hashXs := blocks.AdvanceTx(block, i);
      var debits := Debits(t.tx.inputs, spent, u, held);
      mints, undo := refs.AdvanceTx(t, mints0, undo0, moved, m);
      ValidValues(u, t);
      var credits, outRefs, made := Credits(t);
      ghost var num, outs := blocks.txCount + i, DebitedOuts(rows, t.tx.inputs);
      AgreeTx(blocks.coin, refs.base, u, rows, m, held, t, num);
      TxMoves(blocks.coin, refs.base, u, rows, m, held, t, num, credits, made);
      MoveTokens(t, i, debits, credits, outRefs, live, outs, made);
    }

    /** What the Glyph index does with a transaction: it registers the refs of the outputs, then
        settles the balances. */
    method MoveTokens(
        t: BlockTx, i: nat, debits: seq<GlyphIndexes.Debit>, credits: seq<GlyphIndexes.Credit>, outRefs: seq<(Bytes, bool)>,
        ghost live: Live, ghost spent: seq<Outpoint>, ghost made: seq<Outpoint>)
      requires glyphs.Valid() && -1 <= glyphs.dbHeight < glyphs.top == blocks.height + 1 && Overlay.Height(glyphs.top)
      requires |t.hash| == 32 && i < 0x1_0000 && Listed(credits, outRefs) && Balanced(live)
      requires |debits| == |spent| && |credits| == |made| && GlyphIndexes.GoodDebits(live, debits, spent)
      requires GlyphIndexes.GoodCredits(GlyphIndexes.Spent(live, spent), credits, made)
      requires forall k, r :: 0 <= k < |debits| && r in GlyphIndexes.RefsIn(debits[k].refsData) ==> Carried(live, r)
      modifies glyphs`tokenCache, glyphs`tokenHeight, glyphs`knownRefs, glyphs`pending, glyphs`undoCache, glyphs`balanceCache,
        glyphs`balanceHeight, glyphs`balanceDeletes, glyphs`ownerCache
      ensures glyphs.Valid() && Balanced(GlyphIndexes.Credited(GlyphIndexes.Spent(live, spent), credits, made))
      ensures Steady(old(glyphs.Now()), glyphs.Now(), glyphs.db, blocks.height + 1)
    {
      hide Steady, GlyphIndexes.GlyphIndex.Valid, GlyphIndexes.Spent, GlyphIndexes.Credited, GlyphIndexes.GoodDebits,
        GlyphIndexes.GoodCredits, GlyphIndexes.RefsIn, GlyphIndexes.GlyphIndex.Ledger, Carried, GlyphIndexes.GlyphIndex.Known;
      RegisterTokens(t, i, credits, outRefs);
      forall r | Carried(GlyphIndexes.Credited(GlyphIndexes.Spent(live, spent), credits, made), r)
        ensures glyphs.Known(r)
      {
        CarriedAfter(live, spent, credits, made, r);
      }
      if debits != [] || credits != [] {
        glyphs.ProcessBalanceChanges(blocks.height + 1, debits, credits, live, spent, made);
      } else {
        NothingMoves(live, spent, made);
        SteadySame(glyphs.Now(), glyphs.db, blocks.height + 1);
      }
    }

    method RegisterTokens(t: BlockTx, i: nat, credits: seq<GlyphIndexes.Credit>, outRefs: seq<(Bytes, bool)>)
      requires glyphs.Valid() && -1 <= glyphs.dbHeight < glyphs.top == blocks.height + 1 && Overlay.Height(glyphs.top)
      requires |t.hash| == 32 && i < 0x1_0000 && Listed(credits, outRefs)
      modifies glyphs`tokenCache, glyphs`tokenHeight, glyphs`knownRefs, glyphs`pending
      ensures glyphs.Valid() && forall r :: old(glyphs.Known(r)) ==> glyphs.Known(r)
      ensures forall k, r :: 0 <= k < |credits| && r in credits[k].refs ==> glyphs.Known(r)
    {
      hide GlyphIndexes.GlyphIndex.Valid, GlyphIndexes.GlyphIndex.Known;
      var all := outRefs;
      if outRefs == [] {
        all := ScannedRefs(t);
        ListedAny(credits, all);
      }
      glyphs.RegisterRefs(all, blocks.height + 1, t.hash, i);
    }

    // ----- Whole blocks -----

    /** After the first `i` transactions of a block: the tables and the ledger are those of the live
        outputs so far, and balances moved at the height of the block only. */
    ghost predicate Midway(block: Block, i: nat, held: Live, held0: Live, books: Books)
      reads blocks`utxos, blocks`txCount, blocks`height, refs`db, refs`refCache, glyphs
    {
      && i <= |block| && glyphs.Valid()
      && Agree(blocks.utxos, refs.db + refs.refCache, held) && Balanced(LiveOf(blocks.utxos, held))
      && SupplyOk(blocks.coin, blocks.utxos, block[i..], blocks.txCount + i)
      && HeldBlock(refs.base, held, block[i..]) == HeldBlock(refs.base, held0, block)
      && Steady(books, glyphs.Now(), glyphs.db, if blocks.height >= -1 then blocks.height + 1 else 0)
    }

    method AdvanceNext(
        block: Block, i: nat, mints0: set<Bytes>, undo0: Locs, ghost moved: set<Bytes>, ghost m: Minted, ghost held: Live,
        ghost held0: Live, ghost books: Books)
      returns (spent: seq<Bytes>, hashXs: set<Bytes>, mints: set<Bytes>, undo: Locs)
      requires blocks.Open(block) && i < |block| <= 0x1_0000 && ValidTx(blocks.utxos, block[i])
      requires refs.UndoSoFar(undo0, moved, mints0) && ValidRefsTx(refs.db + refs.refCache, m, block[i])
      requires MintRows(refs.db + refs.refCache, m) && refs.locs.Keys <= m.singles && RefTables.GoodLocs(refs.locs)
      requires -1 <= glyphs.dbHeight < glyphs.top == blocks.height + 1 && Overlay.Height(glyphs.top)
      requires GoodBase(refs.base) && BaseIs(blocks.coin, refs.base) && Midway(block, i, held, held0, books)
      modifies blocks`utxoCache, blocks`dbDeletes, blocks`dead, blocks`utxos, blocks`touched
      modifies refs`refCache, refs`refLocCache
      modifies glyphs`tokenCache, glyphs`tokenHeight, glyphs`knownRefs, glyphs`pending, glyphs`undoCache, glyphs`balanceCache,
        glyphs`balanceHeight, glyphs`balanceDeletes, glyphs`ownerCache
      ensures blocks.Open(block) && blocks.utxos == Utxos.AdvanceTx(blocks.coin, old(blocks.utxos), block[i], blocks.txCount + i)
      ensures InputsLive(old(blocks.utxos), block[i].tx.inputs) && spent == SpentEntries(old(blocks.utxos), block[i].tx.inputs)
      ensures hashXs == TxHashXs(blocks.coin, old(blocks.utxos), block[i])
      ensures refs.db + refs.refCache == RowsTx(refs.base, refs.db + old(refs.refCache), block[i])
      ensures refs.locs + refs.refLocCache == LocsTx(refs.locs + old(refs.refLocCache), block[i])
      ensures refs.UndoSoFar(undo, moved + Moved(block[i]), mints)
      ensures Midway(block, i + 1, HeldTx(refs.base, held, block[i]), held0, books)
    {
      hide BlockProcessors.BlockProcessor.Open, GlyphIndexes.GlyphIndex.Valid, Agree, LiveOf, HeldTx, ValidTx, ValidRefsTx, MintRows,
        GoodBase, BaseIs, Utxos.AdvanceTx, SpentEntries, TxHashXs, RowsTx, LocsTx, Range, Supply, InputsLive, RefTables.GoodLocs,
        Moved, Steady, SupplyOk, HeldBlock, Balanced, RefTables.RefProcessor.UndoSoFar;
      LedgerStep(blocks.coin, refs.base, blocks.utxos, held, block, blocks.txCount, i);
      ghost var now := glyphs.Now();
      spent, hashXs, mints, undo := AdvanceTx(block, i, mints0, undo0, moved, m, held);
      SteadyTwice(books, now, glyphs.Now(), glyphs.db, blocks.height + 1);
    }

    /** The loop over the transactions of a block. */
    method AdvanceTxs(block: Block, ghost m0: Minted, ghost held0: Live) returns (undoInfo: seq<Bytes>, undo: Locs)
      requires blocks.Open(block) && ValidTxs(blocks.coin, blocks.utxos, block, blocks.txCount) && |block| <= 0x1_0000
      requires ValidRefs(refs.base, refs.db + refs.refCache, m0, block) && MintRows(refs.db + refs.refCache, m0)
      requires refs.locs.Keys <= m0.singles && RefTables.GoodLocs(refs.locs)
      requires glyphs.Valid() && -1 <= glyphs.dbHeight < glyphs.top == blocks.height + 1 && Overlay.Height(glyphs.top)
      requires GoodBase(refs.base) && BaseIs(blocks.coin, refs.base)
      requires Agree(blocks.utxos, refs.db + refs.refCache, held0) && Balanced(LiveOf(blocks.utxos, held0))
      requires SupplyOk(blocks.coin, blocks.utxos, block, blocks.txCount)
      modifies blocks`utxoCache, blocks`dbDeletes, blocks`dead, blocks`utxos, blocks`touched
      modifies refs`refCache, refs`refLocCache
      modifies glyphs`tokenCache, glyphs`tokenHeight, glyphs`knownRefs, glyphs`pending, glyphs`undoCache, glyphs`balanceCache,
        glyphs`balanceHeight, glyphs`balanceDeletes, glyphs`ownerCache
      ensures blocks.Open(block)
      ensures blocks.utxos == Utxos.AdvanceTxs(blocks.coin, old(blocks.utxos), block, blocks.txCount)
      ensures undoInfo == UndoOf(blocks.coin, old(blocks.utxos), block, blocks.txCount)
      ensures refs.db + refs.refCache == RowsBlock(refs.base, refs.db + old(refs.refCache), block)
      ensures refs.locs + refs.refLocCache == LocsBlock(refs.locs + old(refs.refLocCache), block)
      ensures undo == LocsUndo(refs.locs, block)
      ensures glyphs.Valid() && Balanced(LiveOf(blocks.utxos, HeldBlock(refs.base, held0, block)))
      ensures Steady(old(glyphs.Now()), glyphs.Now(), glyphs.db, blocks.height + 1)
    {
      hide BlockProcessors.BlockProcessor.Open, GlyphIndexes.GlyphIndex.Valid, ValidTxs, ValidRefs, GoodBase, BaseIs, Midway,
        BlockProcessors.Progress, RefTables.Progress, Utxos.AdvanceTx, Utxos.AdvanceTxs, SpentEntries, TxHashXs, RowsTx, LocsTx,
        HeldTx, UndoOf, HashXsByTx, ValidTx, ValidRefsTx, Moved, RefTables.GoodLocs, MintRows, Minted.With, RowsBlock, LocsBlock,
        MovedIn, RefTables.RefProcessor.UndoSoFar, LocsUndo, Steady, Agree, Balanced, SupplyOk, HeldBlock;
      ghost var coin, base, u, num, books := blocks.coin, refs.base, blocks.utxos, blocks.txCount, glyphs.Now();
      ghost var rows, places := refs.db + refs.refCache, refs.locs + refs.refLocCache;
      var hashXsByTx, mints := [], {};
      undoInfo, undo := [], map[];
      ghost var m, moved, held := m0, {}, held0;
      BlockProcessors.ProgressStart(coin, u, block, num);
      RefTables.ProgressStart(base, refs.locs, block, rows, places, m);
      NoUndoYet(refs);
      StartMidway(block, held0);
      for i := 0 to |block|
        invariant blocks.Open(block) && refs.UndoSoFar(undo, moved, mints) && Midway(block, i, held, held0, books)
        invariant BlockProcessors.Progress(coin, u, block, num, i, blocks.utxos, undoInfo, hashXsByTx)
        invariant RefTables.Progress(base, refs.locs, rows, places, block, i, refs.db + refs.refCache, refs.locs + refs.refLocCache, m, moved)
      {
        BlockProcessors.ProgressStep(coin, u, block, num, i, blocks.utxos, undoInfo, hashXsByTx);
        RefTables.ProgressStep(base, refs.locs, rows, places, block, i, refs.db + refs.refCache, refs.locs + refs.refLocCache, m, moved);
        var spent, hashXs;
        spent, hashXs, mints, undo := AdvanceNext(block, i, mints, undo, moved, m, held, held0, books);
        undoInfo, hashXsByTx := undoInfo + spent, hashXsByTx + [hashXs];
        m, moved, held := m.With(block[i]), moved + Moved(block[i]), HeldTx(base, held, block[i]);
      }
      BlockProcessors.ProgressEnd(coin, u, block, num, blocks.utxos, undoInfo, hashXsByTx);
      RefTables.ProgressEnd(base, refs.locs, rows, places, block, refs.db + refs.refCache, refs.locs + refs.refLocCache, m, moved);
      AllUndo(refs, undo, block, mints);
      EndMidway(block, held, held0, books);
    }

    lemma StartMidway(block: Block, held: Live)
      requires glyphs.Valid() && Agree(blocks.utxos, refs.db + refs.refCache, held) && Balanced(LiveOf(blocks.utxos, held))
      requires SupplyOk(blocks.coin, blocks.utxos, block, blocks.txCount)
      ensures Midway(block, 0, held, held, glyphs.Now())
    {
      hide GlyphIndexes.GlyphIndex.Valid, Agree, Balanced, SupplyOk, HeldBlock, Steady;
      assert block[0..] == block;
      SteadySame(glyphs.Now(), glyphs.db, if blocks.height >= -1 then blocks.height + 1 else 0);
    }

    lemma EndMidway(block: Block, held: Live, held0: Live, books: Books)
      requires Midway(block, |block|, held, held0, books)
      ensures glyphs.Valid() && Balanced(LiveOf(blocks.utxos, HeldBlock(refs.base, held0, block)))
      ensures blocks.height >= -1 ==> Steady(books, glyphs.Now(), glyphs.db, blocks.height + 1)
    {
      hide GlyphIndexes.GlyphIndex.Valid, Agree, Balanced, SupplyOk, Steady;
      HeldNone(refs.base, held, block);
    }

    /** Advances one block: every transaction moves the ledger as it moves the UTXO set. */
    method AdvanceBlock(block: Block, daemonHeight: int)
      requires Valid() && Ledgered() && ValidNext(block)
      modifies blocks, refs, glyphs
      ensures blocks.chain == old(blocks.chain) + [block] && blocks.dbHeight == old(blocks.dbHeight)
      ensures blocks.height == old(blocks.height) + 1 && glyphs.floor == old(glyphs.floor) && glyphs.marks == old(glyphs.marks)
      ensures var h := |old(blocks.chain)|;
              blocks.recorded == old(blocks.recorded) + if h >= daemonHeight - blocks.reorgLimit + 1 then {h} else {}
      ensures Valid() && Ledgered()
    {
      hide Recalled, BlockProcessors.BlockProcessor.Open, BlockProcessors.BlockProcessor.Valid, RefTables.RefProcessor.Valid,
        GlyphIndexes.GlyphIndex.Valid, Balanced, MarksBooked, ValidTxs, ValidRefs, SupplyOk, GoodBase, BaseIs, UtxosAt, RowsAt,
        MintedAt, HeldAt, HeldBlock, RefTables.RefProcessor.Paused, Agree, Range, LiveOf, Utxos.AdvanceTxs, UndoOf, LocsUndo,
        RefTables.GoodLocs, MintRows, RowsBlock, LocsBlock, Txids, Windowed, Steady;
      ghost var cache, locCache := refs.refCache, refs.refLocCache;
      BeforeBlock(blocks, refs);
      AgreeChain(blocks.coin, refs.base, blocks.chain);
      blocks.BeginBlock(block);
      glyphs.BeginBlock(blocks.height + 1);
      var undoInfo, undo := AdvanceTxs(block, MintedAt(blocks.chain), HeldAt(refs.base, blocks.chain));
      EndBlock(block, undoInfo, undo, daemonHeight, cache, locCache, old(glyphs.Now()));
    }

    /** Closes a block whose transactions are all in the caches. */
    method EndBlock(block: Block, undoInfo: seq<Bytes>, undo: Locs, daemonHeight: int, ghost cache: Rows, ghost locCache: Locs,
                    ghost books: Books)
      requires blocks.Open(block) && refs.Paused(cache, locCache) && glyphs.Valid()
      requires blocks.chain == refs.chain && blocks.recorded == refs.recorded && blocks.height == |blocks.chain| - 1
      requires blocks.dbHeight == refs.dbHeight == glyphs.dbHeight <= blocks.height && glyphs.top == blocks.height + 1
      requires GoodBase(refs.base) && BaseIs(blocks.coin, refs.base) && Overlay.Height(glyphs.top)
      requires MarksBooked(blocks.coin, refs.base, blocks.chain, glyphs.marks) && blocks.txCount == |Txids(blocks.chain)|
      requires Recalled(blocks.coin, refs.base, blocks.chain, glyphs.db, blocks.dbHeight, glyphs.floor, past)
      requires ValidTxs(blocks.coin, UtxosAt(blocks.coin, blocks.chain), block, blocks.txCount)
      requires blocks.utxos == Utxos.AdvanceTxs(blocks.coin, UtxosAt(blocks.coin, blocks.chain), block, blocks.txCount)
      requires undoInfo == UndoOf(blocks.coin, UtxosAt(blocks.coin, blocks.chain), block, blocks.txCount)
      requires ValidRefs(refs.base, RowsAt(refs.base, blocks.chain), MintedAt(blocks.chain), block)
      requires refs.db + refs.refCache == RowsBlock(refs.base, refs.db + cache, block)
      requires refs.locs + refs.refLocCache == LocsBlock(refs.locs + locCache, block) && undo == LocsUndo(refs.locs, block)
      requires Balanced(LiveOf(blocks.utxos, HeldBlock(refs.base, HeldAt(refs.base, blocks.chain), block)))
      requires Windowed(blocks.coin, refs.base, blocks.chain, blocks.dbHeight, books, glyphs.db)
      requires Steady(books, glyphs.Now(), glyphs.db, blocks.height + 1)
      modifies blocks`txCount, blocks`height, blocks`undoInfos, blocks`chain, blocks`recorded
      modifies refs`refLocUndoInfos, refs`height, refs`chain, refs`bases, refs`recorded
      ensures blocks.chain == old(blocks.chain) + [block] && blocks.height == old(blocks.height) + 1
      ensures var h := |old(blocks.chain)|;
              blocks.recorded == old(blocks.recorded) + if h >= daemonHeight - blocks.reorgLimit + 1 then {h} else {}
      ensures Valid() && Ledgered()
    {
      hide Recalled, BlockProcessors.BlockProcessor.Open, BlockProcessors.BlockProcessor.Valid, RefTables.RefProcessor.Valid,
        GlyphIndexes.GlyphIndex.Valid, MarksBooked, ValidTxs, ValidRefs, GoodBase, BaseIs, UtxosAt, RowsAt,
        MintedAt, HeldAt, HeldBlock, RefTables.RefProcessor.Paused, LiveOf, LiveAt, Utxos.AdvanceTxs, UndoOf, LocsUndo,
        RowsBlock, LocsBlock, Txids, Windowed, Steady, GlyphIndexes.GlyphIndex.Ledger;
      LiveBlock(blocks.coin, refs.base, blocks.chain, block);
      WindowedMore(blocks.coin, refs.base, blocks.chain, block, blocks.dbHeight, books, glyphs);
      MarksKept(blocks.coin, refs.base, blocks.chain, block, glyphs.marks);
      RecalledMore(blocks.coin, refs.base, blocks.chain, block, glyphs.db, blocks.dbHeight, glyphs.floor, past);
      blocks.EndBlock(block, undoInfo, daemonHeight);
      refs.EndBlock(block, undo, blocks.height >= daemonHeight - blocks.reorgLimit + 1, cache, locCache);
    }

    // ----- Flushing and backing up -----

    /** Commits everything; the ledger is then in the database. */
    method Flush()
      requires Valid() && Ledgered()
      modifies this, blocks, refs, glyphs
      ensures blocks.chain == old(blocks.chain) && blocks.recorded == old(blocks.recorded)
      ensures |past| == blocks.height + 1 && forall h: nat :: h <= blocks.height ==> past[h] == old(WindowOf(h))
      ensures blocks.CachesEmpty() && blocks.dbHeight == blocks.height == old(blocks.height)
      ensures old(blocks.dbHeight) == blocks.height ==> glyphs.marks == old(glyphs.marks) && glyphs.floor == old(glyphs.floor)
      ensures old(blocks.dbHeight) < blocks.height ==> glyphs.marks == old(glyphs.marks)[blocks.height := glyphs.db]
      ensures glyphs.floor == old(glyphs.floor) || glyphs.floor == blocks.height - glyphs.reorgLimit + 1
      ensures glyphs.CachesEmpty() && Booked(glyphs.db, LiveAt(blocks.coin, refs.base, blocks.chain))
      ensures Valid() && Ledgered()
    {
      hide BlockProcessors.BlockProcessor.Valid, RefTables.RefProcessor.Valid, GlyphIndexes.GlyphIndex.Valid, MarksBooked,
        GoodBase, BaseIs, LiveAt, GlyphIndexes.GlyphIndex.Ledger, Booked, GlyphIndexes.RowsWritten, Carried,
        GlyphIndexes.GlyphIndex.Known, Windowed, WindowBalances, Recalled, Overlay.UnwindsAlike;
      ghost var live := LiveAt(blocks.coin, refs.base, blocks.chain);
      Heights(blocks, refs);
      PastLength(blocks.coin, refs.base, blocks.chain, glyphs.db, blocks.dbHeight, glyphs.floor, past);
      if blocks.height == blocks.dbHeight {
        BookedIsBalanced(glyphs, live);
        return;
      }
      ghost var lo, hi, books := blocks.dbHeight, blocks.height, glyphs.Now();
      blocks.Flush();
      refs.Flush();
      Heights(blocks, refs);
      CommitGlyphs(live);
      MarkAdded(blocks.coin, refs.base, blocks.chain, old(glyphs.marks), glyphs.db);
      RecalledFlush(blocks.coin, refs.base, blocks.chain, old(glyphs.db), lo, glyphs.db, old(glyphs.floor), glyphs.floor, past, books);
      past := past + seq(hi - lo, _ => Window(lo, hi, books));
      WindowedFresh(blocks.coin, refs.base, blocks.chain, glyphs);
    }

    /** The part of a flush that concerns the Glyph index. */
    method CommitGlyphs(ghost live: Live)
      requires glyphs.Valid() && glyphs.dbHeight < blocks.height == glyphs.top && Overlay.Height(blocks.height) && Balanced(live)
      modifies glyphs
      ensures glyphs.Valid() && glyphs.CachesEmpty() && glyphs.dbHeight == blocks.height == glyphs.top
      ensures glyphs.marks == old(glyphs.marks)[blocks.height := glyphs.db]
      ensures glyphs.floor == old(glyphs.floor) || glyphs.floor == blocks.height - glyphs.reorgLimit + 1
      ensures Balanced(live) && Booked(glyphs.db, live)
      ensures WindowBalances(old(glyphs.db), glyphs.db, old(glyphs.Now()), old(glyphs.dbHeight), blocks.height)
      ensures Overlay.UnwindsAlike(old(glyphs.db), old(glyphs.dbHeight), glyphs.db, blocks.height, glyphs.floor)
      ensures old(glyphs.floor) <= glyphs.floor
    {
      hide Overlay.UnwindsAlike, WindowBalances, GlyphIndexes.GlyphIndex.Valid, Booked, GlyphIndexes.RowsWritten, Carried, View, BalanceKey;
      glyphs.Flush(blocks.height);
      BookedIsBalanced(glyphs, live);
    }

    /** Backs up the last block.  At a height where a window ended the ledger is that of the chain
        again. */
    method BackupBlock(block: Block)
      requires Valid() && blocks.CachesEmpty() && blocks.dbHeight == blocks.height > 0
      requires block == blocks.chain[blocks.height] && blocks.height in blocks.recorded && glyphs.floor <= blocks.height
      modifies this, blocks, refs, glyphs
      ensures blocks.chain == old(blocks.chain)[..|old(blocks.chain)| - 1]
      ensures blocks.recorded == old(blocks.recorded) - {old(blocks.height)}
      ensures blocks.CachesEmpty() && blocks.dbHeight == blocks.height == old(blocks.height) - 1
      ensures glyphs.CachesEmpty() && glyphs.db == Overlay.BackedUp(old(glyphs.db), old(blocks.height))
      ensures glyphs.floor == old(glyphs.floor) && glyphs.marks == GlyphIndexes.MarksBelow(old(glyphs.marks), old(blocks.height))
      ensures |past| == |old(past)| - 1 && past == old(past)[..|past|]
      ensures Valid() && (blocks.height in glyphs.marks ==> Ledgered())
    {
      hide Recalled, BlockProcessors.BlockProcessor.Valid, RefTables.RefProcessor.Valid, GlyphIndexes.GlyphIndex.Valid, MarksBooked,
        GoodBase, BaseIs, LiveAt, GlyphIndexes.GlyphIndex.Ledger, Booked, Carried, GlyphIndexes.GlyphIndex.Known, ValidTxs,
        HashXsByTx, UnionAll, RowsAt, GlyphIndexes.MarksBelow, Overlay.SameTracked, Overlay.BackedUp, Windowed;
      Heights(blocks, refs);
      UndoRows(blocks, refs);
      ghost var chain, marks := blocks.chain, glyphs.marks;
      var ok := blocks.BackupBlock(block);
      var refsOk := refs.BackupBlock(block);
      Heights(blocks, refs);
      glyphs.Backup(blocks.height + 1);
      MarksFewer(blocks.coin, refs.base, chain, marks);
      PastLength(blocks.coin, refs.base, chain, old(glyphs.db), blocks.height + 1, glyphs.floor, past);
      RecalledBack(blocks.coin, refs.base, chain, old(glyphs.db), glyphs.floor, past);
      past := past[..|past| - 1];
      if blocks.height in glyphs.marks {
        MarkIs(blocks.coin, refs.base, blocks.chain, glyphs.marks);
        ghost var live := LiveAt(blocks.coin, refs.base, blocks.chain);
        BookedSame(glyphs.db, glyphs.marks[blocks.height], live);
        BookedIsBalanced(glyphs, live);
        WindowedFresh(blocks.coin, refs.base, blocks.chain, glyphs);
      }
    }

    /** Back at height `h` of a window: a balance that moved above `h` in the window is what it was
        before the window.  So it is the sum over the live outputs if and only if it did not move
        there, or the sum is what it was before the window. */
    ghost predicate RightIff(w: Window, h: nat)
      reads blocks`chain, glyphs`balanceCache, glyphs`balanceDeletes, glyphs`db
    {
      -1 <= w.lo < |blocks.chain| && forall hx, r :: |hx| == HASHX_LEN && |r| == REF_LEN ==>
        var sum := Total(LiveAt(blocks.coin, refs.base, blocks.chain), hx, r);
        var before := Total(LiveAt(blocks.coin, refs.base, blocks.chain[..w.lo + 1]), hx, r);
        && glyphs.Balance(hx, r) == (if w.Moved(h, BalanceKey(hx, r)) then before else sum)
        && (glyphs.Balance(hx, r) == sum <==> !w.Moved(h, BalanceKey(hx, r)) || sum == before)
    }

    /** The reorganisation loop: flush, then back up block by block.  Back where a window ended, the
        ledger is that of the shorter chain.  Inside a window, the one still open or any earlier one, a
        balance is right if and only if it did not move above that height in the window, or was there
        what it was before the window. */
    method ReorgTo(to: nat, replaced: seq<Block>)
      requires Valid() && Ledgered() && to < |blocks.chain| && replaced == blocks.chain[to + 1..]
      requires forall h :: to < h < |blocks.chain| ==> h in blocks.recorded
      requires glyphs.floor - 1 <= to && |blocks.chain| - 1 - glyphs.reorgLimit <= to
      modifies this, blocks, refs, glyphs
      ensures blocks.chain == old(blocks.chain)[..to + 1] && blocks.dbHeight == blocks.height
      ensures Valid() && blocks.CachesEmpty() && glyphs.CachesEmpty()
      ensures to in old(glyphs.marks) || to == |old(blocks.chain)| - 1 ==> Ledgered()
      ensures var w := old(WindowOf(to)); -1 <= w.lo < to <= w.hi
      ensures RightIff(old(WindowOf(to)), to)
    {
      hide RightIff, Valid, Ledgered, GlyphIndexes.MarksBelow, Overlay.BackedUp, Booked, LiveAt;
      ghost var chain, marks, w := blocks.chain, glyphs.marks, WindowOf(to);
      HeightIs();
      Flush();
      HeightIs();
      assert past[to] == w;
      while blocks.height > to
        invariant Valid() && blocks.CachesEmpty() && blocks.dbHeight == blocks.height && to <= blocks.height < |chain|
        invariant blocks.chain == chain[..blocks.height + 1] && glyphs.floor - 1 <= to
        invariant forall h :: to < h <= blocks.height ==> h in blocks.recorded
        invariant forall b :: b in marks && b <= blocks.height ==> b in glyphs.marks
        invariant blocks.height == |chain| - 1 || blocks.height in glyphs.marks ==> Ledgered()
        invariant glyphs.CachesEmpty() && |past| == blocks.height + 1 && past[to] == w
        decreases blocks.height
      {
        assert replaced[blocks.height - to - 1] == chain[blocks.height] == blocks.chain[blocks.height];
        ghost var before := glyphs.marks;
        var height := blocks.height;
        BackupBlock(replaced[blocks.height - to - 1]);
        BelowKept(before, height);
      }
      WhatIsRecalled();
    }

    /** Backed up into a window, the ledger is what was committed of it. */
    lemma WhatIsRecalled()
      requires Valid() && glyphs.CachesEmpty() && blocks.dbHeight == blocks.height >= 0 && glyphs.floor - 1 <= blocks.height
      ensures |past| == blocks.height + 1 && -1 <= past[blocks.height].lo < blocks.height <= past[blocks.height].hi
      ensures RightIff(past[blocks.height], blocks.height)
    {
      hide BlockProcessors.BlockProcessor.Valid, RefTables.RefProcessor.Valid, GlyphIndexes.GlyphIndex.Valid, MarksBooked,
        GoodBase, BaseIs, LiveAt, Recalled, Window.Moved, Stored, BalanceKey;
      Heights(blocks, refs);
      ghost var h := blocks.height;
      PastLength(blocks.coin, refs.base, blocks.chain, glyphs.db, h, glyphs.floor, past);
      forall hx, r | |hx| == HASHX_LEN && |r| == REF_LEN
        ensures var n := (if past[h].Moved(h, BalanceKey(hx, r)) then past[h].lo else h) + 1;
                glyphs.Balance(hx, r) == Total(LiveAt(blocks.coin, refs.base, blocks.chain[..n]), hx, r)
      {
        EmptyBalance(glyphs, hx, r);
        RecalledAt(blocks.coin, refs.base, blocks.chain, glyphs.db, h, glyphs.floor, past, h, hx, r);
        Overlay.UnwindNone(glyphs.db, h);
      }
      assert blocks.chain[..h + 1] == blocks.chain;
    }

    lemma HeightIs()
      requires Valid()
      ensures blocks.height == |blocks.chain| - 1 >= blocks.dbHeight >= -1
    {
      hide Recalled, BlockProcessors.BlockProcessor.Rep, UtxosAt, Txids, ValidChain, BlockProcessors.UndoKept, RefTables.RefProcessor.Valid,
        GlyphIndexes.GlyphIndex.Valid, MarksBooked, GoodBase, BaseIs;
    }

    /** The debits of the spent inputs with entries `entries`. */
    method Debits(ins: seq<Transactions.TxInput>, entries: seq<Bytes>, ghost u: UtxoMap, ghost held: Live)
      returns (debits: seq<GlyphIndexes.Debit>)
      requires InputsLive(u, ins) && entries == SpentEntries(u, ins)
      requires Agree(u, refs.db + refs.refCache, held)
      ensures debits == DebitsOf(refs.db + refs.refCache, ins, entries)
    {
      hide Transactions.TxInput.IsGeneration, PackedOutpoint, ValueBytes, FromLE, HashXOf, Carries, DebitOf, Agree;
      debits := [];
      ghost var rows, now := refs.db + refs.refCache, u;
      var k := 0;
      assert ins[0..] == ins && entries[0..] == entries;
      for i := 0 to |ins|
        invariant k <= |entries| && Agree(now, rows, held) && InputsLive(now, ins[i..]) && entries[k..] == SpentEntries(now, ins[i..])
        invariant DebitsOf(rows, ins, entries) == debits + DebitsOf(rows, ins[i..], entries[k..])
      {
        assert ins[i..][0] == ins[i] && ins[i..][1..] == ins[i + 1..];
        if ins[i].IsGeneration() {
          continue;
        }
        var o := PrevOut(ins[i]);
        ghost var later := SpentEntries(now - {o}, ins[i + 1..]);
        assert entries[k..] == [now[o]] + later && entries[k] == entries[k..][0] && entries[k + 1..] == entries[k..][1..] == later;
        DebitIsHeld(now, rows, held, o);
        RowsReadable(now, rows, held, o);
        AgreeLess(now, rows, held, o);
        var spent := DebitInput(Packed(o), entries[k]);
        ghost var rest := DebitsOf(rows, ins[i + 1..], entries[k + 1..]);
        assert debits + (spent + rest) == debits + spent + rest;
        debits := debits + spent;
        now := now - {o};
        k := k + 1;
      }
      assert ins[|ins|..] == [] && debits + [] == debits;
    }

    /** The debit of one spent outpoint, if it carries refs. */
    method DebitInput(outpoint: Bytes, v: Bytes) returns (debits: seq<GlyphIndexes.Debit>)
      requires |v| == ENTRY_LEN && Readable(refs.db + refs.refCache, outpoint)
      ensures debits == if Carries(refs.db + refs.refCache, outpoint) then [DebitOf(refs.db + refs.refCache, outpoint, v)] else []
    {
      hide ValueBytes, FromLE, HashXOf;
      var spentRefs := refs.LookupRefs(outpoint);
      if spentRefs.None? || spentRefs.value == [] {
        return [];
      }
      var spentBase := refs.LookupBase(outpoint);
      var hashX := if spentBase.Some? && spentBase.value != [] then spentBase.value else HashXOf(v);
      return [GlyphIndexes.Debit(hashX, FromLE(ValueBytes(v)), spentRefs.value)];
    }

    /** The credits of the outputs with refs, and their refs with a mark for those that are pushed as
        singletons only. */
    method Credits(t: BlockTx) returns (credits: seq<GlyphIndexes.Credit>, outRefs: seq<(Bytes, bool)>, ghost made: seq<Outpoint>)
      requires forall i :: 0 <= i < |t.tx.outputs| ==> t.tx.outputs[i].value >= 0
      requires BaseIs(blocks.coin, refs.base)
      ensures CreditsTo(refs.base, t, |t.tx.outputs|, credits, made)
      ensures Listed(credits, outRefs)
    {
      hide Scripts.OutputIndexable, OutputRefs, GlyphIndexes.GoodRefs, Listed;
      credits, outRefs, made := [], [], [];
      NoneListed();
      for i := 0 to |t.tx.outputs|
        invariant CreditsTo(refs.base, t, i, credits, made) && Listed(credits, outRefs)
      {
        var out := t.tx.outputs[i];
        var indexable := Scripts.CheckOutputIndexable(out.script);
        NotIndexed(out.script);
        if !indexable {
          continue;
        }
        var all, marked := RefsOf(out.script);
        if all == [] {
          continue;
        }
        var baseScript := Scripts.BaseLockingScript(out.script);
        var c := GlyphIndexes.Credit(blocks.coin.HashX(baseScript), out.value, all, baseScript);
        ListedMore(credits, outRefs, c, marked);
        assert (credits + [c])[..|credits|] == credits && (made + [Outpoint(t.hash, i)])[..|made|] == made;
        credits, outRefs, made := credits + [c], outRefs + marked, made + [Outpoint(t.hash, i)];
      }
    }

    /** The refs that a plain scan finds in the outputs, for a transaction without indexed refs. */
    method ScannedRefs(t: BlockTx) returns (outRefs: seq<(Bytes, bool)>)
      ensures forall j :: 0 <= j < |outRefs| ==> |outRefs[j].0| == REF_LEN
    {
      outRefs := [];
      for i := 0 to |t.tx.outputs|
        invariant forall j :: 0 <= j < |outRefs| ==> |outRefs[j].0| == REF_LEN
      {
        var script := t.tx.outputs[i].script;
        if |script| < 38 {
          continue;
        }
        var found := Scripts.ExtractRefsFromScript(script);
        outRefs := outRefs + seq(|found|, k requires 0 <= k < |found| => (found[k].ref, found[k].singleton));
      }
    }

    /** The refs of an output, each once, and the same with their marks. */
    method RefsOf(script: Bytes) returns (all: seq<Bytes>, marked: seq<(Bytes, bool)>)
      requires Scripts.OutputIndexable(script)
      ensures (all == [] <==> OutputRefs(script) == []) && GlyphIndexes.GoodRefs(all)
      ensures (set r | r in all) == set p | p in OutputRefs(script) :: p.ref
      ensures |marked| == |all| && forall j :: 0 <= j < |all| ==> marked[j].0 == all[j]
    {
      hide Scripts.OutputIndexable, Scripts.PushedRefs, Dedup, Scripts.AllRefs, Scripts.RefsOfKind, Scripts.Walk,
        GlyphIndexes.GoodRefs, OutputRefs;
      ScriptKinds(script);
      var pushed := Scripts.GetPushInputRefs(script);
      var normal, single := Dedup(pushed.value.1), Dedup(pushed.value.2);
      all := Dedup(pushed.value.0);
      DedupNone(pushed.value.0);
      ScriptRefs(script);
      marked := [];
      for j := 0 to |all|
        invariant |marked| == j && forall k :: 0 <= k < j ==> marked[k].0 == all[k]
      {
        marked := marked + [(all[j], all[j] in single && all[j] !in normal)];
      }
    }
  }

  /** Where a window ended the ledger in the database was that of the chain up to there. */
  ghost predicate MarksBooked(coin: Coin, base: Bytes -> Bytes, chain: seq<Block>, marks: Overlay.Marks) {
    forall b :: b in marks ==> -1 <= b < |chain| && Booked(marks[b], LiveAt(coin, base, chain[..b + 1]))
  }

  lemma NothingLive(coin: Coin, base: Bytes -> Bytes)
    ensures LiveAt(coin, base, []) == map[]
    ensures Booked(map[], map[])
  {
  }

  /** With empty caches the ledger is the one in the database. */
  lemma BookedIsBalanced(g: GlyphIndexes.GlyphIndex, live: Live)
    requires g.CachesEmpty()
    ensures Booked(g.db, live) <==> g.Ledger(live) && forall r {:trigger Carried(live, r)} :: Carried(live, r) ==> g.Known(r)
  {
    hide Carried, BalanceKey, Stored, Discovery.TokenKey;
    forall hx, r
      ensures g.Balance(hx, r) == Stored(g.db, BalanceKey(hx, r))
    {
    }
  }

  /** Since the last flush, at height `lo`: the database has the ledger of that height, and a balance
      that has not been recorded above a later height is what it was there. */
  ghost predicate Windowed(coin: Coin, base: Bytes -> Bytes, chain: seq<Block>, lo: int, books: Books, db: Overlay.Table) {
    && -1 <= lo < |chain| && Booked(db, LiveAt(coin, base, chain[..lo + 1]))
    && forall j, hx, r {:trigger Overlay.RecordedAbove(books.undo, j, BalanceKey(hx, r))} ::
         lo <= j < |chain| && |hx| == HASHX_LEN && |r| == REF_LEN && !Overlay.RecordedAbove(books.undo, j, BalanceKey(hx, r)) ==>
           books.At(db, BalanceKey(hx, r)) == Total(LiveAt(coin, base, chain[..j + 1]), hx, r)
  }

  lemma WindowedMore(
      coin: Coin, base: Bytes -> Bytes, chain: seq<Block>, block: Block, lo: int, books: Books, g: GlyphIndexes.GlyphIndex)
    requires Windowed(coin, base, chain, lo, books, g.db) && Steady(books, g.Now(), g.db, |chain|)
    requires g.Ledger(LiveAt(coin, base, chain + [block]))
    ensures Windowed(coin, base, chain + [block], lo, g.Now(), g.db)
  {
    hide LiveAt, Booked, BalanceKey, Overlay.RecordedAbove, Books.At, View, Steady;
    var chain' := chain + [block];
    assert chain'[..|chain'|] == chain' && chain'[..lo + 1] == chain[..lo + 1];
    forall j, hx, r | lo <= j < |chain'| && |hx| == HASHX_LEN && |r| == REF_LEN
                      && !Overlay.RecordedAbove(g.undoCache, j, BalanceKey(hx, r))
      ensures g.Now().At(g.db, BalanceKey(hx, r)) == Total(LiveAt(coin, base, chain'[..j + 1]), hx, r)
    {
      BalanceNow(g, hx, r);
      if j < |chain| {
        assert chain'[..j + 1] == chain[..j + 1];
        BalanceKeyFacts(hx, r);
        NotMoved(books, g.Now(), g.db, |chain|, j, BalanceKey(hx, r));
      }
    }
  }

  lemma BalanceNow(g: GlyphIndexes.GlyphIndex, hx: Bytes, r: Bytes)
    ensures g.Balance(hx, r) == g.Now().At(g.db, BalanceKey(hx, r))
  {
  }

  lemma NotMoved(a: Books, b: Books, db: Overlay.Table, height: nat, j: int, k: Bytes)
    requires Steady(a, b, db, height) && IsBalanceKey(k) && j < height && !Overlay.RecordedAbove(b.undo, j, k)
    ensures b.At(db, k) == a.At(db, k) && !Overlay.RecordedAbove(a.undo, j, k)
  {
    hide Discovery.At, Overlay.RecordedAbove, IsBalanceKey, Books.At;
    AboveIs(a.undo, j, k);
    AboveIs(b.undo, j, k);
  }

  lemma AboveIs(undo: Overlay.Undo, j: int, k: Bytes)
    ensures Overlay.RecordedAbove(undo, j, k) <==> exists h: nat :: h > j && Discovery.At(undo, h, k)
  {
    hide Overlay.HasKey;
    if Overlay.RecordedAbove(undo, j, k) {
      var h :| h in undo && h > j && Overlay.HasKey(undo[h], k);
      assert Discovery.At(undo, h, k);
    }
    if h: nat :| h > j && Discovery.At(undo, h, k) {
      assert h in undo && h > j && Overlay.HasKey(undo[h], k);
    }
  }

  lemma WindowedFresh(coin: Coin, base: Bytes -> Bytes, chain: seq<Block>, g: GlyphIndexes.GlyphIndex)
    requires chain != [] && g.CachesEmpty() && Booked(g.db, LiveAt(coin, base, chain))
    ensures Windowed(coin, base, chain, |chain| - 1, g.Now(), g.db)
  {
    hide LiveAt, BalanceKey, Overlay.RecordedAbove, Stored, Carried;
    assert chain[..|chain|] == chain;
  }

  lemma EmptyBalance(g: GlyphIndexes.GlyphIndex, hx: Bytes, r: Bytes)
    requires g.CachesEmpty()
    ensures g.Balance(hx, r) == Stored(g.db, BalanceKey(hx, r))
  {
    hide Stored, BalanceKey;
  }

  // ----- Windows that are committed -----

  /** The blocks after `lo` up to `hi`, committed at once, and what was cached of them. */
  datatype Window = Window(lo: int, hi: int, books: Books) {
    /** The balance row was written, or waited to be deleted, above height `j` of the window. */
    predicate Moved(j: int, k: Bytes) {
      MovedAbove(books.undo, books.deletes, j, hi, k)
    }

    /** The height of which backing up to `j` gives the balance. */
    function Gives(j: int, k: Bytes): int {
      if Moved(j, k) then lo else j
    }
  }

  /** Backing up to any height whose undo rows are kept gives each balance as it was there, or before
      the window if it moved above. */
  ghost predicate Recalled(
      coin: Coin, base: Bytes -> Bytes, chain: seq<Block>, db: Overlay.Table, height: int, floor: int, past: seq<Window>)
  {
    && |past| == height + 1 <= |chain|
    && (forall j :: 0 <= j < |past| ==> -1 <= past[j].lo < j <= past[j].hi)
    && forall j, hx, r {:trigger past[j].Gives(j, BalanceKey(hx, r))} ::
         0 <= j < |past| && floor - 1 <= j && |hx| == HASHX_LEN && |r| == REF_LEN ==>
           Stored(Overlay.Unwind(db, height, j), BalanceKey(hx, r))
           == Total(LiveAt(coin, base, chain[..past[j].Gives(j, BalanceKey(hx, r)) + 1]), hx, r)
  }

  lemma PastLength(
      coin: Coin, base: Bytes -> Bytes, chain: seq<Block>, db: Overlay.Table, height: int, floor: int, past: seq<Window>)
    requires Recalled(coin, base, chain, db, height, floor, past)
    ensures |past| == height + 1 <= |chain| && forall j :: 0 <= j < |past| ==> -1 <= past[j].lo < j <= past[j].hi
  {
  }

  lemma RecalledAt(
      coin: Coin, base: Bytes -> Bytes, chain: seq<Block>, db: Overlay.Table, height: int, floor: int, past: seq<Window>, j: nat,
      hx: Bytes, r: Bytes)
    requires Recalled(coin, base, chain, db, height, floor, past)
    requires j <= height && floor - 1 <= j && |hx| == HASHX_LEN && |r| == REF_LEN
    ensures var k := BalanceKey(hx, r);
            Stored(Overlay.Unwind(db, height, j), k)
            == Total(LiveAt(coin, base, chain[..(if past[j].Moved(j, k) then past[j].lo else j) + 1]), hx, r)
  {
    hide LiveAt, BalanceKey, Stored, Overlay.Unwind, Window.Moved;
    assert past[j].Gives(j, BalanceKey(hx, r)) == if past[j].Moved(j, BalanceKey(hx, r)) then past[j].lo else j;
  }

  lemma RecalledMore(
      coin: Coin, base: Bytes -> Bytes, chain: seq<Block>, block: Block, db: Overlay.Table, height: int, floor: int,
      past: seq<Window>)
    requires Recalled(coin, base, chain, db, height, floor, past)
    ensures Recalled(coin, base, chain + [block], db, height, floor, past)
  {
    hide LiveAt, BalanceKey, Stored, Overlay.Unwind, Window.Moved;
    forall n: int | 0 <= n <= |chain|
      ensures (chain + [block])[..n] == chain[..n]
    {
    }
  }

  lemma RecalledBack(
      coin: Coin, base: Bytes -> Bytes, chain: seq<Block>, db: Overlay.Table, floor: int, past: seq<Window>)
    requires |chain| > 1 && Recalled(coin, base, chain, db, |chain| - 1, floor, past)
    ensures Recalled(coin, base, chain[..|chain| - 1], Overlay.BackedUp(db, |chain| - 1), |chain| - 2, floor, past[..|past| - 1])
  {
    hide LiveAt, BalanceKey, Stored, Overlay.BackedUp, Window.Moved;
    var before, db', fewer := chain[..|chain| - 1], Overlay.BackedUp(db, |chain| - 1), past[..|past| - 1];
    forall j, hx, r | 0 <= j < |fewer| && floor - 1 <= j && |hx| == HASHX_LEN && |r| == REF_LEN
      ensures Stored(Overlay.Unwind(db', |chain| - 2, j), BalanceKey(hx, r))
              == Total(LiveAt(coin, base, before[..fewer[j].Gives(j, BalanceKey(hx, r)) + 1]), hx, r)
    {
      RecalledAt(coin, base, chain, db, |chain| - 1, floor, past, j, hx, r);
      var n := fewer[j].Gives(j, BalanceKey(hx, r)) + 1;
      assert before[..n] == chain[..n];
    }
  }

  /** The heights of a window that has just been committed. */
  lemma InsideWindow(
      coin: Coin, base: Bytes -> Bytes, chain: seq<Block>, lo: int, books: Books, db0: Overlay.Table, db1: Overlay.Table, j: int,
      hx: Bytes, r: Bytes)
    requires Windowed(coin, base, chain, lo, books, db0) && lo <= j < |chain| && |hx| == HASHX_LEN && |r| == REF_LEN
    requires WindowBalances(db0, db1, books, lo, |chain| - 1)
    ensures var w := Window(lo, |chain| - 1, books);
            Stored(Overlay.Unwind(db1, |chain| - 1, j), BalanceKey(hx, r))
            == Total(LiveAt(coin, base, chain[..w.Gives(j, BalanceKey(hx, r)) + 1]), hx, r)
  {
    hide LiveAt, BalanceKey, Overlay.RecordedAbove, Stored, Carried, Books.At, Overlay.Unwind;
    BalanceKeyFacts(hx, r);
    assert MovedAbove(books.undo, books.deletes, j, |chain| - 1, BalanceKey(hx, r))
           || !Overlay.RecordedAbove(books.undo, j, BalanceKey(hx, r));
  }

  /** A flush keeps what is recalled of earlier windows, and adds its own. */
  lemma RecalledFlush(
      coin: Coin, base: Bytes -> Bytes, chain: seq<Block>, db0: Overlay.Table, lo: int, db1: Overlay.Table, floor: int, floor': int,
      past: seq<Window>, books: Books)
    requires Recalled(coin, base, chain, db0, lo, floor, past) && Windowed(coin, base, chain, lo, books, db0)
    requires WindowBalances(db0, db1, books, lo, |chain| - 1) && lo < |chain| - 1
    requires Overlay.UnwindsAlike(db0, lo, db1, |chain| - 1, floor') && floor <= floor'
    ensures Recalled(coin, base, chain, db1, |chain| - 1, floor', past + seq(|chain| - 1 - lo, _ => Window(lo, |chain| - 1, books)))
  {
    hide LiveAt, BalanceKey, Stored, Overlay.Unwind, Window.Moved, Windowed, WindowBalances, Recalled, Overlay.SameTracked;
    PastLength(coin, base, chain, db0, lo, floor, past);
    var hi := |chain| - 1;
    var w, all := Window(lo, hi, books), past + seq(hi - lo, _ => Window(lo, hi, books));
    forall j, hx, r | 0 <= j < |all| && floor' - 1 <= j && |hx| == HASHX_LEN && |r| == REF_LEN
      ensures Stored(Overlay.Unwind(db1, hi, j), BalanceKey(hx, r))
              == Total(LiveAt(coin, base, chain[..all[j].Gives(j, BalanceKey(hx, r)) + 1]), hx, r)
    {
      if j <= lo {
        RecalledGives(coin, base, chain, db0, lo, floor, past, j, hx, r);
        StoredSame(Overlay.Unwind(db1, hi, j), Overlay.Unwind(db0, lo, j), hx, r);
      } else {
        InsideWindow(coin, base, chain, lo, books, db0, db1, j, hx, r);
      }
    }
    RecalledIf(coin, base, chain, db1, hi, floor', all);
  }

  lemma RecalledGives(
      coin: Coin, base: Bytes -> Bytes, chain: seq<Block>, db: Overlay.Table, height: int, floor: int, past: seq<Window>, j: nat,
      hx: Bytes, r: Bytes)
    requires Recalled(coin, base, chain, db, height, floor, past)
    requires j <= height && floor - 1 <= j && |hx| == HASHX_LEN && |r| == REF_LEN
    ensures -1 <= past[j].Gives(j, BalanceKey(hx, r)) <= j
    ensures Stored(Overlay.Unwind(db, height, j), BalanceKey(hx, r))
            == Total(LiveAt(coin, base, chain[..past[j].Gives(j, BalanceKey(hx, r)) + 1]), hx, r)
  {
    hide LiveAt, BalanceKey, Stored, Overlay.Unwind, Window.Moved;
  }

  lemma RecalledIf(
      coin: Coin, base: Bytes -> Bytes, chain: seq<Block>, db: Overlay.Table, height: int, floor: int, past: seq<Window>)
    requires |past| == height + 1 <= |chain| && forall j :: 0 <= j < |past| ==> -1 <= past[j].lo < j <= past[j].hi
    requires forall j, hx, r {:trigger past[j].Gives(j, BalanceKey(hx, r))} ::
               0 <= j < |past| && floor - 1 <= j && |hx| == HASHX_LEN && |r| == REF_LEN ==>
                 Stored(Overlay.Unwind(db, height, j), BalanceKey(hx, r))
                 == Total(LiveAt(coin, base, chain[..past[j].Gives(j, BalanceKey(hx, r)) + 1]), hx, r)
    ensures Recalled(coin, base, chain, db, height, floor, past)
  {
    hide LiveAt, BalanceKey, Stored, Overlay.Unwind, Window.Moved;
  }

  lemma StoredSame(a: Overlay.Table, b: Overlay.Table, hx: Bytes, r: Bytes)
    requires Overlay.SameTracked(a, b) && |hx| == HASHX_LEN && |r| == REF_LEN
    ensures Stored(a, BalanceKey(hx, r)) == Stored(b, BalanceKey(hx, r))
  {
    hide BalanceKey, Overlay.Tracked;
    GlyphIndexes.BalancesBack(a, b);
  }

  lemma MarksKept(coin: Coin, base: Bytes -> Bytes, chain: seq<Block>, block: Block, marks: Overlay.Marks)
    requires MarksBooked(coin, base, chain, marks)
    ensures MarksBooked(coin, base, chain + [block], marks)
  {
    hide LiveAt, Booked;
    forall b | b in marks
      ensures (chain + [block])[..b + 1] == chain[..b + 1]
    {
    }
  }

  lemma MarkAdded(coin: Coin, base: Bytes -> Bytes, chain: seq<Block>, marks: Overlay.Marks, db: Overlay.Table)
    requires MarksBooked(coin, base, chain, marks) && chain != [] && Booked(db, LiveAt(coin, base, chain))
    ensures MarksBooked(coin, base, chain, marks[|chain| - 1 := db])
  {
    hide LiveAt, Booked;
    assert chain[..|chain|] == chain;
  }

  lemma MarksFewer(coin: Coin, base: Bytes -> Bytes, chain: seq<Block>, marks: Overlay.Marks)
    requires MarksBooked(coin, base, chain, marks) && chain != []
    ensures MarksBooked(coin, base, chain[..|chain| - 1], GlyphIndexes.MarksBelow(marks, |chain| - 1))
  {
    hide LiveAt, Booked;
    forall b | b in GlyphIndexes.MarksBelow(marks, |chain| - 1)
      ensures -1 <= b < |chain| - 1 && Booked(marks[b], LiveAt(coin, base, chain[..|chain| - 1][..b + 1]))
    {
      assert b in marks;
      assert chain[..|chain| - 1][..b + 1] == chain[..b + 1];
    }
  }

  lemma MarkIs(coin: Coin, base: Bytes -> Bytes, chain: seq<Block>, marks: Overlay.Marks)
    requires MarksBooked(coin, base, chain, marks) && |chain| - 1 in marks
    ensures Booked(marks[|chain| - 1], LiveAt(coin, base, chain))
  {
    hide LiveAt, Booked;
    assert chain[..|chain|] == chain;
  }

  lemma BelowKept(marks: Overlay.Marks, h: int)
    ensures forall b :: b in marks && b < h ==> b in GlyphIndexes.MarksBelow(marks, h)
  {
  }

  lemma Heights(b: BlockProcessors.BlockProcessor, r: RefTables.RefProcessor)
    requires b.Valid() && r.Valid() && b.chain == r.chain
    ensures b.height == |b.chain| - 1 == r.height && -1 <= b.dbHeight <= b.height && -1 <= r.dbHeight <= r.height
    ensures b.dbHeight == b.height ==> b.CachesEmpty()
    ensures r.dbHeight == r.height ==> r.CachesEmpty()
  {
    hide BlockProcessors.BlockProcessor.Rep, UtxosAt, Txids, ValidChain, BlockProcessors.UndoKept, RefTables.Sound,
      RefTables.UndoKept, Range;
  }

  /** The undo rows of the tip are there, in both tables or in none. */
  lemma UndoRows(b: BlockProcessors.BlockProcessor, r: RefTables.RefProcessor)
    requires b.Valid() && r.Valid() && b.chain == r.chain && b.recorded == r.recorded
    requires b.dbHeight == b.height == r.dbHeight == r.height >= 0 && b.height in b.recorded
    ensures b.height in b.undoDb && r.height in r.undoDb
  {
    hide BlockProcessors.BlockProcessor.Rep, UtxosAt, Txids, ValidChain, RefTables.Sound, Range, RefTables.IsUndo,
      BlockProcessors.UndoRow;
  }

  /** What the parts know before a block. */
  lemma BeforeBlock(b: BlockProcessors.BlockProcessor, r: RefTables.RefProcessor)
    requires b.Valid() && r.Valid() && b.chain == r.chain
    ensures ValidChain(b.coin, b.chain) && ValidRefsChain(r.base, b.chain) && b.utxos == UtxosAt(b.coin, b.chain)
    ensures b.height == |b.chain| - 1 && -1 <= b.dbHeight <= b.height && b.txCount == |Txids(b.chain)|
    ensures r.Paused(r.refCache, r.refLocCache) && r.db + r.refCache == RowsAt(r.base, b.chain)
    ensures MintRows(r.db + r.refCache, MintedAt(b.chain)) && r.locs.Keys <= MintedAt(b.chain).singles
    ensures RefTables.GoodLocs(r.locs)
  {
    hide BlockProcessors.BlockProcessor.Rep, UtxosAt, Txids, ValidChain, BlockProcessors.UndoKept, RowsAt, MintRows, MintedAt,
      RefTables.Sound, RefTables.UndoKept, ValidRefsChain, RefTables.GoodLocs, Range;
    RefTables.ReadyToAdvance(r.base, r.db, r.refCache, r.locs, r.refLocCache, r.chain, r.bases, r.dbHeight, r.marks);
  }

  lemma LedgerStep(coin: Coin, base: Bytes -> Bytes, u: UtxoMap, held: Live, block: Block, num: nat, i: nat)
    requires i < |block| && SupplyOk(coin, u, block[i..], num + i)
    ensures var u' := AdvanceTx(coin, u, block[i], num + i);
            && Supply(u) < Range(8) && Supply(u') < Range(8) && SupplyOk(coin, u', block[i + 1..], num + i + 1)
    ensures HeldBlock(base, held, block[i..]) == HeldBlock(base, HeldTx(base, held, block[i]), block[i + 1..])
  {
    hide Supply, AdvanceTx, HeldTx, Range;
    assert block[i..][0] == block[i] && block[i..][1..] == block[i + 1..];
  }

  lemma NoUndoYet(r: RefTables.RefProcessor)
    ensures r.UndoSoFar(map[], {}, {})
  {
    RefTables.KeptNone(r.locs);
  }

  lemma AllUndo(r: RefTables.RefProcessor, undo: Locs, block: Block, mints: set<Bytes>)
    requires r.UndoSoFar(undo, MovedIn(block), mints)
    ensures undo == LocsUndo(r.locs, block)
  {
  }

  lemma HeldNone(base: Bytes -> Bytes, held: Live, block: Block)
    ensures HeldBlock(base, held, block[|block|..]) == held
  {
    hide HeldTx;
  }

  lemma LiveBlock(coin: Coin, base: Bytes -> Bytes, chain: seq<Block>, block: Block)
    ensures LiveOf(AdvanceTxs(coin, UtxosAt(coin, chain), block, |Txids(chain)|), HeldBlock(base, HeldAt(base, chain), block))
            == LiveAt(coin, base, chain + [block])
  {
    hide LiveOf, HeldBlock, AdvanceTxs, Txids;
    assert (chain + [block])[..|chain|] == chain;
  }

  /** `base` gives the hashX of the base locking script. */
  ghost predicate BaseIs(coin: Coin, base: Bytes -> Bytes) {
    forall s, r :: Scripts.IsBaseScript(s, r) ==> base(s) == coin.HashX(r)
  }

  ghost function BaseHashX(coin: Coin, s: Bytes): Bytes {
    if r :| Scripts.IsBaseScript(s, r) then coin.HashX(r) else coin.HashX(s)
  }

  /** Every coin has it. */
  lemma BaseFor(coin: Coin)
    ensures exists base :: GoodBase(base) && BaseIs(coin, base)
  {
    hide Scripts.IsBaseScript, Coin.HashX;
    ghost var base := (s: Bytes) => BaseHashX(coin, s);
    forall s, r | Scripts.IsBaseScript(s, r)
      ensures base(s) == coin.HashX(r)
    {
      ghost var t :| Scripts.IsBaseScript(s, t) && base(s) == coin.HashX(t);
      Scripts.BaseIsOne(s, r, t);
    }
    assert GoodBase(base) && BaseIs(coin, base);
  }

  lemma NumFits(b: BlockProcessors.BlockProcessor, block: Block, i: nat)
    requires b.Open(block) && i < |block|
    ensures b.txCount + i < Range(5)
  {
    hide Range, ValidTxs, BlockProcessors.BlockProcessor.Rep, UtxosAt, Txids, ValidChain, BlockProcessors.UndoKept;
  }

  lemma ValidValues(u: UtxoMap, t: BlockTx)
    requires ValidTx(u, t)
    ensures |t.hash| == 32 && forall i :: 0 <= i < |t.tx.outputs| ==> t.tx.outputs[i].value >= 0
  {
  }

  /** An `ri` row is not empty, and has an `rb` row beside it. */
  predicate Readable(rows: Rows, k: Bytes) {
    Ri(k) in rows ==> rows[Ri(k)] != [] && Rb(k) in rows && rows[Rb(k)] != []
  }

  lemma RowsReadable(u: UtxoMap, rows: Rows, held: Live, o: Outpoint)
    requires Agree(u, rows, held) && o in u
    ensures Readable(rows, Packed(o))
  {
    hide Range, GlyphIndexes.RefsIn, GlyphIndexes.GoodRefs, ValueBytes, FromLE, PackedOutpoint, HeldRow;
    assert RowsAgree(rows, held, o, u[o]);
  }

  /** The refs of the credits are listed. */
  ghost predicate Listed(credits: seq<GlyphIndexes.Credit>, outRefs: seq<(Bytes, bool)>) {
    && (forall i, r :: 0 <= i < |credits| && r in credits[i].refs ==> exists j :: 0 <= j < |outRefs| && outRefs[j].0 == r)
    && (forall j :: 0 <= j < |outRefs| ==> |outRefs[j].0| == REF_LEN)
  }

  lemma ListedAny(credits: seq<GlyphIndexes.Credit>, outRefs: seq<(Bytes, bool)>)
    requires Listed(credits, []) && forall j :: 0 <= j < |outRefs| ==> |outRefs[j].0| == REF_LEN
    ensures Listed(credits, outRefs)
  {
    forall i, r | 0 <= i < |credits|
      ensures r !in credits[i].refs
    {
    }
  }

  lemma NothingMoves(live: Live, spent: seq<Outpoint>, made: seq<Outpoint>)
    ensures spent == [] && made == [] ==> GlyphIndexes.Credited(GlyphIndexes.Spent(live, spent), [], made) == live
  {
  }

  lemma NoneListed()
    ensures Listed([], [])
  {
  }

  lemma ListedMore(credits: seq<GlyphIndexes.Credit>, outRefs: seq<(Bytes, bool)>, c: GlyphIndexes.Credit, marked: seq<(Bytes, bool)>)
    requires Listed(credits, outRefs) && GlyphIndexes.GoodRefs(c.refs)
    requires |marked| == |c.refs| && forall j :: 0 <= j < |marked| ==> marked[j].0 == c.refs[j]
    ensures Listed(credits + [c], outRefs + marked)
  {
    var all := outRefs + marked;
    assert forall j :: 0 <= j < |outRefs| ==> all[j] == outRefs[j];
    assert forall j :: 0 <= j < |marked| ==> all[|outRefs| + j] == marked[j];
    forall i, r | 0 <= i < |credits + [c]| && r in (credits + [c])[i].refs
      ensures exists j :: 0 <= j < |all| && all[j].0 == r
    {
      if i < |credits| {
        var j :| 0 <= j < |outRefs| && outRefs[j].0 == r;
        assert all[j].0 == r;
      } else {
        var j :| 0 <= j < |c.refs| && c.refs[j] == r;
        assert all[|outRefs| + j].0 == r;
      }
    }
  }

  lemma NotIndexed(script: Bytes)
    ensures !Scripts.OutputIndexable(script) ==> OutputRefs(script) == []
  {
    hide Scripts.OutputIndexable, Scripts.PushedRefs;
  }

  lemma ScriptRefs(script: Bytes)
    ensures var all := Dedup(Scripts.AllRefs(OutputRefs(script)));
            && GlyphIndexes.GoodRefs(all) && (set r | r in all) == set p | p in OutputRefs(script) :: p.ref
  {
    hide OutputRefs, GlyphIndexes.RefsIn, RiValue, GlyphIndexes.GoodRefs;
    LedgerRows.RiRowReads(script);
    forall x
      ensures x in Scripts.AllRefs(OutputRefs(script)) <==> exists p :: p in OutputRefs(script) && p.ref == x
    {
      AllRefsAre(OutputRefs(script), x);
    }
  }
}
