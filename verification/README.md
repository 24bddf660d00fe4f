# RXinDexer, modelled and proved in Dafny

RXinDexer indexes a blockchain into an ordered key-value store.  It keeps a write-back cache of
unspent outputs over the database, appends transaction numbers to address histories, follows
Radiant refs and Glyph tokens, flushes in batches of any number of blocks, and must survive
crashes and unwind blocks on a reorganisation.  This project models that state machine and the
algorithms around it, and proves what they keep.

| file | part of the source | main result |
|---|---|---|
| `Transactions.dfy` | electrumx/lib/tx.py | parsing inverts printing; truncated input is rejected |
| `Scripts.dfy` | electrumx/lib/script.py, the ref extractor of glyph_index.py | all opcode walkers agree |
| `Utxos.dfy` | block_processor.py, in the abstract | backing a block up undoes advancing it |
| `UtxoTables.dfy`, `BlockProcessor.dfy` | block_processor.py, db.py | cache, pending deletes and tables stand for one outpoint map in every reachable state |
| `HistoryRows.dfy`, `CompactRows.dfy`, `History.dfy` | history.py | each history is one increasing list through flushes, backups and compactions |
| `Indexer.dfy` | block_processor.py with history.py | every address history is a function of the chain |
| `Crash.dfy`, `CrashSteps.dfy` | db.py, history.py | a crash anywhere in a forward flush leads to one consistent height, after reorganisations too |
| `RefRows.dfy`, `RefTables.dfy` | block_processor.py | the ref tables through advances, flushes and reorganisations |
| `UndoCodec.dfy`, `Overlay.dfy` | util.py, glyph_index.py | the height-keyed undo log |
| `Discovery.dfy`, `Balances.dfy`, `GlyphBatches.dfy`, `GlyphIndex.dfy` | glyph_index.py | derived rows, mirrored balances, updates across cache, pending deletes and database |
| `LedgerRows.dfy`, `GlyphLedger.dfy`, `TokenIndexer.dfy` | block_processor.py with glyph_index.py | before and after every transaction and flush, and back at every window boundary, each token balance is the sum over the chain's live outputs; inside a window, exactly when |
| `Records.dfy`, `TokenRuns.dfy` | glyph_index.py, block_processor.py | a serialisation that meets what is asked of it, and whole runs from an empty database: a token minted and read, a balance missed by a reorganisation |
| `Migration.dfy` | glyph_index.py | the paged backfill of the discovery rows, and what older undo rows do to them |
| `Storage.dfy`, `Pagination.dfy` | storage.py, glyph_index.py | ordered scans on both engines, cursor pagination |
| `Merkle.dfy`, `MerkleCache.dfy` | electrumx/lib/merkle.py | proofs, and a cache that answers like the plain tree |
| `LogicalFile.dfy`, `ChainFiles.dfy` | util.py, db.py | a split file is one byte array; transaction numbers are found in it |
| `MempoolIndex.dfy`, `Mempool.dfy` | mempool.py | the accepted set is the least fixpoint, whatever the chunks and the order; the indexes are what the transactions determine |

`ByteStrings.dfy` holds fixed-width integers and the byte order of keys.  `dafny verify
dfyconfig.toml` checks everything.

## How it is modelled

- A class of the source is a class here: `BlockProcessors.BlockProcessor`, `Histories.History`,
  `RefTables.RefProcessor`, `GlyphIndexes.GlyphIndex`, `MerkleCaches.MerkleCache`,
  `Mempool.MemPool`, `LogicalFiles.LogicalFile`, `ChainFiles.ChainDb`, `Storage.RocksDBIterator`,
  `Transactions.Deserializer`.  `Indexers.Indexer` joins the block processor to the histories, and
  `TokenIndexers.TokenIndexer` to the ref tables and the Glyph index.  Ghost fields say what the
  concrete ones stand for, and `Valid` ties them; since every method keeps it, it holds after any run.
- The database is a map with atomic batches.  Keys of the UTXO and ref tables are data types, one
  constructor per key prefix; Glyph keys are the packed bytes.
- Hash functions are parameters of which only the digest length is known.  CBOR is taken to round
  trip, and to keep the records made of new refs below four gigabytes; `Records.PlainIsUsable` shows a
  serialisation that does.  `TokenRuns.LateReorgOnce` is a run on given inputs, without any premise,
  through all that the Glyph classes require.  The daemon, the clock and the file system are parameters.
- The chain is consensus-valid: txids are new, every spent output is live, transaction numbers fit
  five bytes, a ref is minted by spending its outpoint and never pushed both as a singleton and as
  a normal ref, and the money in circulation fits eight bytes.  These are the preconditions
  `ValidTxs`, `ValidRefs` and `SupplyOk`.

## What is not true of the code

Each of these has an exact condition, a run of the classes that shows it, or both.

- A compaction that was started and cancelled leaves rows above the flush count, and a later flush
  writes over one: `Histories.CancelledCompactionLosesHistory` runs into it.  Cancelling is harmless if
  and only if no row is above the flush count (`Histories.History.CancelCompaction`).  The header of
  `electrumx_compact_history` says that restarting the server without finishing is harmless; it is so
  only under that condition.
- Rows of a finished compaction survive a restart before the flush count of the UTXO database was
  updated if and only if none is above that count (`Histories.ClearKeepsIff`).
- `flush_backup` truncates the histories before it commits the UTXO database.  After a crash between
  the two the databases agree if and only if the block had touched no history (`Crash.TornBackupIff`).
- `fs_tx_hash` caches that a transaction number has no txid yet.  Asked for between the file write and
  the commit, a number keeps that answer when it is on disk (`ChainFiles.ChainDb.FsTxHash`,
  `ChainFiles.AskedTooEarly`).
- `zero_refs` shortens a script if and only if it has a checksig and an explicit push length
  (`Scripts.ZeroRefs`).
- Backing up into a flush window of several blocks, however long ago it was flushed, does not restore
  every balance: one is right if and only if it did not move above that height in the window, or was
  there what it was before the window (`TokenIndexers.TokenIndexer.ReorgTo`; runs in
  `TokenRuns.LateReorg`, `GlyphIndexes.MovedTwice` and `GlyphIndexes.ZeroedOnce`).  The same holds of any undo row of the Glyph index
  (`Overlay.InsideWindowIff`) and of `rl` rows (`RefRows.WindowLocsIff`, a run in `RefTables.MovedInBoth`).
- `get_balance` is out of date if and only if the balance is a stored one that waits to be deleted
  (`GlyphIndexes.GlyphIndex.GetBalance`, a run in `GlyphIndexes.SpentUnseen`).
- Backing up heights from before the discovery migration keeps the discovery rows derived if and only
  if every token record put back accounts for the rows that the present one accounts for
  (`Migration.OldUndoRowsIff`, a case in `Migration.OldUndoRowOrphans`).  The comment at the migration
  calls what is left inert; these are rows nevertheless.
- A prefix that ends with 0xff is bounded by a string that shorter keys can sort below.  Such a
  stray key is yielded by LevelDB, and hides every row from a descending RocksDB scan
  (`Storage.LevelDbIterator`, `Storage.StrayHidesRows`).  The state key of the history database is one
  for the rows of one hashX and no other (`Storage.StateKeyIsStray`).
- The undo codec misreads a value of exactly 0xFFFFFFFF bytes (`UndoCodec.RoundTripIff`).

## Model

| member | source | states |
|---|---|---|
| Transactions.TxRoundTrip | electrumx/lib/tx.py:105-112 | reading a printed in-range transaction at any offset gives it back and ends right after it |
| Transactions.BlockRoundTrip | electrumx/lib/tx.py:214-218 | the same for a counted list of transactions |
| Transactions.VarintRoundTrip | electrumx/lib/tx.py:256-265 | the four widths of a variable-length integer read back |
| Transactions.TruncatedTxRejected | electrumx/lib/tx.py:267-275 | no proper prefix of a printed transaction is read as one |
| Transactions.TruncatedBlockRejected | electrumx/lib/tx.py:214-218 | no proper prefix of a printed block is read as one |
| Transactions.SerializeInjective | electrumx/lib/tx.py:45-56 | different in-range transactions print differently |
| Transactions.Deserializer.ReadLeUint | electrumx/lib/tx.py:267-311 | the cursor moves past the integer; the read is refused exactly if it would pass the end, and the cursor then stays |
| Transactions.Deserializer.ReadCount | electrumx/lib/tx.py:256-265 | reads a variable-length integer exactly as the grammar says |
| Transactions.Deserializer.Varbytes | electrumx/lib/tx.py:247-255 | reads a length and that many bytes, or refuses |
| Transactions.Deserializer.Inputs | electrumx/lib/tx.py:220-230 | reads the counted list of inputs as the grammar says |
| Transactions.Deserializer.Outputs | electrumx/lib/tx.py:232-240 | reads the counted list of outputs as the grammar says |
| Transactions.Deserializer.Transaction | electrumx/lib/tx.py:105-112 | agrees with the grammar for which the round trip is proved, errors included |
| Transactions.Deserializer.BlockTransactions | electrumx/lib/tx.py:214-218 | the same for a block |
| Scripts.WalkTiles | electrumx/lib/script.py:436-468 | the spans of a walk start at 0, follow each other and end at the end of the script |
| Scripts.TilingIsWalk | electrumx/lib/script.py:436-468 | a tiling by operations is the walk: there is only one |
| Scripts.WalkOps | electrumx/lib/script.py:436-468 | returns the walk, and fails on exactly the scripts that have none |
| Scripts.GetPushInputRefs | electrumx/lib/script.py:318-371 | fails on exactly the scripts without a walk; otherwise gives all, normal and singleton refs in order |
| Scripts.ExtractRefsFromScript | electrumx/server/glyph_index.py:1007-1044 | on a script with a walk, the same refs in the same order and kind |
| Scripts.RefsOfWalk | electrumx/lib/script.py:318-371 | the refs are those of the push-ref operations of the walk, in order |
| Scripts.ZeroRefs | electrumx/lib/script.py:381-433 | fails on exactly the scripts without a walk; otherwise zeroes the refs, only if there is a checksig, and keeps the length exactly if there is none or no explicit push length |
| Scripts.ZeroedLength | electrumx/lib/script.py:403-416 | the zeroed operations are as long as the script if and only if no push has an explicit length |
| Scripts.ZeroedShorter | electrumx/lib/script.py:403-416 | a script that comes out shorter |
| Scripts.ZeroedIgnoresRefs | electrumx/lib/script.py:381-433 | scripts that differ in their refs only are filed under one hash |
| Scripts.GetStateSeparatorIndex | electrumx/lib/script.py:229-268 | finds the first separator, and cannot fail on a script with a walk |
| Scripts.SeparatorOfWalk | electrumx/lib/script.py:229-268 | the index is where the first separator operation of the walk starts |
| Scripts.CheckOutputIndexable | electrumx/server/block_processor.py:612-634 | true exactly for spendable scripts with a walk |
| Scripts.BaseLockingScript | electrumx/lib/script.py:470-529 | the first address template among the operations, else the script past its ref preamble |
| Scripts.BaseIsOne | electrumx/lib/script.py:470-529 | a script has one base script |
| Scripts.BaseIsFirstTemplate | electrumx/lib/script.py:470-529 | a script with an address template gives that template |
| Scripts.BaseOfAddressFirst | electrumx/lib/script.py:470-529 | an address followed by anything gives the address |
| Scripts.BaseOfAddressLast | electrumx/lib/script.py:470-529 | an address behind a ref preamble gives the address |
| Utxos.EntryParts | electrumx/server/block_processor.py:753 | a cache value yields its hashX, transaction number and value |
| Utxos.BackupUndoesAdvance | electrumx/server/block_processor.py:1007-1109 | backing up a block gives the map from before it, outputs spent inside it included, and uses the undo entries up exactly |
| Utxos.BackupUndoesTx | electrumx/server/block_processor.py:1035-1099 | the same for one transaction: outputs removed, inputs restored in reverse |
| Utxos.BackupTouchesHistory | electrumx/server/block_processor.py:1034-1099 | the hashXs of the outputs removed and of the undo entries are together exactly those the block put in the histories |
| Utxos.SplitAdvance | electrumx/server/block_processor.py:664-755 | advancing in two parts is advancing at once, undo entries included |
| Utxos.EntriesOkChain | electrumx/server/block_processor.py:753 | every entry of the map names the transaction that made it |
| UtxoTables.CandidateIsOwn | electrumx/server/block_processor.py:1203-1216 | a candidate row that is alone or resolves to the txid belongs to the outpoint, despite prefix collisions |
| UtxoTables.LiveRows | electrumx/server/block_processor.py:1203-1207 | a live flushed outpoint has its row among the candidates |
| UtxoTables.OwnRows | electrumx/server/block_processor.py:1217-1228 | the two rows of an outpoint reassemble to its entry |
| UtxoTables.DeleteRows | electrumx/server/db.py:336-351 | deleting the marked rows leaves the rows of the remaining map |
| UtxoTables.PutRows | electrumx/server/db.py:353-362 | putting the cache adds the rows of its entries |
| BlockProcessors.BlockProcessor.SpendUtxo | electrumx/server/block_processor.py:1189-1232 | a live outpoint yields exactly its entry and leaves the map, whether it is cached, flushed, or shares its prefix |
| BlockProcessors.BlockProcessor.AdvanceTxs | electrumx/server/block_processor.py:636-755 | the map, the undo entries, the history lists and the hashXs touched are those of the abstract block |
| BlockProcessors.BlockProcessor.FlushUtxos | electrumx/server/db.py:336-362 | deletes before puts: the map does not change and the tables then stand for it alone |
| BlockProcessors.BlockProcessor.BackupTxs | electrumx/server/block_processor.py:1007-1109 | map and transaction count of the shorter chain; the undo blob is consumed to exactly zero |
| BlockProcessors.BlockProcessor.AdvanceBlock | electrumx/server/block_processor.py:589-610 | extends the chain the map is determined by, and keeps undo information within the reorg limit |
| BlockProcessors.BlockProcessor.Flush | electrumx/server/db.py:227-281 | flushing at any block boundary changes neither the map nor the chain |
| BlockProcessors.BlockProcessor.FlushHashes | electrumx/server/db.py:294-326 | txids are appended, over what a reorganisation left in the file |
| BlockProcessors.BlockProcessor.BackupBlock | electrumx/server/block_processor.py:979-1005 | succeeds exactly if the undo row is there; map, count and tables are then those of the shorter chain |
| BlockProcessors.BlockProcessor.ReorgChain | electrumx/server/block_processor.py:354-400 | after any run and any flush windows, the map is the one held `count` blocks earlier |
| BlockProcessors.BlockProcessor.AllUtxos | electrumx/server/db.py:827-853 | lists each unspent output of a hashX once, and no other, with the height of the block that made it |
| BlockProcessors.BlockProcessor.LookupUtxo | electrumx/server/db.py:899-947 | the hashX and value of an outpoint in the map, else nothing |
| HistoryRows.BelowIsPrefix | electrumx/server/history.py:171-182 | bisection keeps exactly the numbers below the bound |
| HistoryRows.TxNumsConcat | electrumx/server/history.py:191-204 | rows joined in key order spell the concatenated lists |
| HistoryRows.TouchingFrom | electrumx/server/history.py:123-132 | a block adds an increasing list of its own numbers |
| CompactRows.CompactJoined | electrumx/server/history.py:244-279 | compact rows spell the same list |
| CompactRows.CompactIsUnique | electrumx/server/history.py:244-279 | rows of full chunks are already compact, so a second pass writes nothing |
| Histories.History.AddUnflushed | electrumx/server/history.py:123-132 | each history grows by the numbers of the transactions touching it |
| Histories.History.Flush | electrumx/server/history.py:140-159 | every history is appended to, and then flushed in full |
| Histories.FlushAppendsIff | electrumx/server/history.py:140-159 | a row written under a flush id appends if and only if no row of the hashX has that id or a later one |
| Histories.History.Backup | electrumx/server/history.py:161-189 | keeps exactly the numbers below the count for the given hashXs, although it stops early, and all of the others |
| Histories.History.GetTxNums | electrumx/server/history.py:191-204 | the flushed list, forward or reversed, cut at the limit |
| Histories.History.ClearExcess | electrumx/server/history.py:85-108 | drops exactly the rows above the UTXO flush count |
| Histories.ClearKeepsIff | electrumx/server/history.py:85-108 | clearing loses nothing if and only if no row is above the count |
| Histories.History.CompactHashX | electrumx/server/history.py:244-279 | plans full chunks under ids from 0 and no write where the rows are compact |
| Histories.History.CompactPrefix | electrumx/server/history.py:281-308 | the same for all hashXs of a prefix |
| Histories.History.CompactHistory | electrumx/server/history.py:310-334 | one step changes no history, moves the cursor, and finishes only when all rows are compact |
| Histories.History.FlushCompaction | electrumx/server/history.py:225-242 | applies deletes and writes, and at the end takes over the flush count |
| Histories.History.StartCompaction | electrumx_compact_history:56-60 | a compaction starts at the first prefix or goes on from its cursor, with the histories as they are |
| Histories.History.Compact | electrumx/server/history.py:310-334 | a whole compaction changes no history, and no row the second time |
| Histories.History.CancelCompaction | electrumx/server/history.py:336-342 | the histories stay sound if and only if no row is above the flush count |
| Histories.CancelledCompactionLosesHistory | electrumx/server/history.py:336-342 | a run, for any row size, in which a flush after a cancelled compaction loses a number |
| Indexers.HistoryWithoutLast | electrumx/server/block_processor.py:1034-1099 | truncating the touched histories takes away exactly the last block's numbers |
| Indexers.Indexer.AdvanceBlock | electrumx/server/block_processor.py:589-610 | every history stays the list of the chain's transactions that touch it |
| Indexers.Indexer.Flush | electrumx/server/db.py:227-281 | the same, at any block boundary |
| Indexers.Indexer.BackupBlock | electrumx/server/db.py:415-460 | every history is the pre-block list again |
| Indexers.Indexer.ReorgChain | electrumx/server/block_processor.py:354-400 | every history is that of the shorter chain |
| Indexers.Indexer.TxNumsOf | electrumx/server/history.py:191-204 | queries give that list, in both directions and under any limit |
| Crash.StepKeeps | electrumx/server/db.py:227-281 | every disk write and every memory step, backups included, keeps the stores recoverable |
| Crash.TearKeeps | electrumx/server/db.py:294-326 | any part of the file writes of a flush, over stale bytes, leaves what was flushed before |
| Crash.BackupKeeps | electrumx/server/db.py:400-447 | a completed backup flush leaves the stores recoverable, with stale bytes in the files and a flush count of its own |
| Crash.TornBackupIff | electrumx/server/db.py:415-441 | a crash between the truncated histories and the UTXO commit is harmless if and only if the block had touched no history |
| Crash.RestartIsConsistent | electrumx/server/db.py:668-705 | opening finds UTXOs, histories, tx hashes and counts at one height |
| Crash.CrashAnywhere | electrumx/server/db.py:227-281 | the same after any run of advances, flushes, torn writes, backups and restarts, at the height of the last commit or backup |
| Crash.CrashDuringFlush | electrumx/server/db.py:227-281 | a crash inside a flush, also one after a reorganisation, gives the old commit or, after its last write, the new one |
| CrashSteps.StartIsReady | electrumx/server/db.py:668-677 | an empty database is the start of the crash model |
| CrashSteps.Advance | electrumx/server/block_processor.py:589-610 | advancing the indexer is the memory step of the crash model |
| CrashSteps.Flush | electrumx/server/db.py:227-281 | flushing the indexer is its file, history and UTXO writes, in this order |
| CrashSteps.BackupBlock | electrumx/server/db.py:400-447 | backing a block up is its backup step |
| RefRows.RowsBackExact | electrumx/server/block_processor.py:1050-1080 | `ri`, `rb` and `rm` rows are exactly restored block by block |
| RefRows.LocsBackIs | electrumx/server/block_processor.py:1068-1106 | backing up sets the moved locations to what the undo says and leaves the others |
| RefRows.WindowLocs | electrumx/server/block_processor.py:797-803 | unwinding a whole window restores every `rl` row |
| RefRows.WindowLocsIff | electrumx/server/block_processor.py:797-803 | unwinding part of a window does so if and only if every ref moved after it is where it was before the window |
| RefRows.DeletedAreMoved | electrumx/server/block_processor.py:1068-1080 | what is deleted are the locations of moved singletons |
| RefTables.RefProcessor.AdvanceOutput | electrumx/server/block_processor.py:762-826 | rows and locations of one output, and the undo information so far |
| RefTables.RefProcessor.AdvanceTxs | electrumx/server/block_processor.py:785-826 | the rows of the block, and undo information that is the committed location of every moved ref |
| RefTables.RefProcessor.AdvanceBlock | electrumx/server/block_processor.py:589-599 | cache and database together stay the rows of the chain |
| RefTables.RefProcessor.Flush | electrumx/server/db.py:342-391 | marks a height that unwinding can return to exactly |
| RefTables.RefProcessor.DeleteOutput | electrumx/server/block_processor.py:1234-1251 | marks exactly the rows the output wrote; the "Critical Error" checks never fire |
| RefTables.RefProcessor.DeleteTxs | electrumx/server/block_processor.py:1034-1080 | after the deletes the rows are those of the shorter chain |
| RefTables.RefProcessor.BackupBlock | electrumx/server/block_processor.py:1007-1109 | `ri`, `rb` and `rm` of the shorter chain; `rl` exactly as at the end of the window, if one ended there |
| RefTables.MovedInBoth | electrumx/server/block_processor.py:797-803 | a run: a singleton that moves in both blocks of a window has no location after the second is backed up |
| RefTables.EncodeLocs | electrumx/server/block_processor.py:971-975 | the undo blob of chunks of 68 bytes decodes to the saved locations |
| LedgerRows.RefsReadBack | electrumx/server/glyph_index.py:1755-1763 | an `ri` row reads back as the refs it was made of |
| LedgerRows.RowsOfOutput | electrumx/server/block_processor.py:774-826 | every output of the chain with refs has its `ri` and `rb` rows, as written |
| GlyphLedger.AgreeTx | electrumx/server/block_processor.py:762-826 | after every transaction the tables tell of each unspent output what it holds: the `ri` row its refs, the `rb` row its holder, the entry its value |
| GlyphLedger.AgreeChain | electrumx/server/block_processor.py:636-755 | so they do after every block of every chain |
| GlyphLedger.DebitsAreHeld | electrumx/server/block_processor.py:683-714 | what the inputs of a transaction debit, outputs of its own block included, is what the spent outputs were credited with |
| GlyphLedger.TotalOfSupply | electrumx/server/glyph_index.py:1755-1775 | no balance exceeds the money in circulation |
| GlyphLedger.TxMoves | electrumx/server/block_processor.py:683-944 | debits and credits of a transaction take the live outputs before it to those after it |
| GlyphLedger.BookedRows | electrumx/server/glyph_index.py:2007-2040 | after a flush a balance row and its holder row hold the sum over live outputs, and there is neither if it is zero |
| TokenIndexers.TokenIndexer.Debits | electrumx/server/block_processor.py:683-714 | the debits are read from the rows in cache and database and from the spent entries |
| TokenIndexers.TokenIndexer.AdvanceTx | electrumx/server/block_processor.py:664-944 | one transaction moves UTXO map, rows and ledger together: each balance stays the sum over live outputs, and each ref they carry is known |
| TokenIndexers.TokenIndexer.AdvanceBlock | electrumx/server/block_processor.py:589-610 | the ledger is that of the longer chain |
| TokenIndexers.TokenIndexer.Flush | electrumx/server/db.py:227-281 | at any block boundary: the ledger is then in the database, and the height is one to return to |
| TokenIndexers.TokenIndexer.BackupBlock | electrumx/server/db.py:400-447 | at a height where a window ended the ledger is that of the shorter chain |
| TokenIndexers.TokenIndexer.ReorgTo | electrumx/server/block_processor.py:354-400 | the whole loop: the ledger of the shorter chain at a boundary, and inside any window, the open one or an earlier one, what each balance is and exactly when it is right |
| TokenIndexers.InsideWindow | electrumx/server/glyph_index.py:1784-1809 | backed up into a window just flushed, a balance that moved above that height is what it was before the window, any other what it was there |
| TokenIndexers.RecalledFlush | electrumx/server/db.py:227-281 | a flush keeps what backing up into all earlier windows gives, and adds its own |
| TokenIndexers.BaseFor | electrumx/lib/script.py:470-529 | base hashXs are a function of the script, for every coin |
| TokenRuns.FirstToken | electrumx/server/block_processor.py:636-950 | a run: a token is minted, flushed, and its balance read as the value of its output |
| TokenRuns.LateReorg | electrumx/server/block_processor.py:354-400 | a run: a reorganisation into a window flushed two windows ago reads the balance from before it |
| TokenRuns.LateReorgOnce | electrumx/server/block_processor.py:354-400 | the same on given inputs, without any premise |
| TokenRuns.IndexRunsOnce | electrumx/server/glyph_index.py:1784-1809 | the runs of the Glyph index alone on given inputs, without any premise |
| Records.PlainIsUsable | electrumx/server/glyph_index.py:331-432 | what is asked of the serialisation of token records can be met |
| UndoCodec.RoundTripIff | electrumx/lib/util.py:356-402 | decoding inverts encoding if and only if no value has the sentinel length |
| UndoCodec.EncodeUndo | electrumx/lib/util.py:356-374 | encodes, or fails exactly on lengths that do not fit |
| UndoCodec.DecodeUndo | electrumx/lib/util.py:377-402 | decodes with the source's tolerance for truncated input |
| Overlay.UnwindWindow | electrumx/server/glyph_index.py:1784-1809 | unwinding a window of any number of blocks restores every tracked key and the kept undo rows |
| Overlay.UnwindsAfterFlush | electrumx/server/glyph_index.py:2072-2076 | a flush keeps all earlier boundaries within reach and adds its own |
| Overlay.AlikeAfterFlush | electrumx/server/glyph_index.py:2072-2076 | a flush changes nothing of what earlier heights, boundaries or not, are unwound to |
| Overlay.UnwindBetween | electrumx/server/glyph_index.py:1793-1809 | what a key holds at each height inside a window |
| Overlay.InsideWindowIff | electrumx/server/glyph_index.py:1784-1791 | a key has its exact value there if and only if it was not written later or then had the value from before the window |
| Discovery.DerivedBetween | electrumx/server/glyph_index.py:1857-1947 | discovery rows are derived from token rows at every height that unwinding reaches, inside windows too |
| Discovery.FamilyRecorded | electrumx/server/glyph_index.py:1924-1946 | a token and its rows are recorded together |
| Balances.MirroredBetween | electrumx/server/glyph_index.py:1709-1712 | holder rows mirror balance rows, and no row is zero, inside windows too |
| Balances.SoundAfterFlush | electrumx/server/glyph_index.py:1947-2092 | all states that unwinding can reach after a flush are derived, mirrored and free of zero rows |
| Balances.TotalWithout | electrumx/server/glyph_index.py:1755-1775 | the sum over live outputs does not depend on their order |
| GlyphBatches.TokensDerived | electrumx/server/glyph_index.py:1957-1990 | committing the cached tokens leaves exactly the rows their records account for |
| GlyphBatches.BalancesCommitted | electrumx/server/glyph_index.py:2007-2040 | the rows hold the balances as updates saw them, positive and mirrored |
| GlyphBatches.WindowBalancesAre | electrumx/server/glyph_index.py:1784-1809 | what each balance row holds at each height inside a window, by the moves cached in it |
| GlyphIndexes.GlyphIndex.RecordUndo | electrumx/server/glyph_index.py:1784-1791 | saves the committed value once per height and key |
| GlyphIndexes.GlyphIndex.UpdateBalance | electrumx/server/glyph_index.py:1704-1742 | one balance changes by the delta, not below zero, across cache, pending deletes and database |
| GlyphIndexes.GlyphIndex.ProcessBalanceChanges | electrumx/server/glyph_index.py:1744-1779 | debits that are what the spent outputs held and credits of new outputs take the ledger from one set of live outputs to the next, so the cut at zero never applies; `GlyphLedger.TxMoves` gives both |
| GlyphIndexes.GlyphIndex.DebitInput | electrumx/server/glyph_index.py:1757-1763 | a spent output leaves the ledger |
| GlyphIndexes.GlyphIndex.CreditOutput | electrumx/server/glyph_index.py:1765-1779 | a new output enters the ledger |
| GlyphIndexes.GlyphIndex.RegisterRefs | electrumx/server/glyph_index.py:774-809 | every ref of a transaction is known before it is credited |
| GlyphIndexes.GlyphIndex.IsKnownToken | electrumx/server/glyph_index.py:993-1004 | known exactly if cached or in the database |
| GlyphIndexes.GlyphIndex.FlushToken | electrumx/server/glyph_index.py:1957-2005 | rows of the stored record go, those of the new one come, all recorded at one height |
| GlyphIndexes.GlyphIndex.FlushBalances | electrumx/server/glyph_index.py:2007-2020 | exactly the cached balances and their mirrors are put |
| GlyphIndexes.GlyphIndex.FlushDeletes | electrumx/server/glyph_index.py:2030-2040 | exactly the zeroed balances and their mirrors are deleted, recorded first |
| GlyphIndexes.GlyphIndex.PruneOldUndoKeys | electrumx/server/glyph_index.py:1811-1826 | undo rows within the reorg limit are kept |
| GlyphIndexes.GlyphIndex.Flush | electrumx/server/glyph_index.py:1947-2092 | no balance changes, cached tokens and waiting rows are written, undo rows within the reorg limit are kept, and the height becomes one to unwind to |
| GlyphIndexes.GlyphIndex.Backup | electrumx/server/glyph_index.py:1793-1809 | applies the undo row of the height and deletes it; rows stay derived and mirrored |
| GlyphIndexes.GlyphIndex.BackupTo | electrumx/server/db.py:429-434 | at a height where a window ended, every tracked key and every balance is as it was then |
| GlyphIndexes.GlyphIndex.GetBalance | electrumx/server/glyph_index.py:2266-2278 | right if and only if the balance is not a stored one waiting to be deleted |
| GlyphIndexes.SpentUnseen | electrumx/server/glyph_index.py:2266-2278 | a run: a balance spent in full is still shown as it was |
| GlyphIndexes.MovedTwice | electrumx/server/glyph_index.py:1784-1809 | a run: a balance moved at both heights of a window is, after the second is backed up, what it was before the window |
| GlyphIndexes.ZeroedOnce | electrumx/server/glyph_index.py:2030-2040 | a run: a balance zeroed at the first height comes back when the second is backed up |
| Migration.Migrate3To4 | electrumx/server/glyph_index.py:633-689 | every token row is visited once, page by page, and only its rows are added |
| Migration.MigrationDerives | electrumx/server/glyph_index.py:633-689 | the discovery rows are then exactly those the token rows account for |
| Migration.MigrationIdempotent | electrumx/server/glyph_index.py:640-641 | run again it changes nothing |
| Migration.MigratedIsFresh | electrumx/server/glyph_index.py:633-689 | the tables a migration leaves meet all that the index demands of its database |
| Migration.OpenMigrated | electrumx/server/glyph_index.py:596-631 | opening an older database: migrated, with the discovery rows derived, and ready for any run |
| Migration.OpenOneToken | electrumx/server/glyph_index.py:596-689 | a run: an older database with one token is opened, and then has its discovery rows and no others |
| Migration.OldEntriesIff | electrumx/server/glyph_index.py:645-650 | restoring entries of an older undo row keeps the discovery rows derived if and only if each token record put back accounts for the same ones |
| Migration.OldUndoRowsIff | electrumx/server/glyph_index.py:645-650 | the same for backing up any number of heights from before the migration |
| Migration.OldUndoRowOrphans | electrumx/server/glyph_index.py:645-650 | a case: an undo row from before it leaves a discovery row without a token |
| Storage.IncrementByteString | electrumx/lib/util.py:172-179 | the next string of the same length, none for 0xff bytes only |
| Storage.StrayIs | electrumx/lib/util.py:172-179 | keys in the bounds but not under the prefix are shorter than it, and only for prefixes ending in 0xff |
| Storage.CutIsStray | electrumx/lib/util.py:172-179 | and every such prefix has them: the incremented prefix with zeros cut off |
| Storage.LongKeysNoStray | electrumx/server/storage.py:99-134 | among keys that are all as long as the prefix there is none |
| Storage.LevelDbBounds | electrumx/server/storage.py:118-133 | the bounds handed to the engine |
| Storage.LevelDbIterator | electrumx/server/storage.py:99-134 | the wanted rows in order if and only if no stray lies in the bounds, for every prefix, seek key and direction |
| Storage.RocksDBIterator.ParkAtOrBelow | electrumx/server/storage.py:294-311 | parks on the largest key at or below the target, with old and new bindings |
| Storage.RocksDBIterator.ParkBelow | electrumx/server/storage.py:313-333 | parks on the largest key below the bound, with old and new bindings |
| Storage.UpIsScan | electrumx/server/storage.py:284-287 | ascending iteration yields the wanted rows, strays or not |
| Storage.DownIsScan | electrumx/server/storage.py:272-283 | descending iteration yields them if no stray lies in the bounds |
| Storage.StrayHidesRows | electrumx/server/storage.py:278-279 | and only then, or if no row is wanted, for every seek key |
| Storage.StateIsStray | electrumx/server/history.py:171 | the state key of the history database is a stray for exactly one hashX |
| Storage.StateKeyIsStray | electrumx/server/history.py:171 | backing up reads just the rows of a hashX if and only if it is not that one; of that one RocksDB yields none |
| Storage.RocksDbRows | electrumx/server/storage.py:250-342 | the whole iterator, by either code path, with the exact condition when descending |
| Pagination.CursorRoundTrip | electrumx/server/glyph_index.py:2280-2307 | cursors of both alphabets read back, also with the plus sign mangled |
| Pagination.PaginateHydrated | electrumx/server/glyph_index.py:2572-2597 | a page is the accepted rows up to the limit, and the cursor names the next row |
| Pagination.AllPages | electrumx/server/glyph_index.py:2572-2597 | following the cursor ends and gives every accepted row under the prefix once, in order |
| Pagination.NewestFirst | electrumx/server/glyph_index.py:202-228 | recency rows come by non-increasing deploy height |
| Merkles.BranchLengthIsLog | electrumx/lib/merkle.py:50-56 | the branch length is the ceiling of the base-two logarithm |
| Merkles.Merkle.BranchAndRoot | electrumx/lib/merkle.py:58-95 | branch and root are those of the tree defined from the top down; errors exactly on bad index or length |
| Merkles.Merkle.RootFromProof | electrumx/lib/merkle.py:102-124 | hashes up the branch, and refuses an index beyond it |
| Merkles.Merkle.ProofRootRange | electrumx/lib/merkle.py:121-123 | refused exactly if the index is not below two to the length |
| Merkles.Merkle.ProofVerifies | electrumx/lib/merkle.py:58-124 | every leaf's branch verifies to one root, at any length from the natural one on |
| Merkles.Merkle.TscProofVerifies | electrumx/lib/merkle.py:82-87 | the TSC branch with asterisks resolved is the plain branch and verifies |
| Merkles.Merkle.ProofBinds | electrumx/lib/merkle.py:102-124 | two hashes proved at one place under one root are equal, or the hash function collides |
| Merkles.Merkle.Level | electrumx/lib/merkle.py:126-132 | gives the nodes of that level of the tree, the partial last segment padded |
| Merkles.Merkle.BranchAndRootFromLevel | electrumx/lib/merkle.py:134-165 | joins the two halves, or refuses on inconsistent hashes |
| Merkles.Merkle.FromLevelIsWhole | electrumx/lib/merkle.py:134-165 | on a level and segment of a tree it gives the whole tree's proof |
| MerkleCaches.MerkleCache.Initialize | electrumx/lib/merkle.py:220-225 | covers the first hashes, and what is left behind when it fails |
| MerkleCaches.MerkleCache.ExtendTo | electrumx/lib/merkle.py:197-206 | splices the new part of the level, or changes nothing |
| MerkleCaches.MerkleCache.LevelFor | electrumx/lib/merkle.py:208-218 | the level of any shorter prefix |
| MerkleCaches.MerkleCache.Truncate | electrumx/lib/merkle.py:227-238 | the source may then change from that position on |
| MerkleCaches.MerkleCache.BranchAndRoot | electrumx/lib/merkle.py:240-263 | equals the plain tree over the first hashes, TSC format included, with the errors of each case |
| LogicalFiles.LogicalFile.Read | electrumx/lib/util.py:190-208 | reads the slice of one byte array, across files |
| LogicalFiles.LogicalFile.Write | electrumx/lib/util.py:210-217 | a write without a hole overwrites that slice |
| ChainFiles.HeightIs | electrumx/server/db.py:505 | bisection finds the one height whose block has the transaction |
| ChainFiles.ChainDb.AdvanceBlock | electrumx/server/block_processor.py:589-610 | header, txids and count of a block wait in memory; the files and the answers stay |
| ChainFiles.ChainDb.FlushFs | electrumx/server/db.py:294-326 | headers, counts and txids of the chain then begin their files, over what a reorganisation left there |
| ChainFiles.ChainDb.CommitUtxos | electrumx/server/db.py:396-398 | what is in the files counts from then on |
| ChainFiles.ChainDb.BackupFs | electrumx/server/db.py:455-463 | the pointers move back, the files keep their bytes, and the cache is emptied |
| ChainFiles.ChainDb.ReadHeaders | electrumx/server/db.py:472-496 | the headers of the chain from a height on, as many as are committed |
| ChainFiles.ChainDb.FsTxHash | electrumx/server/db.py:498-513 | the txid and height of every committed number, no txid above, exactly unless a miss was cached before |
| ChainFiles.AskedTooEarly | electrumx/server/db.py:498-513 | a run: a number asked for before the commit stays without txid after it |
| Mempool.Refresh.LeastIsUnique | electrumx/server/mempool.py:341-363 | the least closed set does not depend on how it is reached |
| Mempool.MemPool.AcceptTransactions | electrumx/server/mempool.py:161-245 | one pass accepts only resolved transactions, stalls only if none is left, and keeps the indexes exact |
| Mempool.MemPool.IndexTx | electrumx/server/mempool.py:207-243 | an accepted transaction is filed under all it touches, last in the list of each ref it pushes, and each of its outputs with refs |
| Mempool.MemPool.FetchAndAccept | electrumx/server/mempool.py:420-431 | a chunk is accepted as far as possible and the rest stays ready |
| Mempool.MemPool.Retry | electrumx/server/mempool.py:355-361 | the retry loop ends with the least closed set |
| Mempool.MemPool.ProcessMempool | electrumx/server/mempool.py:300-365 | the accepted set is the least closed one, inputs and fees are right, kept transactions are unchanged, and the three indexes are exact |
| Mempool.MemPool.RemoveTx | electrumx/server/mempool.py:312-331 | a transaction leaves the mempool and all its indexes; the lists of refs keep their order |
| MempoolIndex.TrackedWithout | electrumx/server/mempool.py:321-330 | taking one transaction out of the lists leaves exactly those of the others, each once |
| MempoolIndex.EncodedRefs | electrumx/server/mempool.py:224-243 | the refs of an unconfirmed output are encoded as the `ri` row that a block would write |

## Left out

- RPC, REST, peers, the daemon client, sessions, metrics and logging: input and output.
- The block tip check of `_backup_block`: `BackupBlock` takes the block at the tip.
- Flushes that do not commit the UTXOs: `flush_dbs` takes a flag for it, which every caller sets.
- The LRU caches of db.py, but for that of `fs_tx_hash`, which here never drops an entry for want of room.
- `BlockProcessors.BlockProcessor.AdvanceTxs`: touched are the hashXs of outputs; the refs that the source adds to the set for notifications are not in it.
- `BlockProcessors.BlockProcessor.BackupTxs`: the same.
- `Utxos.BackupTouchesHistory`: the same; the source also adds the hash of each ref, and truncating further histories changes nothing (`Indexers.HistoryWithoutLast`).
- `BlockProcessors.BlockProcessor.SpendUtxo`: says nothing about outpoints that are not live; the source does not compare a lone candidate with the txid.
- `BlockProcessors.BlockProcessor.BackupBlock`: assumes that an undo row belongs to a height whose undo information is kept; rows older than the reorg limit are not removed by the source until the next start.
- `RefTables.RefProcessor.BackupBlock`: the same.
- `Crash.CrashDuringFlush`: the Glyph rows are not part of it; they are in the UTXO batch.  A crash inside a backup flush is `Crash.TornBackupIff`; a run does not go on from there.
- `MerkleCaches.MerkleCache.BranchAndRoot`: calls are sequential; the source awaits between reading and writing its fields.  Type errors have no counterpart.
- `GlyphIndexes.GlyphIndex.Flush`: statistics, key reveals and the envelope parsing that fills the token records are not modelled; history, metadata and contract rows are one list of pending writes.
- `GlyphIndexes.GlyphIndex.ProcessBalanceChanges`: amounts fit eight bytes; larger ones make the source fail in the flush.
- `TokenIndexers.TokenIndexer.AdvanceTx`: of `process_tx` only the registration of refs is modelled, not envelopes, metadata, mints and burns, nor the guards that skip the Glyph part of a transaction whose parsing raises.  A block has at most 65536 transactions, as the two bytes of the index in a history key demand.
- `TokenIndexers.TokenIndexer.ReorgTo`: no deeper than the reorg limit, and each block backed up has its undo row.
- `RefTables.RefProcessor.AdvanceOutput`: the Glyph index is on, so that `rb` rows are written; without it they are not.
- `Histories.History.CompactHistory`: the write items are a map, and hashXs are taken in any order; the row that holds the history state is not a row here.
- `Pagination.CursorRoundTrip`: canonical base64 only; the source's decoder also drops foreign characters.
- `Mempool.MemPool.ProcessMempool`: outputs named by prevouts exist, the database does not change meanwhile, and no output is spent twice.  The unconfirmed Glyph balances of mempool_glyph.py are not part of this model.
- The transaction hash preimage with output ref summaries (tx.py): a hash function here.
- `Merkles.BranchLengthIsLog`: the source computes the logarithm in floating point, the model exactly.
- `_calc_reorg_range`, DB upgrades, analytics, prediction, swap, royalty, WAVE and realm indexes, dMint.
