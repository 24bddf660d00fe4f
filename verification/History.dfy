/** The history database with its unflushed part: electrumx/server/history.py. */
module Histories {
  import opened ByteStrings
  import opened HistoryRows
  import opened CompactRows

  function Max(a: int, b: int): int {
    if a < b then b else a
  }

  function BytesOr(m: map<Bytes, Bytes>, hashX: Bytes): Bytes {
    if hashX in m then m[hashX] else []
  }

  /** The first four bytes of a hashX as a number. */
  function Prefix(hashX: Bytes): (p: nat)
    ensures p < PREFIXES
  {
    if |hashX| < 4 then 0 else
      FromBeBound(hashX[..4]);
      PrefixRange();
      FromBE(hashX[..4])
  }

  const PREFIXES: nat := 0x1_0000_0000

  lemma PrefixRange()
    ensures Range(4) == PREFIXES
  {
    assert Range(3) == 256 * Range(2);
  }

  function Reverse(s: seq<nat>): (r: seq<nat>)
    ensures |r| == |s|
  {
    if s == [] then [] else Reverse(s[1..]) + [s[0]]
  }

  /** Oldest first, or newest first. */
  function Ordered(s: seq<nat>, reverse: bool): (r: seq<nat>)
    ensures |r| == |s|
  {
    if reverse then Reverse(s) else s
  }

  /** A negative limit stands for none. */
  function Limited(s: seq<nat>, limit: int): seq<nat> {
    if 0 <= limit <= |s| then s[..limit] else s
  }

  class History {
    const maxHistRowEntries: nat
    var unflushed: map<Bytes, Bytes>
    var unflushedCount: nat
    var flushCount: nat
    var compFlushCount: int
    var compCursor: int
    var rows: Rows

    ghost var next: nat    // every transaction number recorded is below this one

    /** Row ids in use are below this one. */
    function Top(): nat
      reads `flushCount, `compFlushCount
    {
      Max(flushCount, compFlushCount) + 1
    }

    /** The flushed history of a hashX. */
    ghost function Flushed(hashX: Bytes): seq<nat>
      reads `rows, `flushCount, `compFlushCount
    {
      TxNums(Joined(rows, hashX, Top()))
    }

    /** The whole history of a hashX, unflushed numbers included. */
    ghost function All(hashX: Bytes): seq<nat>
      reads `rows, `flushCount, `compFlushCount, `unflushed
    {
      Flushed(hashX) + TxNums(BytesOr(unflushed, hashX))
    }

    /** Rows are well formed and below the id of the next flush, and each history is one
        increasing list of numbers below the next transaction number. */
    ghost predicate Valid()
      reads this
    {
      Sound(rows, Top(), unflushed, next)
    }

    constructor (maxHistRowEntries: nat)
      requires maxHistRowEntries > 0
      ensures this.maxHistRowEntries == maxHistRowEntries
      ensures Valid() && next == 0 && rows == map[] && unflushed == map[]
      ensures flushCount == 0 && compFlushCount == -1 && compCursor == -1
    {
      this.maxHistRowEntries := maxHistRowEntries;
      unflushed, unflushedCount, flushCount, compFlushCount, compCursor := map[], 0, 0, -1, -1;
      rows, next := map[], 0;
      new;
      forall h ensures Recorded(All(h), next) {
        JoinedBeyond(rows, h, 0, Top());
      }
    }

    /** Appends the numbers of the transactions of a block to the histories they touch. */
    method AddUnflushed(hashXsByTx: seq<set<Bytes>>, firstTxNum: nat)
      requires WholeNumbers(unflushed) && firstTxNum + |hashXsByTx| <= Range(5)
      modifies `unflushed, `unflushedCount, `next
      ensures WholeNumbers(unflushed)
      ensures forall h :: TxNums(BytesOr(unflushed, h)) == TxNums(BytesOr(old(unflushed), h)) + Touching(hashXsByTx, firstTxNum, h)
      ensures old(Valid()) && old(next) <= firstTxNum ==>
                && Valid() && next == firstTxNum + |hashXsByTx|
                && forall h :: All(h) == old(All(h)) + Touching(hashXsByTx, firstTxNum, h)
    {
      hide Range, TxNums, Joined, Recorded, Touching, WholeNumbers, Sound;
      var txNum := firstTxNum;
      assert hashXsByTx[0..] == hashXsByTx;
      for i := 0 to |hashXsByTx|
        invariant WholeNumbers(unflushed) && txNum == firstTxNum + i
        invariant forall h :: TxNums(BytesOr(unflushed, h)) + Touching(hashXsByTx[i..], txNum, h)
                              == TxNums(BytesOr(old(unflushed), h)) + Touching(hashXsByTx, firstTxNum, h)
      {
        label before:
        AddTransaction(hashXsByTx[i], txNum);
        forall h
          ensures TxNums(BytesOr(unflushed, h)) + Touching(hashXsByTx[i + 1..], txNum + 1, h)
                  == TxNums(BytesOr(old@before(unflushed), h)) + Touching(hashXsByTx[i..], txNum, h)
        {
          TouchingStep(hashXsByTx, i, txNum, h, TxNums(BytesOr(old@before(unflushed), h)));
        }
        txNum := txNum + 1;
      }
      assert hashXsByTx[|hashXsByTx|..] == [];
      forall h ensures TxNums(BytesOr(unflushed, h)) + Touching([], txNum, h) == TxNums(BytesOr(unflushed, h)) {
        NoneTouching(txNum, h, TxNums(BytesOr(unflushed, h)));
      }
      if old(Valid()) && old(next) <= firstTxNum {
        next := firstTxNum + |hashXsByTx|;
        ValidMore(rows, Top(), old(unflushed), unflushed, old(next), hashXsByTx, firstTxNum);
      }
    }

    /** Appends one transaction number to every history in `hashXs`. */
    method AddTransaction(hashXs: set<Bytes>, txNum: nat)
      requires WholeNumbers(unflushed) && txNum < Range(5)
      modifies `unflushed, `unflushedCount
      ensures WholeNumbers(unflushed)
      ensures forall h :: TxNums(BytesOr(unflushed, h))
                          == if h in hashXs then TxNums(BytesOr(old(unflushed), h)) + [txNum] else TxNums(BytesOr(old(unflushed), h))
    {
      hide Range, TxNums, LE;
      var txNumb := LE(txNum, 8)[..5];
      TxNumsOne(txNum);
      ghost var was := unflushed;
      ExtendAll(hashXs, txNumb);
      forall h
        ensures TxNums(BytesOr(unflushed, h)) == if h in hashXs then TxNums(BytesOr(was, h)) + [txNum] else TxNums(BytesOr(was, h))
      {
        if h in hashXs {
          TxNumsConcat(BytesOr(was, h), txNumb);
        }
      }
    }

    /** `unflushed[hashX].extend(tx_numb)` for every hashX. */
    method ExtendAll(hashXs: set<Bytes>, txNumb: Bytes)
      requires |txNumb| == 5 && WholeNumbers(unflushed)
      modifies `unflushed, `unflushedCount
      ensures WholeNumbers(unflushed) && Extended(old(unflushed), unflushed, hashXs, txNumb)
    {
      hide Extended, WholeNumbers;
      var todo := hashXs;
      ExtendedNone(unflushed, txNumb);
      assert hashXs - todo == {};
      while todo != {}
        invariant todo <= hashXs && WholeNumbers(unflushed)
        invariant Extended(old(unflushed), unflushed, hashXs - todo, txNumb)
      {
        var hashX: Bytes :| hashX in todo;
        ExtendedStep(old(unflushed), unflushed, hashXs - todo, txNumb, hashX);
        assert hashXs - todo + {hashX} == hashXs - (todo - {hashX});
        todo := todo - {hashX};
        unflushed := unflushed[hashX := BytesOr(unflushed, hashX) + txNumb];
      }
      assert hashXs - {} == hashXs;
      unflushedCount := unflushedCount + |hashXs|;
    }

    /** Writes the unflushed part under the next flush id.  When no row has that id or a later one,
        every history is appended to. */
    method Flush()
      requires flushCount + 1 < 0x1_0000_0000
      modifies `rows, `unflushed, `unflushedCount, `flushCount
      ensures rows == FlushedRows(old(rows), old(unflushed), old(flushCount) + 1)
      ensures unflushed == map[] && flushCount == old(flushCount) + 1
      ensures old(Valid()) && compFlushCount <= old(flushCount) ==>
                Valid() && forall h :: All(h) == old(All(h)) && Flushed(h) == All(h)
    {
      hide TxNums, Joined, Recorded, Sound, FlushedRows;
      flushCount := flushCount + 1;
      var batch: Rows := rows;
      var todo := unflushed.Keys;
      while todo != {}
        invariant todo <= unflushed.Keys && unchanged(`unflushed) && unchanged(`rows) && flushCount == old(flushCount) + 1
        invariant forall k :: k in batch <==> k in rows || (k.id == flushCount && k.hashX in unflushed.Keys - todo)
        invariant forall k :: k in rows && !(k.id == flushCount && k.hashX in unflushed.Keys - todo) ==> batch[k] == rows[k]
        invariant forall h :: h in unflushed.Keys - todo ==> batch[RowKey(h, flushCount)] == unflushed[h]
      {
        var hashX: Bytes :| hashX in todo;
        todo := todo - {hashX};
        batch := batch[RowKey(hashX, flushCount) := unflushed[hashX]];
      }
      FlushedRowsAre(rows, unflushed, flushCount, batch);
      ghost var was := unflushed;
      rows, unflushed, unflushedCount := batch, map[], 0;
      if old(Valid()) && compFlushCount <= old(flushCount) {
        ValidFlushed(old(rows), was, old(flushCount), next, old(Top()));
      }
    }

    /** Removes all numbers from `txCount` on from the histories in `hashXs`: from the newest
        row backwards, stopping at the first row that keeps something.  When every other history
        was below `txCount` already, numbering can resume there. */
    method Backup(hashXs: set<Bytes>, txCount: nat)
      requires Valid() && unflushed == map[] && compFlushCount <= flushCount && flushCount + 1 < 0x1_0000_0000
      modifies `rows, `flushCount, `next
      ensures Valid() && unflushed == map[] && flushCount == old(flushCount) + 1 && IdsBelow(rows, old(flushCount) + 1)
      ensures forall h :: Flushed(h) == All(h) == if h in hashXs then Below(old(All(h)), txCount) else old(All(h))
      ensures next == if forall h :: h !in hashXs ==> Recorded(old(All(h)), txCount) then txCount else old(next)
    {
      hide TxNums, Joined, Recorded, Below;
      ghost var top := Top();
      flushCount := flushCount + 1;
      var batch: Rows := rows;
      var todo := hashXs;
      while todo != {}
        invariant todo <= hashXs && unchanged(`rows) && next == old(next) && flushCount == old(flushCount) + 1
        invariant WellFormed(batch) && IdsBelow(batch, top)
        invariant forall h: Bytes, i: nat :: h !in hashXs - todo ==> RowOr(batch, h, i) == RowOr(rows, h, i)
        invariant forall h :: h in hashXs - todo ==>
                    TxNums(Joined(batch, h, top)) == Below(TxNums(Joined(rows, h, top)), txCount)
      {
        var hashX: Bytes :| hashX in todo;
        todo := todo - {hashX};
        ghost var was := batch;
        assert old(All(hashX)) == TxNums(Joined(rows, hashX, top)) && Recorded(old(All(hashX)), next) by {
          EmptyNums(BytesOr(unflushed, hashX));
          assert old(BytesOr(unflushed, hashX)) == [];
        }
        batch := BackupOne(batch, hashX, txCount);
        forall h | h in hashXs - todo
          ensures TxNums(Joined(batch, h, top)) == Below(TxNums(Joined(rows, h, top)), txCount)
        {
          if h != hashX {
            JoinedSame(batch, was, h, top);
          }
        }
      }
      rows := batch;
      if forall h :: h !in hashXs ==> Recorded(old(All(h)), txCount) {
        next := txCount;
      }
      forall h
        ensures Flushed(h) == All(h) == if h in hashXs then Below(old(All(h)), txCount) else old(All(h))
        ensures Recorded(All(h), next)
      {
        JoinedBeyond(rows, h, top, Top());
        EmptyNums(BytesOr(unflushed, h));
        assert Recorded(old(All(h)), old(next));
        if h in hashXs {
          RecordedBelow(old(All(h)), old(next), txCount);
        } else {
          JoinedSame(rows, old(rows), h, top);
        }
      }
    }

    /** The loop over the rows of one hashX, newest first. */
    method BackupOne(batch0: Rows, hashX: Bytes, txCount: nat) returns (batch: Rows)
      requires WellFormed(batch0) && WellFormed(rows)
      requires forall i: nat :: RowOr(batch0, hashX, i) == RowOr(rows, hashX, i)
      requires flushCount >= 1 && compFlushCount <= flushCount - 1
      requires IdsBelow(batch0, flushCount)
      requires Recorded(TxNums(Joined(rows, hashX, flushCount)), next)
      ensures WellFormed(batch) && IdsBelow(batch, flushCount)
      ensures forall h: Bytes, i: nat :: h != hashX ==> RowOr(batch, h, i) == RowOr(batch0, h, i)
      ensures TxNums(Joined(batch, hashX, flushCount)) == Below(TxNums(Joined(rows, hashX, flushCount)), txCount)
    {
      hide TxNums, Joined, Below, BisectLeft;
      batch := batch0;
      var id := flushCount;
      while id > 0
        invariant 0 <= id <= flushCount
        invariant batch == batch0 - (set k | k in batch0 && k.hashX == hashX && k.id >= id)
        invariant Below(TxNums(Joined(rows, hashX, id)), txCount) == Below(TxNums(Joined(rows, hashX, flushCount)), txCount)
      {
        id := id - 1;
        assert RowOr(batch0, hashX, id) == RowOr(rows, hashX, id);
        var key := RowKey(hashX, id);
        if key !in rows {
          SkipRow(rows, hashX, id);
          continue;
        }
        var a := TxNums(rows[key]);
        var idx := BisectLeft(a, txCount);
        if idx > 0 {
          batch := batch[key := rows[key][..5 * idx]];
          CutRow(rows, hashX, id, flushCount, idx, txCount, next);
          CutJoined(rows, batch, hashX, id, flushCount, 5 * idx);
          return;
        }
        DropRow(rows, hashX, id, flushCount, txCount, next);
        batch := batch - {key};
      }
      NothingLeft(rows, batch, hashX, flushCount, txCount);
    }

    /** The flushed history, oldest or newest first, up to a limit. */
    method GetTxNums(hashX: Bytes, limit: int, reverse: bool) returns (r: seq<nat>)
      requires WellFormed(rows)
      ensures r == Limited(Ordered(Flushed(hashX), reverse), limit)
    {
      hide TxNums, Joined, RowsFrom, Ordered, Limited, WellFormed, IdsBelow, Recorded, Increasing;
      r := [];
      var top := Top();
      var left := limit;
      RowsFromAll(rows, hashX, top, reverse);
      ghost var whole := Ordered(Flushed(hashX), reverse);
      for k := 0 to top
        invariant whole == r + RowsFrom(rows, hashX, top, k, reverse)
        invariant limit >= 0 ==> left == limit - |r| >= 0
        invariant limit < 0 ==> left < 0
      {
        var id := if reverse then top - 1 - k else k;
        NextRow(rows, hashX, top, k, reverse);
        if RowKey(hashX, id) !in rows {
          continue;
        }
        var nums := Ordered(TxNums(rows[RowKey(hashX, id)]), reverse);
        ghost var rest := RowsFrom(rows, hashX, top, k + 1, reverse);
        for i := 0 to |nums|
          invariant whole == r + nums[i..] + rest
          invariant limit >= 0 ==> left == limit - |r| >= 0
          invariant limit < 0 ==> left < 0
        {
          if left == 0 {
            LimitReached(whole, r, nums[i..], rest, limit);
            return;
          }
          TakeOne(whole, r, nums, i, rest);
          r := r + [nums[i]];
          left := left - 1;
        }
      }
      LastRow(rows, hashX, top, reverse);
      NoLimit(whole, r, limit);
    }

    /** After an unclean shutdown: drops the rows of flushes the UTXO database never committed. */
    method ClearExcess(utxoFlushCount: nat)
      requires Valid() && unflushed == map[]
      modifies `rows, `flushCount
      ensures flushCount == if old(flushCount) <= utxoFlushCount then old(flushCount) else utxoFlushCount
      ensures rows == if old(flushCount) <= utxoFlushCount then old(rows) else UpTo(old(rows), utxoFlushCount)
      ensures Valid()
      ensures forall h :: Flushed(h) == TxNums(Joined(rows, h, old(Top())))
    {
      hide TxNums, Joined, Recorded;
      ghost var top := Top();
      if flushCount > utxoFlushCount {
        var keys := set k | k in rows && k.id > utxoFlushCount;
        flushCount := utxoFlushCount;
        rows := rows - keys;
        forall h
          ensures Flushed(h) == TxNums(Joined(rows, h, top)) && Recorded(All(h), next)
        {
          EmptyNums(BytesOr(unflushed, h));
          assert Recorded(old(All(h)), next) && old(All(h)) == TxNums(Joined(old(rows), h, top));
          ClearedRows(old(rows), rows, h, utxoFlushCount, Top(), top);
          RecordedPrefix(old(rows), h, utxoFlushCount, top, next);
        }
        ValidIf();
      }
    }

    // ----- Compaction -----

    function RowSize(): nat
      ensures maxHistRowEntries > 0 ==> RowSize() > 0 && RowSize() % 5 == 0
    {
      maxHistRowEntries * 5
    }

    /** Redistributes the rows of one hashX: what has to be deleted and what to be written.
        A hashX that is compact already adds nothing to either. */
    method CompactHashX(hashX: Bytes, deletes0: set<RowKey>, writes0: Rows, top: nat, ghost done: set<Bytes>)
      returns (deletes: set<RowKey>, writes: Rows, writeSize: nat)
      requires maxHistRowEntries > 0 && WellFormed(rows) && IdsBelow(rows, top)
      requires Pass(rows, deletes0, writes0, done, top, RowSize()) && hashX !in done
      requires exists k :: k in rows && k.hashX == hashX
      modifies `compFlushCount
      ensures Pass(rows, deletes, writes, done + {hashX}, top, RowSize())
      ensures compFlushCount == Max(old(compFlushCount), |Chunks(Joined(rows, hashX, top), RowSize())| - 1)
      ensures IsCompact(rows, hashX, Joined(rows, hashX, top), RowSize()) ==> deletes == deletes0 && writes == writes0
      ensures writeSize == 0 ==> writes == writes0
    {
      hide Pass, PartPass, Chunks, Joined, IsCompact;
      ghost var size := RowSize();
      var fullHist := FullHist(hashX, top);
      StartHashX(rows, deletes0, writes0, done, top, size, hashX);
      deletes, writes, writeSize := deletes0 + (set k | k in rows && k.hashX == hashX), writes0, 0;
      FullNonempty(rows, hashX, top);
      ChunksWhole(fullHist, size);
      PassKeys(rows, deletes0, writes0, done, top, size, hashX);
      var rest, n := fullHist, 0;
      ghost var all := Chunks(fullHist, size);
      assert all[0..] == all;
      while rest != []
        invariant n <= |all| && Chunks(rest, size) == all[n..] && compFlushCount == old(compFlushCount)
        invariant PartPass(rows, deletes, writes, done, top, size, hashX, n) && (writeSize == 0 ==> writes == writes0)
        invariant IsCompact(rows, hashX, fullHist, size) ==>
                    writes == writes0 && deletes == deletes0 + (set k | k in rows && k.hashX == hashX && k.id >= n)
        decreases |rest|
      {
        var chunk := if |rest| <= RowSize() then rest else rest[..RowSize()];
        FirstChunk(rest, size);
        assert all[n..][0] == all[n] && all[n..][1..] == all[n + 1..];
        assert ChunkAt(fullHist, size, n) == chunk;
        var key := RowKey(hashX, n);
        CompactHasRow(rows, hashX, fullHist, size, n);
        if key in rows && rows[key] == chunk {
          assert (set k | k in rows && k.hashX == hashX && k.id >= n) - {key}
                 == set k | k in rows && k.hashX == hashX && k.id >= n + 1;
          KeepChunk(rows, deletes, writes, done, top, size, hashX, n);
          deletes := deletes - {key};
        } else {
          WriteChunk(rows, deletes, writes, done, top, size, hashX, n);
          writes := writes[key := chunk];
          writeSize := writeSize + |chunk|;
        }
        rest := rest[|chunk|..];
        n := n + 1;
      }
      NoChunks(size);
      EndHashX(rows, deletes, writes, done, top, size, hashX, n);
      compFlushCount := Max(compFlushCount, n - 1);
      CompactHasNoMore(rows, hashX, fullHist, size, n);
    }

    /** All rows of a hashX joined, in key order. */
    method FullHist(hashX: Bytes, top: nat) returns (full: Bytes)
      ensures full == Joined(rows, hashX, top)
    {
      full := [];
      for id := 0 to top
        invariant full == Joined(rows, hashX, id)
      {
        if RowKey(hashX, id) in rows {
          full := full + rows[RowKey(hashX, id)];
        } else {
          assert full + [] == full;
        }
      }
    }

    /** Compacts every hashX that starts with the four bytes `prefix`. */
    method CompactPrefix(prefix: nat, deletes0: set<RowKey>, writes0: Rows, top: nat, ghost done0: set<Bytes>)
      returns (deletes: set<RowKey>, writes: Rows, writeSize: nat, ghost done: set<Bytes>)
      requires maxHistRowEntries > 0 && WellFormed(rows) && IdsBelow(rows, top)
      requires Pass(rows, deletes0, writes0, done0, top, RowSize())
      requires (forall h :: h in done0 ==> Prefix(h) < prefix) && Narrow(rows, done0, top, compFlushCount, RowSize())
      modifies `compFlushCount
      ensures Pass(rows, deletes, writes, done, top, RowSize()) && Narrow(rows, done, top, compFlushCount, RowSize())
      ensures done0 <= done && (forall h :: h in done - done0 ==> Prefix(h) == prefix)
      ensures forall k :: k in rows && Prefix(k.hashX) == prefix ==> k.hashX in done
      ensures compFlushCount >= old(compFlushCount)
      ensures AllCompact(rows, top, RowSize()) ==> deletes == deletes0 && writes == writes0
      ensures writeSize == 0 ==> writes == writes0
    {
      hide Pass, Prefix, Chunks, Joined;
      deletes, writes, writeSize, done := deletes0, writes0, 0, done0;
      var hashXs := set k | k in rows && Prefix(k.hashX) == prefix :: k.hashX;
      var todo := hashXs;
      while todo != {}
        invariant todo <= hashXs && done == done0 + (hashXs - todo) && done0 !! hashXs
        invariant Pass(rows, deletes, writes, done, top, RowSize()) && Narrow(rows, done, top, compFlushCount, RowSize())
        invariant compFlushCount >= old(compFlushCount)
        invariant AllCompact(rows, top, RowSize()) ==> deletes == deletes0 && writes == writes0
        invariant writeSize == 0 ==> writes == writes0
      {
        var hashX: Bytes :| hashX in todo;
        todo := todo - {hashX};
        var size;
        deletes, writes, size := CompactHashX(hashX, deletes, writes, top, done);
        done := done + {hashX};
        writeSize := writeSize + size;
      }
    }

    /** Compaction in progress: every hashX below the cursor is compact, and its row ids fit
        the compaction flush count. */
    ghost predicate Compacting()
      reads `rows, `flushCount, `compFlushCount, `compCursor
      requires maxHistRowEntries > 0
    {
      && 0 <= compCursor <= PREFIXES && compFlushCount >= 0
      && CompactBelow(rows, Top(), RowSize(), compCursor, compFlushCount)
    }

    /** One pass: prefixes from the cursor on, until `limit` bytes are to be written, committed
        as one batch.  No history changes; hashXs the pass did not reach keep their rows.  When
        the last prefix is done the flush count drops to the compaction flush count. */
    method CompactHistory(limit: nat) returns (writeSize: nat)
      requires maxHistRowEntries > 0 && Valid() && unflushed == map[] && Compacting() && limit > 0 && compCursor < PREFIXES
      modifies `rows, `flushCount, `compFlushCount, `compCursor
      ensures Valid()
      ensures forall h :: Flushed(h) == old(Flushed(h))
      ensures compCursor == -1 || (old(compCursor) < compCursor < PREFIXES && Compacting() && flushCount == old(flushCount))
      ensures compCursor == -1 ==> compFlushCount == -1 && AllCompact(rows, Top(), RowSize())
      ensures old(AllCompact(rows, Top(), RowSize())) ==> rows == old(rows)
      ensures compCursor != -1 ==> forall h, id: nat :: Prefix(h) >= compCursor ==> RowOr(rows, h, id) == RowOr(old(rows), h, id)
      ensures limit == 1 ==> forall h ::
                old(compCursor) <= Prefix(h) < PREFIXES - 1
                && !IsCompact(old(rows), h, Joined(old(rows), h, old(Top())), RowSize()) ==>
                  compCursor != -1
    {
      hide Pass, Prefix, Chunks, Joined, AllCompact, Narrow, CompactBelow, TxNums, Recorded, IsCompact;
      var deletes: set<RowKey>, writes: Rows := {}, map[];
      writeSize := 0;
      var top := Top();
      ghost var done: set<Bytes> := {};
      StartPass(rows, top, RowSize(), compFlushCount);
      var cursor := compCursor;
      while writeSize < limit && cursor < PREFIXES
        invariant old(compCursor) <= cursor <= PREFIXES && (cursor == old(compCursor) ==> writeSize == 0)
        invariant Pass(rows, deletes, writes, done, top, RowSize()) && Narrow(rows, done, top, compFlushCount, RowSize())
        invariant forall h :: h in done ==> old(compCursor) <= Prefix(h) < cursor
        invariant forall k :: k in rows && old(compCursor) <= Prefix(k.hashX) < cursor ==> k.hashX in done
        invariant compFlushCount >= old(compFlushCount)
        invariant AllCompact(rows, top, RowSize()) ==> deletes == {} && writes == map[]
        invariant writeSize == 0 ==> writes == map[]
        invariant limit == 1 ==> forall h :: old(compCursor) <= Prefix(h) && !IsCompact(rows, h, Joined(rows, h, top), RowSize()) ==>
                    cursor <= Prefix(h) + if writeSize > 0 then 1 else 0
        invariant unchanged(`rows) && unchanged(`flushCount) && unchanged(`compCursor)
      {
        var size;
        deletes, writes, size, done := CompactPrefix(cursor, deletes, writes, top, done);
        writeSize := writeSize + size;
        if writeSize == 0 {
          NothingWritten(rows, deletes, done, top, RowSize(), cursor);
        }
        cursor := cursor + 1;
      }
      ghost var top' := (if cursor == PREFIXES then compFlushCount else Max(flushCount, compFlushCount)) + 1;
      PassResult(rows, deletes, writes, done, top, RowSize(), compCursor, cursor, old(compFlushCount), compFlushCount, top');
      OthersKept(rows, deletes, writes, done, top, RowSize(), cursor);
      FlushCompaction(cursor, deletes, writes);
      forall h
        ensures Flushed(h) == old(Flushed(h)) && Recorded(All(h), next)
      {
        assert Recorded(old(All(h)), next);
      }
      if old(AllCompact(rows, Top(), RowSize())) {
        assert rows == old(rows);
      }
    }

    /** Commits a pass.  Deletes come first: the key spaces overlap. */
    method FlushCompaction(cursor: nat, deletes: set<RowKey>, writes: Rows)
      requires cursor == PREFIXES ==> compFlushCount >= 0
      modifies `rows, `flushCount, `compFlushCount, `compCursor
      ensures rows == Applied(old(rows), deletes, writes)
      ensures cursor == PREFIXES ==> flushCount == old(compFlushCount) && compFlushCount == -1 && compCursor == -1
      ensures cursor != PREFIXES ==> flushCount == old(flushCount) && compFlushCount == old(compFlushCount) && compCursor == cursor
    {
      if cursor == PREFIXES {
        flushCount := compFlushCount;
        compCursor, compFlushCount := -1, -1;
      } else {
        compCursor := cursor;
      }
      rows := (rows - deletes) + writes;
    }

    /** Begins a compaction, or takes up an interrupted one. */
    method StartCompaction()
      requires maxHistRowEntries > 0 && Valid() && unflushed == map[]
      requires compCursor == -1 || (Compacting() && compCursor < PREFIXES)
      modifies `compFlushCount, `compCursor
      ensures Valid() && Compacting() && compCursor == if old(compCursor) == -1 then 0 else old(compCursor)
      ensures compFlushCount == Max(old(compFlushCount), 1)
      ensures forall h :: Flushed(h) == old(Flushed(h))
      ensures AllCompact(rows, Top(), RowSize()) <==> old(AllCompact(rows, Top(), RowSize()))
    {
      hide Pass, Prefix, Chunks, Joined, AllCompact, Narrow, CompactBelow, TxNums, Recorded, IsCompact;
      ghost var top := Top();
      if compCursor == -1 {
        compCursor := 0;
        compFlushCount := Max(compFlushCount, 1);
        NothingBelowZero(rows, Top(), RowSize(), compFlushCount);
      } else {
        compFlushCount := Max(compFlushCount, 1);
        WiderCount(rows, top, Top(), RowSize(), compCursor, old(compFlushCount), compFlushCount);
      }
      forall h
        ensures Flushed(h) == old(Flushed(h)) && Recorded(All(h), next)
      {
        assert Recorded(old(All(h)), next);
        JoinedBeyond(rows, h, top, Top());
      }
      ValidIf();
      SameTop(rows, top, Top(), RowSize());
    }

    /** The whole compaction, from the start or from where it was interrupted.  Every history is
        unchanged, every hashX ends up in the fewest rows, and a second compaction changes no
        row. */
    method Compact(limit: nat)
      requires maxHistRowEntries > 0 && Valid() && unflushed == map[] && limit > 0
      requires compCursor == -1 || (Compacting() && compCursor < PREFIXES)
      modifies `rows, `flushCount, `compFlushCount, `compCursor
      ensures Valid() && compCursor == -1 && compFlushCount == -1
      ensures forall h :: Flushed(h) == old(Flushed(h))
      ensures AllCompact(rows, Top(), RowSize())
      ensures old(AllCompact(rows, Top(), RowSize())) ==> rows == old(rows)
    {
      hide Pass, Prefix, Chunks, Joined, AllCompact, Narrow, CompactBelow, TxNums, Recorded, IsCompact;
      StartCompaction();
      while compCursor != -1
        invariant Valid() && (compCursor == -1 || (Compacting() && compCursor < PREFIXES))
        invariant forall h :: Flushed(h) == old(Flushed(h))
        invariant compCursor == -1 ==> compFlushCount == -1 && AllCompact(rows, Top(), RowSize())
        invariant old(AllCompact(rows, Top(), RowSize())) ==> rows == old(rows) && AllCompact(rows, Top(), RowSize())
        decreases if compCursor == -1 then 0 else PREFIXES + 1 - compCursor
      {
        ghost var before := Top();
        var _ := CompactHistory(limit);
        if old(AllCompact(rows, Top(), RowSize())) {
          SameTop(rows, before, Top(), RowSize());
        }
      }
    }

    /** Opening the database other than for compaction drops an unfinished compaction.  What is
        left is sound exactly when no row was given an id above the flush count. */
    method CancelCompaction()
      requires Valid() && unflushed == map[]
      modifies `compFlushCount, `compCursor
      ensures old(compCursor) == -1 ==> compCursor == -1 && compFlushCount == old(compFlushCount)
      ensures old(compCursor) != -1 ==> compCursor == -1 && compFlushCount == -1
      ensures old(compCursor) != -1 ==> (Valid() <==> IdsBelow(rows, flushCount + 1))
    {
      hide TxNums, Joined, Recorded;
      ghost var top := Top();
      if compCursor != -1 {
        compFlushCount, compCursor := -1, -1;
        if IdsBelow(rows, flushCount + 1) {
          forall h
            ensures Recorded(All(h), next)
          {
            assert Recorded(old(All(h)), next);
            JoinedTops(rows, h, top, Top());
          }
          ValidIf();
        }
      }
    }

    lemma ValidIf()
      requires WellFormed(rows) && IdsBelow(rows, Top()) && WholeNumbers(unflushed) && forall h :: Recorded(All(h), next)
      ensures Valid()
    {
      hide TxNums, Joined, Recorded;
      forall h
        ensures Recorded(TxNums(Joined(rows, h, Top())) + TxNums(BytesOr(unflushed, h)), next)
      {
        assert Recorded(All(h), next);
      }
    }

    lemma EmptyNums(b: Bytes)
      requires b == []
      ensures TxNums(b) == [] && forall s: seq<nat> :: s + TxNums(b) == s
    {
    }
  }

  // ----- Compaction -----

  /** The chunk count of each hashX in `done` fits the compaction flush count. */
  ghost predicate Narrow(rows: Rows, done: set<Bytes>, top: nat, count: int, size: nat)
    requires size > 0
  {
    forall h :: h in done ==> |Chunks(Joined(rows, h, top), size)| <= count + 1
  }

  /** Every hashX whose prefix is below the cursor is compact and narrow. */
  ghost predicate CompactBelow(rows: Rows, top: nat, size: nat, cursor: int, count: int)
    requires size > 0
  {
    forall h :: Prefix(h) < cursor ==>
      IsCompact(rows, h, Joined(rows, h, top), size) && |Chunks(Joined(rows, h, top), size)| <= count + 1
  }

  lemma NothingBelowZero(rows: Rows, top: nat, size: nat, count: int)
    requires size > 0
    ensures CompactBelow(rows, top, size, 0, count)
  {
  }

  ghost predicate AllCompact(rows: Rows, top: nat, size: nat)
    requires size > 0
  {
    forall h :: IsCompact(rows, h, Joined(rows, h, top), size)
  }

  lemma StartPass(rows: Rows, top: nat, size: nat, count: int)
    requires size > 0 && WellFormed(rows)
    ensures Pass(rows, {}, map[], {}, top, size) && Narrow(rows, {}, top, count, size)
  {
    assert Applied(rows, {}, map[]) == rows;
  }

  /** A bound on the ids does not change what the rows spell. */
  lemma JoinedTops(rows: Rows, hashX: Bytes, a: nat, b: nat)
    requires IdsBelow(rows, a) && IdsBelow(rows, b)
    ensures Joined(rows, hashX, a) == Joined(rows, hashX, b)
  {
    JoinedBeyond(rows, hashX, if a < b then a else b, if a < b then b else a);
  }

  lemma SameTop(rows: Rows, a: nat, b: nat, size: nat)
    requires size > 0 && IdsBelow(rows, a) && IdsBelow(rows, b)
    ensures AllCompact(rows, a, size) <==> AllCompact(rows, b, size)
  {
    hide IsCompact, Joined;
    forall h
      ensures Joined(rows, h, a) == Joined(rows, h, b)
    {
      JoinedTops(rows, h, a, b);
    }
    if AllCompact(rows, a, size) {
      forall h ensures IsCompact(rows, h, Joined(rows, h, b), size) {
        assert IsCompact(rows, h, Joined(rows, h, a), size);
      }
    }
    if AllCompact(rows, b, size) {
      forall h ensures IsCompact(rows, h, Joined(rows, h, a), size) {
        assert IsCompact(rows, h, Joined(rows, h, b), size);
      }
    }
  }

  lemma WiderCount(rows: Rows, top: nat, top': nat, size: nat, cursor: int, count: int, count': int)
    requires size > 0 && IdsBelow(rows, top) && top <= top' && count <= count'
    requires CompactBelow(rows, top, size, cursor, count)
    ensures CompactBelow(rows, top', size, cursor, count')
  {
    hide IsCompact, Joined, Prefix, Chunks;
    forall h | Prefix(h) < cursor
      ensures IsCompact(rows, h, Joined(rows, h, top'), size) && |Chunks(Joined(rows, h, top'), size)| <= count' + 1
    {
      JoinedTops(rows, h, top, top');
    }
  }

  /** What a pass has done by the time its batch is applied, for one hashX. */
  lemma PassHashX(rows: Rows, deletes: set<RowKey>, writes: Rows, done: set<Bytes>, top: nat, size: nat,
                  from: int, to: int, count0: int, count: int, h: Bytes)
    requires size > 0 && WellFormed(rows) && IdsBelow(rows, top) && 0 <= count0 <= count
    requires CompactBelow(rows, top, size, from, count0)
    requires Pass(rows, deletes, writes, done, top, size) && Narrow(rows, done, top, count, size)
    requires forall g :: g in done ==> from <= Prefix(g) < to
    requires forall k :: k in rows && from <= Prefix(k.hashX) < to ==> k.hashX in done
    ensures Prefix(h) < to ==>
              && IsCompact(Applied(rows, deletes, writes), h, Joined(rows, h, top), size)
              && |Chunks(Joined(rows, h, top), size)| <= count + 1
    ensures Prefix(h) >= to ==> forall id: nat :: RowOr(Applied(rows, deletes, writes), h, id) == RowOr(rows, h, id)
  {
    hide Joined, Prefix, Chunks;
    var rows' := Applied(rows, deletes, writes);
    if h !in done {
      assert forall id: nat :: RowOr(rows', h, id) == RowOr(rows, h, id);
      if Prefix(h) < from {
        assert IsCompact(rows, h, Joined(rows, h, top), size);
      } else if Prefix(h) < to {
        NoRowsCompact(rows, rows', h, top, size);
      }
    }
  }

  lemma NoRowsCompact(rows: Rows, rows': Rows, h: Bytes, top: nat, size: nat)
    requires size > 0 && (forall id: nat :: RowKey(h, id) !in rows && RowOr(rows', h, id) == [])
    ensures Joined(rows, h, top) == [] && |Chunks([], size)| == 0 && IsCompact(rows', h, [], size)
  {
    JoinedBeyond(rows, h, 0, top);
  }

  /** Row ids after a pass. */
  lemma PassIds(rows: Rows, deletes: set<RowKey>, writes: Rows, done: set<Bytes>, top: nat, size: nat,
                from: int, to: int, count0: int, count: int, top': nat)
    requires size > 0 && WellFormed(rows) && IdsBelow(rows, top) && 0 <= count0 <= count
    requires CompactBelow(rows, top, size, from, count0)
    requires Pass(rows, deletes, writes, done, top, size) && Narrow(rows, done, top, count, size)
    requires forall g :: g in done ==> from <= Prefix(g) < to
    requires forall k :: k in rows && from <= Prefix(k.hashX) < to ==> k.hashX in done
    requires count + 1 <= top' && (top <= top' || to == PREFIXES)
    ensures WellFormed(Applied(rows, deletes, writes)) && IdsBelow(Applied(rows, deletes, writes), top')
  {
    hide Joined, Prefix, Chunks, CompactBelow, Narrow;
    var rows' := Applied(rows, deletes, writes);
    assert WellFormed(rows');
    forall k | k in rows'
      ensures k.id < top'
    {
      PassHashX(rows, deletes, writes, done, top, size, from, to, count0, count, k.hashX);
      assert RowKey(k.hashX, k.id) == k && |RowOr(rows', k.hashX, k.id)| > 0;
      if Prefix(k.hashX) < to {
        assert RowOr(rows', k.hashX, k.id) == ChunkAt(Joined(rows, k.hashX, top), size, k.id);
      } else {
        assert RowOr(rows, k.hashX, k.id) == RowOr(rows', k.hashX, k.id);
      }
    }
  }

  lemma PassJoined(rows: Rows, deletes: set<RowKey>, writes: Rows, done: set<Bytes>, top: nat, size: nat,
                   from: int, to: int, count0: int, count: int, top': nat, h: Bytes)
    requires size > 0 && WellFormed(rows) && IdsBelow(rows, top) && 0 <= count0 <= count
    requires CompactBelow(rows, top, size, from, count0)
    requires Pass(rows, deletes, writes, done, top, size) && Narrow(rows, done, top, count, size)
    requires forall g :: g in done ==> from <= Prefix(g) < to
    requires forall k :: k in rows && from <= Prefix(k.hashX) < to ==> k.hashX in done
    requires count + 1 <= top' && (top <= top' || to == PREFIXES)
    ensures Joined(Applied(rows, deletes, writes), h, top') == Joined(rows, h, top)
  {
    hide Joined, Prefix, Chunks, CompactBelow, Narrow, Pass, IsCompact;
    var rows' := Applied(rows, deletes, writes);
    PassIds(rows, deletes, writes, done, top, size, from, to, count0, count, top');
    PassHashX(rows, deletes, writes, done, top, size, from, to, count0, count, h);
    if Prefix(h) < to {
      CompactJoined(rows', h, Joined(rows, h, top), size, top');
    } else {
      JoinedSame(rows', rows, h, top');
      JoinedBeyond(rows, h, top, top');
    }
  }

  /** The state after a pass that went from prefix `from` up to `to`. */
  lemma PassResult(rows: Rows, deletes: set<RowKey>, writes: Rows, done: set<Bytes>, top: nat, size: nat,
                   from: int, to: int, count0: int, count: int, top': nat)
    requires size > 0 && WellFormed(rows) && IdsBelow(rows, top) && 0 <= count0 <= count
    requires CompactBelow(rows, top, size, from, count0)
    requires Pass(rows, deletes, writes, done, top, size) && Narrow(rows, done, top, count, size)
    requires forall g :: g in done ==> from <= Prefix(g) < to
    requires forall k :: k in rows && from <= Prefix(k.hashX) < to ==> k.hashX in done
    requires count + 1 <= top' && (top <= top' || to == PREFIXES)
    ensures var rows' := Applied(rows, deletes, writes);
            && WellFormed(rows') && IdsBelow(rows', top')
            && (forall h :: Joined(rows', h, top') == Joined(rows, h, top))
            && CompactBelow(rows', top', size, to, count)
            && (to == PREFIXES ==> AllCompact(rows', top', size))
            && (deletes == {} && writes == map[] ==> rows' == rows)
  {
    hide Joined, Prefix, Chunks, Narrow, Pass, IsCompact;
    var rows' := Applied(rows, deletes, writes);
    PassIds(rows, deletes, writes, done, top, size, from, to, count0, count, top');
    forall h
      ensures Joined(rows', h, top') == Joined(rows, h, top)
    {
      PassJoined(rows, deletes, writes, done, top, size, from, to, count0, count, top', h);
    }
    forall h | Prefix(h) < to
      ensures IsCompact(rows', h, Joined(rows', h, top'), size) && |Chunks(Joined(rows', h, top'), size)| <= count + 1
    {
      PassHashX(rows, deletes, writes, done, top, size, from, to, count0, count, h);
    }
  }

  lemma FullNonempty(rows: Rows, hashX: Bytes, top: nat)
    requires WellFormed(rows) && IdsBelow(rows, top) && exists k :: k in rows && k.hashX == hashX
    ensures Joined(rows, hashX, top) != [] && |Joined(rows, hashX, top)| % 5 == 0
  {
    var k :| k in rows && k.hashX == hashX;
    JoinedPrefix(rows, hashX, k.id + 1, top);
    JoinedWhole(rows, hashX, top);
    assert RowKey(hashX, k.id) == k;
    assert |RowOr(rows, hashX, k.id)| > 0;
  }

  lemma PassKeys(rows: Rows, deletes: set<RowKey>, writes: Rows, done: set<Bytes>, top: nat, size: nat, hashX: Bytes)
    requires size > 0 && Pass(rows, deletes, writes, done, top, size) && hashX !in done
    ensures forall id: nat :: RowKey(hashX, id) !in deletes
  {
  }

  lemma FirstChunk(b: Bytes, size: nat)
    requires size > 0 && b != []
    ensures var c := if |b| <= size then b else b[..size];
            Chunks(b, size)[0] == c && Chunks(b, size)[1..] == Chunks(b[|c|..], size)
  {
    assert |b| <= size ==> b[|b|..] == [];
  }

  lemma NoChunks(size: nat)
    requires size > 0
    ensures Chunks([], size) == []
  {
  }

  lemma CompactHasRow(rows: Rows, hashX: Bytes, full: Bytes, size: nat, n: nat)
    requires size > 0 && n < |Chunks(full, size)|
    ensures IsCompact(rows, hashX, full, size) ==>
              RowKey(hashX, n) in rows && rows[RowKey(hashX, n)] == ChunkAt(full, size, n)
  {
    hide Chunks;
    if IsCompact(rows, hashX, full, size) {
      assert RowOr(rows, hashX, n) == ChunkAt(full, size, n);
    }
  }

  lemma CompactHasNoMore(rows: Rows, hashX: Bytes, full: Bytes, size: nat, n: nat)
    requires size > 0 && n >= |Chunks(full, size)| && WellFormed(rows)
    ensures IsCompact(rows, hashX, full, size) ==> (set k | k in rows && k.hashX == hashX && k.id >= n) == {}
  {
    hide Chunks;
    if IsCompact(rows, hashX, full, size) {
      forall k | k in rows && k.hashX == hashX
        ensures k.id < n
      {
        assert RowOr(rows, hashX, k.id) == ChunkAt(full, size, k.id);
        assert RowKey(hashX, k.id) == k;
      }
    }
  }

  // ----- Listing -----

  /** What the iterator yields from its `k`-th id on. */
  function RowsFrom(rows: Rows, hashX: Bytes, top: nat, k: nat, reverse: bool): seq<nat>
    requires k <= top
    decreases top - k
  {
    if k == top then []
    else
      Ordered(TxNums(RowOr(rows, hashX, if reverse then top - 1 - k else k)), reverse)
      + RowsFrom(rows, hashX, top, k + 1, reverse)
  }

  lemma TakeOne(whole: seq<nat>, r: seq<nat>, nums: seq<nat>, i: nat, rest: seq<nat>)
    requires i < |nums| && whole == r + nums[i..] + rest
    ensures whole == r + [nums[i]] + nums[i + 1..] + rest
  {
    assert nums[i..] == [nums[i]] + nums[i + 1..];
  }

  lemma LimitReached(whole: seq<nat>, r: seq<nat>, more: seq<nat>, rest: seq<nat>, limit: int)
    requires whole == r + more + rest && limit == |r|
    ensures Limited(whole, limit) == r
  {
  }

  lemma NoLimit(whole: seq<nat>, r: seq<nat>, limit: int)
    requires whole == r + [] && (limit >= 0 ==> |r| <= limit)
    ensures Limited(whole, limit) == r
  {
  }

  lemma NextRow(rows: Rows, hashX: Bytes, top: nat, k: nat, reverse: bool)
    requires k < top
    ensures var id := if reverse then top - 1 - k else k;
            RowsFrom(rows, hashX, top, k, reverse)
            == (if RowKey(hashX, id) in rows then Ordered(TxNums(rows[RowKey(hashX, id)]), reverse) else [])
               + RowsFrom(rows, hashX, top, k + 1, reverse)
  {
    assert TxNums([]) == [];
  }

  lemma LastRow(rows: Rows, hashX: Bytes, top: nat, reverse: bool)
    ensures RowsFrom(rows, hashX, top, top, reverse) == []
  {
  }

  lemma {:induction false} ReverseConcat(a: seq<nat>, b: seq<nat>)
    ensures Reverse(a + b) == Reverse(b) + Reverse(a)
  {
    if a == [] {
      assert a + b == b;
      assert Reverse(b) + [] == Reverse(b);
    } else {
      assert (a + b)[1..] == a[1..] + b;
      ReverseConcat(a[1..], b);
    }
  }

  lemma {:induction false} RowsFromForward(rows: Rows, hashX: Bytes, top: nat, k: nat)
    requires k <= top && WellFormed(rows)
    ensures TxNums(Joined(rows, hashX, k)) + RowsFrom(rows, hashX, top, k, false) == TxNums(Joined(rows, hashX, top))
    decreases top - k
  {
    hide TxNums;
    if k < top {
      RowsFromForward(rows, hashX, top, k + 1);
      JoinedWhole(rows, hashX, k);
      TxNumsConcat(Joined(rows, hashX, k), RowOr(rows, hashX, k));
    }
  }

  lemma {:induction false} RowsFromBackward(rows: Rows, hashX: Bytes, top: nat, k: nat)
    requires k <= top && WellFormed(rows)
    ensures RowsFrom(rows, hashX, top, k, true) == Reverse(TxNums(Joined(rows, hashX, top - k)))
    decreases top - k
  {
    hide TxNums, Reverse;
    if k < top {
      var id := top - 1 - k;
      RowsFromBackward(rows, hashX, top, k + 1);
      JoinedWhole(rows, hashX, id);
      TxNumsConcat(Joined(rows, hashX, id), RowOr(rows, hashX, id));
      ReverseConcat(TxNums(Joined(rows, hashX, id)), TxNums(RowOr(rows, hashX, id)));
    } else {
      NoNums();
    }
  }

  lemma NoNums()
    ensures TxNums([]) == [] && Reverse([]) == []
  {
  }

  lemma RowsFromAll(rows: Rows, hashX: Bytes, top: nat, reverse: bool)
    requires WellFormed(rows)
    ensures RowsFrom(rows, hashX, top, 0, reverse) == Ordered(TxNums(Joined(rows, hashX, top)), reverse)
  {
    NoNums();
    assert Joined(rows, hashX, 0) == [];
    RowsFromForward(rows, hashX, top, 0);
    RowsFromBackward(rows, hashX, top, 0);
  }

  // ----- Clearing the rows of an unfinished flush -----

  function UpTo(rows: Rows, id: nat): Rows {
    map k | k in rows && k.id <= id :: rows[k]
  }

  /** The rows kept spell the part of the history that those ids spelled before. */
  lemma ClearedRows(rows: Rows, rows': Rows, hashX: Bytes, id: nat, top': nat, top: nat)
    requires rows' == UpTo(rows, id) && id < top' <= top
    ensures Joined(rows', hashX, top') == Joined(rows', hashX, top) == Joined(rows, hashX, id + 1)
  {
    JoinedSame(rows', rows, hashX, id + 1);
    JoinedBeyond(rows', hashX, id + 1, top');
    JoinedBeyond(rows', hashX, id + 1, top);
  }

  // ----- The steps of backing up -----

  lemma SkipRow(rows: Rows, hashX: Bytes, id: nat)
    requires RowKey(hashX, id) !in rows
    ensures Joined(rows, hashX, id + 1) == Joined(rows, hashX, id)
  {
  }

  lemma RecordedParts(a: seq<nat>, b: seq<nat>, next: nat)
    requires Recorded(a + b, next)
    ensures Recorded(a, next) && Recorded(b, next)
    ensures b != [] ==> forall i :: 0 <= i < |a| ==> a[i] < b[0]
  {
    var s := a + b;
    assert forall i :: 0 <= i < |a| ==> s[i] == a[i];
    assert forall i :: 0 <= i < |b| ==> s[|a| + i] == b[i];
  }

  lemma RecordedPrefix(rows: Rows, hashX: Bytes, id: nat, top: nat, next: nat)
    requires WellFormed(rows) && id < top && Recorded(TxNums(Joined(rows, hashX, top)), next)
    ensures Recorded(TxNums(Joined(rows, hashX, id + 1)), next)
    ensures TxNums(Joined(rows, hashX, id + 1)) == TxNums(Joined(rows, hashX, id)) + TxNums(RowOr(rows, hashX, id))
  {
    hide TxNums, Recorded;
    var whole, front := Joined(rows, hashX, top), Joined(rows, hashX, id + 1);
    JoinedPrefix(rows, hashX, id + 1, top);
    JoinedWhole(rows, hashX, id + 1);
    JoinedWhole(rows, hashX, id);
    assert whole == front + whole[|front|..];
    TxNumsConcat(front, whole[|front|..]);
    RecordedParts(TxNums(front), TxNums(whole[|front|..]), next);
    TxNumsConcat(Joined(rows, hashX, id), RowOr(rows, hashX, id));
  }

  /** A row none of whose numbers is kept. */
  lemma DropRow(rows: Rows, hashX: Bytes, id: nat, top: nat, txCount: nat, next: nat)
    requires WellFormed(rows) && id < top && Recorded(TxNums(Joined(rows, hashX, top)), next)
    requires RowKey(hashX, id) in rows && BisectLeft(TxNums(rows[RowKey(hashX, id)]), txCount) == 0
    ensures Below(TxNums(Joined(rows, hashX, id + 1)), txCount) == Below(TxNums(Joined(rows, hashX, id)), txCount)
  {
    hide TxNums, Joined, Below, BisectLeft;
    RecordedPrefix(rows, hashX, id, top, next);
    var a, b := TxNums(Joined(rows, hashX, id)), TxNums(RowOr(rows, hashX, id));
    RecordedParts(a, b, next);
    BelowConcat(a, b, txCount);
    BelowIsPrefix(b, txCount);
    assert b[..0] == [] && Below(a, txCount) + [] == Below(a, txCount);
  }

  /** A row that keeps its first `idx` numbers: every older row is kept whole. */
  lemma CutRow(rows: Rows, hashX: Bytes, id: nat, top: nat, idx: nat, txCount: nat, next: nat)
    requires WellFormed(rows) && id < top && Recorded(TxNums(Joined(rows, hashX, top)), next)
    requires RowKey(hashX, id) in rows && 0 < idx == BisectLeft(TxNums(rows[RowKey(hashX, id)]), txCount)
    ensures 5 * idx <= |rows[RowKey(hashX, id)]|
    ensures TxNums(Joined(rows, hashX, id) + rows[RowKey(hashX, id)][..5 * idx])
            == Below(TxNums(Joined(rows, hashX, id + 1)), txCount)
  {
    hide TxNums, Joined, Below, BisectLeft;
    RecordedPrefix(rows, hashX, id, top, next);
    var row := rows[RowKey(hashX, id)];
    var a, b := TxNums(Joined(rows, hashX, id)), TxNums(row);
    RecordedParts(a, b, next);
    BelowConcat(a, b, txCount);
    BelowAll(a, txCount);
    BelowIsPrefix(b, txCount);
    JoinedWhole(rows, hashX, id);
    TxNumsConcat(Joined(rows, hashX, id), row[..5 * idx]);
    TxNumsTake(row, idx);
  }

  lemma CutJoined(rows: Rows, batch: Rows, hashX: Bytes, id: nat, top: nat, n: nat)
    requires id < top && RowKey(hashX, id) in rows && n <= |rows[RowKey(hashX, id)]|
    requires RowKey(hashX, id) in batch && batch[RowKey(hashX, id)] == rows[RowKey(hashX, id)][..n]
    requires forall i: nat :: i < id ==> RowOr(batch, hashX, i) == RowOr(rows, hashX, i)
    requires forall i: nat :: id < i < top ==> RowKey(hashX, i) !in batch
    ensures Joined(batch, hashX, top) == Joined(rows, hashX, id) + rows[RowKey(hashX, id)][..n]
  {
    JoinedSame(batch, rows, hashX, id);
    JoinedBeyond(batch, hashX, id + 1, top);
  }

  lemma NothingLeft(rows: Rows, batch: Rows, hashX: Bytes, top: nat, txCount: nat)
    requires forall i: nat :: i < top ==> RowKey(hashX, i) !in batch
    ensures TxNums(Joined(batch, hashX, top)) == Below(TxNums(Joined(rows, hashX, 0)), txCount)
  {
    JoinedBeyond(batch, hashX, 0, top);
  }

  lemma TouchingStep(hashXsByTx: seq<set<Bytes>>, i: nat, first: nat, hashX: Bytes, before: seq<nat>)
    requires i < |hashXsByTx|
    ensures before + Touching(hashXsByTx[i..], first, hashX)
            == (if hashX in hashXsByTx[i] then before + [first] else before) + Touching(hashXsByTx[i + 1..], first + 1, hashX)
  {
    assert hashXsByTx[i..][0] == hashXsByTx[i] && hashXsByTx[i..][1..] == hashXsByTx[i + 1..];
    var rest := Touching(hashXsByTx[i + 1..], first + 1, hashX);
    assert before + ([first] + rest) == before + [first] + rest;
    assert before + ([] + rest) == before + rest;
  }

  lemma NoneTouching(first: nat, hashX: Bytes, before: seq<nat>)
    ensures before + Touching([], first, hashX) == before
  {
  }

  /** A row under an id above all others appends to the history. */
  lemma FlushAppends(rows: Rows, rows': Rows, hashX: Bytes, id: nat, data: Bytes)
    requires WellFormed(rows)
    requires forall i: nat :: i < id ==> RowOr(rows', hashX, i) == RowOr(rows, hashX, i)
    requires RowOr(rows', hashX, id) == data
    ensures TxNums(Joined(rows', hashX, id + 1)) == TxNums(Joined(rows, hashX, id)) + TxNums(data)
  {
    hide TxNums;
    JoinedSame(rows', rows, hashX, id);
    JoinedWhole(rows, hashX, id);
    TxNumsConcat(Joined(rows, hashX, id), data);
  }

  predicate WholeNumbers(unflushed: map<Bytes, Bytes>) {
    forall h :: h in unflushed ==> |unflushed[h]| > 0 && |unflushed[h]| % 5 == 0
  }

  ghost predicate Extended(before: map<Bytes, Bytes>, now: map<Bytes, Bytes>, hashXs: set<Bytes>, txNumb: Bytes) {
    forall h :: BytesOr(now, h) == if h in hashXs then BytesOr(before, h) + txNumb else BytesOr(before, h)
  }

  lemma ExtendedNone(before: map<Bytes, Bytes>, txNumb: Bytes)
    ensures Extended(before, before, {}, txNumb)
  {
  }

  lemma ExtendedStep(before: map<Bytes, Bytes>, now: map<Bytes, Bytes>, hashXs: set<Bytes>, txNumb: Bytes, hashX: Bytes)
    requires Extended(before, now, hashXs, txNumb) && hashX !in hashXs && WholeNumbers(now) && |txNumb| == 5
    ensures var now' := now[hashX := BytesOr(now, hashX) + txNumb];
            Extended(before, now', hashXs + {hashX}, txNumb) && WholeNumbers(now')
  {
  }

  /** What `Valid` says, on values. */
  ghost predicate Sound(rows: Rows, top: nat, unflushed: map<Bytes, Bytes>, next: nat) {
    && WellFormed(rows) && IdsBelow(rows, top) && WholeNumbers(unflushed)
    && forall h {:trigger BytesOr(unflushed, h)} {:trigger Joined(rows, h, top)} :: Recorded(TxNums(Joined(rows, h, top)) + TxNums(BytesOr(unflushed, h)), next)
  }

  lemma ValidMore(
      rows: Rows, top: nat, before: map<Bytes, Bytes>, now: map<Bytes, Bytes>, next: nat, hashXsByTx: seq<set<Bytes>>, first: nat)
    requires Sound(rows, top, before, next) && next <= first && WholeNumbers(now)
    requires forall h :: TxNums(BytesOr(now, h)) == TxNums(BytesOr(before, h)) + Touching(hashXsByTx, first, h)
    ensures Sound(rows, top, now, first + |hashXsByTx|)
    ensures forall h :: TxNums(Joined(rows, h, top)) + TxNums(BytesOr(now, h))
                        == TxNums(Joined(rows, h, top)) + TxNums(BytesOr(before, h)) + Touching(hashXsByTx, first, h)
  {
    hide TxNums, Joined, Touching, BytesOr, WholeNumbers, WellFormed, IdsBelow;
    forall h
      ensures Recorded(TxNums(Joined(rows, h, top)) + TxNums(BytesOr(now, h)), first + |hashXsByTx|)
      ensures TxNums(Joined(rows, h, top)) + TxNums(BytesOr(now, h))
              == TxNums(Joined(rows, h, top)) + TxNums(BytesOr(before, h)) + Touching(hashXsByTx, first, h)
    {
      var a, b, t := TxNums(Joined(rows, h, top)), TxNums(BytesOr(before, h)), Touching(hashXsByTx, first, h);
      assert Recorded(a + b, next);
      assert a + (b + t) == a + b + t;
      TouchingFrom(hashXsByTx, first, h);
    }
  }

  lemma FlushedRowsAre(rows: Rows, unflushed: map<Bytes, Bytes>, id: nat, batch: Rows)
    requires forall k :: k in batch <==> k in rows || (k.id == id && k.hashX in unflushed)
    requires forall k :: k in rows && !(k.id == id && k.hashX in unflushed) ==> batch[k] == rows[k]
    requires forall h :: h in unflushed ==> batch[RowKey(h, id)] == unflushed[h]
    ensures batch == FlushedRows(rows, unflushed, id)
  {
    var all := FlushedRows(rows, unflushed, id);
    forall k
      ensures k in batch <==> k in all
      ensures k in batch ==> batch[k] == all[k]
    {
      if k.id == id && k.hashX in unflushed {
        assert k == RowKey(k.hashX, id);
      }
    }
  }

  lemma ValidFlushed(rows: Rows, unflushed: map<Bytes, Bytes>, count: nat, next: nat, top: nat)
    requires Sound(rows, top, unflushed, next) && top == count + 1
    ensures var rows' := FlushedRows(rows, unflushed, count + 1);
            && Sound(rows', count + 2, map[], next)
            && forall h :: TxNums(Joined(rows', h, count + 2)) == TxNums(Joined(rows, h, top)) + TxNums(BytesOr(unflushed, h))
                           == TxNums(Joined(rows', h, count + 2)) + TxNums(BytesOr(map[], h))
  {
    hide TxNums, Joined, Recorded;
    var rows' := FlushedRows(rows, unflushed, count + 1);
    forall h
      ensures TxNums(Joined(rows', h, count + 2)) == TxNums(Joined(rows, h, top)) + TxNums(BytesOr(unflushed, h))
              == TxNums(Joined(rows', h, count + 2)) + TxNums(BytesOr(map[], h))
    {
      assert RowKey(h, count + 1) !in rows;
      FlushAppends(rows, rows', h, count + 1, BytesOr(unflushed, h));
      NoneUnflushed(TxNums(Joined(rows', h, count + 2)), h);
    }
    forall h
      ensures Recorded(TxNums(Joined(rows', h, count + 2)) + TxNums(BytesOr(map[], h)), next)
    {
      assert Recorded(TxNums(Joined(rows, h, top)) + TxNums(BytesOr(unflushed, h)), next);
    }
  }

  lemma NoneUnflushed(s: seq<nat>, h: Bytes)
    ensures s + TxNums(BytesOr(map[], h)) == s
  {
    assert TxNums([]) == [];
  }

  // ----- When a flush under a given id appends, and when it does not -----

  lemma {:induction false} JoinedSplit(rows: Rows, hashX: Bytes, id: nat, top: nat) returns (rest: Bytes)
    requires id < top && WellFormed(rows)
    ensures Joined(rows, hashX, top) == Joined(rows, hashX, id) + RowOr(rows, hashX, id) + rest
    ensures |rest| % 5 == 0
    ensures forall data :: Joined(rows[RowKey(hashX, id) := data], hashX, top) == Joined(rows, hashX, id) + data + rest
    ensures rest == [] <==> forall i: nat :: id < i < top ==> RowKey(hashX, i) !in rows
    decreases top
  {
    hide Joined;
    JoinedLast(rows, hashX, top - 1);
    if top == id + 1 {
      rest := [];
      assert Joined(rows, hashX, top) + [] == Joined(rows, hashX, top);
    } else {
      rest := JoinedSplit(rows, hashX, id, top - 1);
      var last := RowOr(rows, hashX, top - 1);
      var a, b := Joined(rows, hashX, id), RowOr(rows, hashX, id);
      assert a + b + rest + last == a + b + (rest + last);
      rest := rest + last;
    }
    forall data
      ensures Joined(rows[RowKey(hashX, id) := data], hashX, top) == Joined(rows, hashX, id) + data + rest
    {
      SplitWith(rows, hashX, id, top, data, rest, if top == id + 1 then [] else rest[..|rest| - |RowOr(rows, hashX, top - 1)|]);
    }
  }

  lemma SplitWith(rows: Rows, hashX: Bytes, id: nat, top: nat, data: Bytes, rest: Bytes, before: Bytes)
    requires id < top
    requires top == id + 1 ==> rest == []
    requires top > id + 1 ==>
               && rest == before + RowOr(rows, hashX, top - 1)
               && Joined(rows[RowKey(hashX, id) := data], hashX, top - 1) == Joined(rows, hashX, id) + data + before
    ensures Joined(rows[RowKey(hashX, id) := data], hashX, top) == Joined(rows, hashX, id) + data + rest
  {
    hide Joined;
    var rows' := rows[RowKey(hashX, id) := data];
    JoinedLast(rows', hashX, top - 1);
    if top == id + 1 {
      JoinedSame(rows', rows, hashX, id);
      assert Joined(rows, hashX, id) + data + [] == Joined(rows, hashX, id) + data;
    } else {
      assert Joined(rows, hashX, id) + data + before + RowOr(rows, hashX, top - 1)
             == Joined(rows, hashX, id) + data + (before + RowOr(rows, hashX, top - 1));
    }
  }

  /** Writing a row of new numbers under `id` appends them to the history exactly when no row of
      the hashX has that id or a higher one. */
  lemma FlushAppendsIff(rows: Rows, hashX: Bytes, id: nat, top: nat, data: Bytes, next: nat)
    requires WellFormed(rows) && IdsBelow(rows, top) && id < top && |data| > 0 && |data| % 5 == 0
    requires Recorded(TxNums(Joined(rows, hashX, top)) + TxNums(data), next)
    ensures TxNums(Joined(rows[RowKey(hashX, id) := data], hashX, top)) == TxNums(Joined(rows, hashX, top)) + TxNums(data)
            <==> forall i: nat :: id <= i ==> RowKey(hashX, i) !in rows
  {
    hide TxNums, Joined, Recorded, IdsBelow, WellFormed;
    var rest := JoinedSplit(rows, hashX, id, top);
    var a, b := Joined(rows, hashX, id), RowOr(rows, hashX, id);
    JoinedWhole(rows, hashX, id);
    WholeRow(rows, hashX, id);
    ThreeParts(a, b, rest);
    ThreeParts(a, data, rest);
    NoNumsIff(b);
    NoNumsIff(rest);
    NoNumsIff(data);
    Shuffle(TxNums(a), TxNums(b), TxNums(rest), TxNums(data), next);
    NoRowsFrom(rows, hashX, id, top, rest);
  }

  lemma WholeRow(rows: Rows, hashX: Bytes, id: nat)
    requires WellFormed(rows)
    ensures |RowOr(rows, hashX, id)| % 5 == 0 && (RowOr(rows, hashX, id) == [] <==> RowKey(hashX, id) !in rows)
  {
  }

  lemma ThreeParts(a: Bytes, b: Bytes, c: Bytes)
    requires |a| % 5 == 0 && |b| % 5 == 0
    ensures TxNums(a + b + c) == TxNums(a) + TxNums(b) + TxNums(c)
  {
    hide TxNums;
    FivesAdd(|a|, |b|);
    TxNumsConcat(a + b, c);
    TxNumsConcat(a, b);
  }

  lemma FivesAdd(x: nat, y: nat)
    requires x % 5 == 0 && y % 5 == 0
    ensures (x + y) % 5 == 0
  {
  }

  lemma NoNumsIff(b: Bytes)
    requires |b| % 5 == 0
    ensures TxNums(b) == [] <==> b == []
  {
    hide TxNums;
    assert |TxNums(b)| == |b| / 5;
  }

  lemma NoRowsFrom(rows: Rows, hashX: Bytes, id: nat, top: nat, rest: Bytes)
    requires IdsBelow(rows, top) && id < top
    requires rest == [] <==> forall i: nat :: id < i < top ==> RowKey(hashX, i) !in rows
    ensures (RowKey(hashX, id) !in rows && rest == []) <==> forall i: nat :: id <= i ==> RowKey(hashX, i) !in rows
  {
    if forall i: nat :: id < i < top ==> RowKey(hashX, i) !in rows {
      assert forall i: nat :: RowKey(hashX, i) in rows ==> i < top;
    }
  }

  lemma Shuffle(a: seq<nat>, b: seq<nat>, c: seq<nat>, d: seq<nat>, next: nat)
    requires d != [] && Recorded(a + b + c + d, next)
    ensures a + d + c == a + b + c + d <==> b == [] && c == []
  {
    var s := a + b + c + d;
    if b == [] && c == [] {
      assert a + d + c == s;
    } else if b != [] {
      assert |a + d + c| < |s|;
    } else {
      assert s[|a|] == c[0] && s[|a| + |c|] == d[0];
      assert (a + d + c)[|a|] == d[0];
    }
  }

  // ----- A compaction that is interrupted and cancelled -----

  /** A hashX for which a pass writes nothing was compact. */
  lemma NothingWritten(rows: Rows, deletes: set<RowKey>, done: set<Bytes>, top: nat, size: nat, prefix: nat)
    requires size > 0 && Pass(rows, deletes, map[], done, top, size) && WellFormed(rows) && IdsBelow(rows, top)
    requires forall k :: k in rows && Prefix(k.hashX) == prefix ==> k.hashX in done
    ensures forall h :: Prefix(h) == prefix ==> IsCompact(rows, h, Joined(rows, h, top), size)
  {
    hide Prefix, Pass, IsCompact, Joined;
    forall h | Prefix(h) == prefix
      ensures IsCompact(rows, h, Joined(rows, h, top), size)
    {
      if h in done {
        OneNotWritten(rows, deletes, done, top, size, h);
      } else {
        RowlessIsCompact(rows, top, size, h);
      }
    }
  }

  lemma RowlessIsCompact(rows: Rows, top: nat, size: nat, h: Bytes)
    requires size > 0 && forall id: nat :: RowKey(h, id) !in rows
    ensures IsCompact(rows, h, Joined(rows, h, top), size)
  {
    JoinedBeyond(rows, h, 0, top);
  }

  lemma OneNotWritten(rows: Rows, deletes: set<RowKey>, done: set<Bytes>, top: nat, size: nat, h: Bytes)
    requires size > 0 && Pass(rows, deletes, map[], done, top, size) && h in done && WellFormed(rows) && IdsBelow(rows, top)
    ensures IsCompact(rows, h, Joined(rows, h, top), size)
  {
    hide Chunks, Joined;
    var rows', full := Applied(rows, deletes, map[]), Joined(rows, h, top);
    var wide := top + |Chunks(full, size)|;
    assert IsCompact(rows', h, full, size);
    CompactJoined(rows', h, full, size, wide);
    JoinedBeyond(rows, h, top, wide);
    forall id: nat
      ensures RowOr(rows', h, id) == RowOr(rows, h, id)
    {
      if id < wide {
        NoneMissing(rows, rows', h, wide, id);
      } else {
        assert RowKey(h, id) !in rows;
      }
    }
  }

  /** Rows of which some may be missing, but which are as long together, are all there. */
  lemma {:induction false} NoneMissing(rows: Rows, rows': Rows, h: Bytes, hi: nat, id: nat)
    requires (forall i: nat :: RowOr(rows', h, i) == [] || RowOr(rows', h, i) == RowOr(rows, h, i)) && id < hi
    requires |Joined(rows', h, hi)| == |Joined(rows, h, hi)|
    ensures RowOr(rows', h, id) == RowOr(rows, h, id)
  {
    NotLonger(rows, rows', h, hi - 1);
    if id < hi - 1 {
      NoneMissing(rows, rows', h, hi - 1, id);
    }
  }

  lemma {:induction false} NotLonger(rows: Rows, rows': Rows, h: Bytes, hi: nat)
    requires forall i: nat :: RowOr(rows', h, i) == [] || RowOr(rows', h, i) == RowOr(rows, h, i)
    ensures |Joined(rows', h, hi)| <= |Joined(rows, h, hi)|
  {
    if hi > 0 {
      NotLonger(rows, rows', h, hi - 1);
    }
  }

  /** A pass leaves the rows of the hashXs it did not reach. */
  lemma OthersKept(rows: Rows, deletes: set<RowKey>, writes: Rows, done: set<Bytes>, top: nat, size: nat, cursor: nat)
    requires size > 0 && Pass(rows, deletes, writes, done, top, size) && forall h :: h in done ==> Prefix(h) < cursor
    ensures forall h, id: nat :: Prefix(h) >= cursor ==> RowOr(Applied(rows, deletes, writes), h, id) == RowOr(rows, h, id)
  {
    hide Prefix, IsCompact;
  }

  function Upto(n: nat): (r: seq<nat>)
    ensures |r| == n
  {
    seq(n, i => i)
  }

  /** Every one of `n` transactions touches the hashX. */
  lemma {:induction false} AllTouch(hashX: Bytes, n: nat, first: nat)
    ensures Touching(seq(n, _ => {hashX}), first, hashX) == seq(n, i => first + i)
    decreases n
  {
    var txs := seq(n, _ => {hashX});
    if n > 0 {
      assert txs[1..] == seq(n - 1, _ => {hashX});
      AllTouch(hashX, n - 1, first + 1);
      assert [first] + seq(n - 1, i => first + 1 + i) == seq(n, i => first + i);
    }
  }

  /** Three chunks: two full ones and one number. */
  lemma ThreeChunks(full: Bytes, size: nat)
    requires size >= 5 && |full| == 2 * size + 5
    ensures Chunks(full, size) == [full[..size], full[size..2 * size], full[2 * size..]]
  {
    hide Chunks;
    ChunksCons(full, size);
    var rest := full[size..];
    ChunksCons(rest, size);
    ChunksCons(rest[size..], size);
    assert rest[..size] == full[size..2 * size] && rest[size..] == full[2 * size..];
  }

  /** The row of the next flush in place of the third chunk. */
  lemma ThirdReplaced(rows: Rows, hashX: Bytes, full: Bytes, size: nat, unflushed: map<Bytes, Bytes>, data: Bytes)
    requires size >= 5 && size % 5 == 0 && |full| == 2 * size + 5 && IsCompact(rows, hashX, full, size)
    requires BytesOr(unflushed, hashX) == data != []
    ensures var rows' := FlushedRows(rows, unflushed, 2);
            TxNums(Joined(rows', hashX, 3)) == TxNums(full)[..|TxNums(full)| - 1] + TxNums(data)
  {
    hide TxNums, Chunks, Joined;
    ThreeChunks(full, size);
    var a, b, rest, rows' := full[..size], full[size..2 * size], full[2 * size..], FlushedRows(rows, unflushed, 2);
    assert RowOr(rows, hashX, 0) == ChunkAt(full, size, 0) == a && RowOr(rows, hashX, 1) == ChunkAt(full, size, 1) == b;
    JoinedThree(rows', hashX, a, b, data);
    TxNumsConcat(a + b, data);
    assert full == (a + b) + rest && |rest| == 5;
    TxNumsConcat(a + b, rest);
  }

  lemma JoinedThree(rows: Rows, hashX: Bytes, a: Bytes, b: Bytes, c: Bytes)
    requires RowOr(rows, hashX, 0) == a && RowOr(rows, hashX, 1) == b && RowOr(rows, hashX, 2) == c
    ensures Joined(rows, hashX, 3) == a + b + c
  {
    assert Joined(rows, hashX, 1) == a;
    assert Joined(rows, hashX, 2) == a + b;
  }

  /** A hashX with `2 * entries + 1` numbers, flushed once: its one row has id 1. */
  method FlushedOnce(entries: nat, hashX: Bytes) returns (hist: History)
    requires entries > 0 && 2 * entries + 1 < Range(5)
    ensures fresh(hist) && hist.Valid() && hist.maxHistRowEntries == entries && hist.unflushed == map[]
    ensures hist.flushCount == 1 && hist.compFlushCount == hist.compCursor == -1
    ensures hist.Flushed(hashX) == Upto(2 * entries + 1) && RowOr(hist.rows, hashX, 0) == []
  {
    hide History.Valid, TxNums, Joined, Range, FlushedRows, Touching, WholeNumbers, BytesOr;
    hist := new History(entries);
    NothingRecorded(hist, hashX);
    NoneWhole();
    hist.AddUnflushed(seq(2 * entries + 1, _ => {hashX}), 0);
    AllTouch(hashX, 2 * entries + 1, 0);
    assert seq(2 * entries + 1, i => 0 + i) == Upto(2 * entries + 1);
    ghost var first := hist.unflushed;
    hist.Flush();
    FirstId(first, hashX);
  }

  /** A compaction that is interrupted once it has reached the hashX: three rows of at most `entries`
      numbers, with ids 0, 1 and 2. */
  method CompactedPartly(entries: nat, hashX: Bytes) returns (hist: History)
    requires entries > 0 && Prefix(hashX) < PREFIXES - 1 && 2 * entries + 1 < Range(5)
    ensures fresh(hist) && hist.Valid() && hist.unflushed == map[] && hist.flushCount == 1 && hist.compCursor >= 0
    ensures var full := Joined(hist.rows, hashX, hist.Top());
            && IsCompact(hist.rows, hashX, full, 5 * entries) && |full| == 2 * (5 * entries) + 5
            && TxNums(full) == Upto(2 * entries + 1) && WellFormed(hist.rows)
  {
    hide History.Valid, History.Compacting, TxNums, Joined, Range, Prefix, IsCompact, AllCompact, Chunks, WellFormed;
    hist := FlushedOnce(entries, hashX);
    hist.StartCompaction();
    while hist.compCursor <= Prefix(hashX)
      invariant hist.Valid() && hist.unflushed == map[] && hist.flushCount == 1
      invariant 0 <= hist.compCursor < PREFIXES && hist.Compacting()
      invariant hist.Flushed(hashX) == Upto(2 * entries + 1)
      invariant hist.compCursor <= Prefix(hashX) ==> RowOr(hist.rows, hashX, 0) == []
      decreases PREFIXES - hist.compCursor
    {
      NotCompactYet(hist, hashX, 5 * entries);
      var _ := hist.CompactHistory(1);
    }
    CompactedNow(hist, hashX, entries);
  }

  /** A run: the compaction is cancelled, and the next flush, which has number 2, replaces the last row
      that it wrote: a number is lost. */
  method CancelledCompactionLosesHistory(entries: nat, hashX: Bytes, n: nat) returns (before: seq<nat>, after: seq<nat>)
    requires entries > 0 && Prefix(hashX) < PREFIXES - 1 && 2 * entries + 1 <= n < Range(5)
    ensures before == Upto(2 * entries + 1) && after == Upto(2 * entries) + [n]
  {
    hide History.Valid, TxNums, Joined, Range, Prefix, IsCompact, FlushedRows, Touching, Chunks, WellFormed, WholeNumbers, BytesOr;
    var hist := CompactedPartly(entries, hashX);
    ghost var rows, full := hist.rows, Joined(hist.rows, hashX, hist.Top());
    before := hist.GetTxNums(hashX, -1, false);
    NoneWhole();
    hist.CancelCompaction();
    hist.AddUnflushed([{hashX}], n);
    OneNumber(hist.unflushed, hashX, n);
    FlushedWell(rows, hist.unflushed, 2);
    ThirdReplaced(rows, hashX, full, 5 * entries, hist.unflushed, BytesOr(hist.unflushed, hashX));
    hist.Flush();
    assert hist.Top() == 3;
    after := hist.GetTxNums(hashX, -1, false);
    assert Upto(2 * entries + 1)[..2 * entries] == Upto(2 * entries);
  }

  lemma NothingRecorded(hist: History, hashX: Bytes)
    requires hist.Valid() && hist.next == 0
    ensures hist.All(hashX) == []
  {
    hide TxNums, Joined;
    var s := hist.All(hashX);
    assert Recorded(s, 0);
    if s != [] {
      RecordedAt(s, 0, 0);
    }
  }

  lemma RecordedAt(s: seq<nat>, next: nat, i: nat)
    requires Recorded(s, next) && i < |s|
    ensures s[i] < next
  {
  }

  lemma FirstId(unflushed: map<Bytes, Bytes>, hashX: Bytes)
    ensures RowOr(FlushedRows(map[], unflushed, 1), hashX, 0) == []
  {
  }

  /** Rows that do not begin with id 0 are not compact. */
  lemma NotCompactYet(hist: History, hashX: Bytes, size: nat)
    requires hist.Valid() && hist.Flushed(hashX) != [] && RowOr(hist.rows, hashX, 0) == [] && size > 0
    ensures !IsCompact(hist.rows, hashX, Joined(hist.rows, hashX, hist.Top()), size)
  {
    hide TxNums, Chunks, Recorded;
    var full := Joined(hist.rows, hashX, hist.Top());
    assert |TxNums(full)| == |full| / 5;
    assert ChunkAt(full, size, 0) != [];
    assert RowOr(hist.rows, hashX, 0) != ChunkAt(full, size, 0);
  }

  lemma CompactedNow(hist: History, hashX: Bytes, entries: nat)
    requires hist.maxHistRowEntries == entries > 0 && hist.Valid() && hist.Compacting() && Prefix(hashX) < hist.compCursor
    requires hist.Flushed(hashX) == Upto(2 * entries + 1)
    ensures var full := Joined(hist.rows, hashX, hist.Top());
            && IsCompact(hist.rows, hashX, full, 5 * entries) && |full| == 2 * (5 * entries) + 5
            && TxNums(full) == Upto(2 * entries + 1) && WellFormed(hist.rows)
  {
    hide TxNums, Chunks, Recorded, Prefix, IsCompact;
    var full := Joined(hist.rows, hashX, hist.Top());
    JoinedWhole(hist.rows, hashX, hist.Top());
    assert |TxNums(full)| == |full| / 5;
  }

  lemma NoneWhole()
    ensures WholeNumbers(map[])
  {
  }

  /** One transaction after nothing. */
  lemma OneNumber(unflushed: map<Bytes, Bytes>, hashX: Bytes, n: nat)
    requires TxNums(BytesOr(unflushed, hashX)) == TxNums(BytesOr(map[], hashX)) + Touching([{hashX}], n, hashX)
    ensures TxNums(BytesOr(unflushed, hashX)) == [n] && BytesOr(unflushed, hashX) != []
  {
    assert Touching([{hashX}], n, hashX) == [n] + Touching([{hashX}][1..], n + 1, hashX);
    assert TxNums([]) == [];
  }

  lemma FlushedWell(rows: Rows, unflushed: map<Bytes, Bytes>, id: nat)
    requires WellFormed(rows) && WholeNumbers(unflushed)
    ensures WellFormed(FlushedRows(rows, unflushed, id))
  {
  }

  /** Dropping the rows above an id keeps every history exactly when there are none: a
      compaction that left rows above the flush count of the UTXO database does not survive a
      restart before that count is updated. */
  lemma ClearKeepsIff(rows: Rows, id: nat, top: nat)
    requires WellFormed(rows) && IdsBelow(rows, top) && id < top
    ensures (forall h :: Joined(UpTo(rows, id), h, top) == Joined(rows, h, top)) <==> IdsBelow(rows, id + 1)
  {
    hide Joined;
    if IdsBelow(rows, id + 1) {
      assert UpTo(rows, id) == rows;
    } else {
      var k :| k in rows && k.id > id;
      ClearedRows(rows, UpTo(rows, id), k.hashX, id, id + 1, top);
      LongerBy(rows, k.hashX, id, k.id, top);
    }
  }

  lemma LongerBy(rows: Rows, hashX: Bytes, id: nat, k: nat, top: nat)
    requires WellFormed(rows) && id < k < top && RowKey(hashX, k) in rows
    ensures |Joined(rows, hashX, id + 1)| < |Joined(rows, hashX, top)|
  {
    JoinedPrefix(rows, hashX, id + 1, k);
    JoinedPrefix(rows, hashX, k + 1, top);
    assert |RowOr(rows, hashX, k)| > 0;
  }
}
