/** The flat files of the chain, which are only ever appended to or overwritten, and the lookup of
    transaction numbers in them (electrumx/server/db.py). */
module ChainFiles {
  import opened ByteStrings
  import opened Utxos
  import opened LogicalFiles

  const HASH_LEN := 32
  const HEADER_LEN := 80
  const COUNT_LEN := 8

  // ----- The bytes of the files -----

  /** The txids of the chain, concatenated. */
  function HashBytes(chain: seq<Block>): Bytes {
    if chain == [] then [] else HashBytes(chain[..|chain| - 1]) + Concat(Hashes(chain[|chain| - 1]))
  }

  function Concat(hs: seq<Bytes>): Bytes {
    if hs == [] then [] else hs[0] + Concat(hs[1..])
  }

  /** The number of transactions up to each height, eight bytes each. */
  function CountBytes(chain: seq<Block>): Bytes {
    if chain == [] then [] else CountBytes(chain[..|chain| - 1]) + LE(|Txids(chain)|, COUNT_LEN)
  }

  lemma {:induction false} FilesGrow(chain: seq<Block>, n: nat)
    requires n <= |chain|
    ensures HashBytes(chain[..n]) <= HashBytes(chain) && CountBytes(chain[..n]) <= CountBytes(chain)
    decreases |chain|
  {
    hide Txids, Hashes;
    if n == |chain| {
      assert chain[..n] == chain;
    } else {
      FilesGrow(chain[..|chain| - 1], n);
      assert chain[..|chain| - 1][..n] == chain[..n];
    }
  }

  // ----- Transaction counts -----

  /** The number of transactions up to each height. */
  function Counts(chain: seq<Block>): (r: seq<nat>)
    ensures |r| == |chain|
  {
    if chain == [] then [] else Counts(chain[..|chain| - 1]) + [|Txids(chain)|]
  }

  lemma {:induction false} CountsAt(chain: seq<Block>, h: nat)
    requires h < |chain|
    ensures Counts(chain)[h] == |Txids(chain[..h + 1])|
    decreases |chain|
  {
    hide Txids;
    if h == |chain| - 1 {
      assert chain[..h + 1] == chain;
    } else {
      assert chain[..|chain| - 1][..h + 1] == chain[..h + 1];
      CountsAt(chain[..|chain| - 1], h);
    }
  }

  lemma {:induction false} TxidsPrefix(chain: seq<Block>, n: nat)
    requires n <= |chain|
    ensures Txids(chain[..n]) <= Txids(chain)
    decreases |chain|
  {
    if n == |chain| {
      assert chain[..n] == chain;
    } else {
      assert chain[..|chain| - 1][..n] == chain[..n];
      TxidsPrefix(chain[..|chain| - 1], n);
    }
  }

  /** Block `h` has the transaction with number `n`. */
  predicate InBlock(chain: seq<Block>, n: nat, h: nat) {
    h < |chain| && |Txids(chain[..h])| <= n < |Txids(chain[..h + 1])|
  }

  /** The height found is the one height whose block has the transaction. */
  lemma HeightIs(chain: seq<Block>, n: nat, h: nat)
    requires h <= |chain|
    ensures BisectRight(Counts(chain), n) == h <==>
              && (h > 0 ==> |Txids(chain[..h])| <= n)
              && (h < |chain| ==> n < |Txids(chain[..h + 1])|)
  {
    hide Txids, BisectRight;
    var counts := Counts(chain);
    var k := BisectRight(counts, n);
    forall i | 0 <= i < |chain|
      ensures counts[i] == |Txids(chain[..i + 1])|
    {
      CountsAt(chain, i);
    }
    if h > k {
      assert counts[k] <= counts[h - 1] by {
        CountsGrow(chain, k, h - 1);
      }
    }
    if h < k {
      assert counts[h] <= counts[k - 1] by {
        CountsGrow(chain, h, k - 1);
      }
    }
  }

  lemma CountsGrow(chain: seq<Block>, i: nat, j: nat)
    requires i <= j < |chain|
    ensures Counts(chain)[i] <= Counts(chain)[j]
  {
    hide Txids, Counts;
    CountsAt(chain, i);
    CountsAt(chain, j);
    TxidsPrefix(chain[..j + 1], i + 1);
    assert chain[..j + 1][..i + 1] == chain[..i + 1];
  }

  // ----- The bytes of the tx-hash file -----

  predicate AllHashes(hs: seq<Bytes>) {
    forall i :: 0 <= i < |hs| ==> |hs[i]| == HASH_LEN
  }

  lemma {:induction false} ConcatParts(a: seq<Bytes>, b: seq<Bytes>)
    ensures Concat(a + b) == Concat(a) + Concat(b)
  {
    if a == [] {
      assert a + b == b;
    } else {
      assert (a + b)[1..] == a[1..] + b;
      ConcatParts(a[1..], b);
    }
  }

  lemma {:induction false} HashBytesIs(chain: seq<Block>)
    ensures HashBytes(chain) == Concat(Txids(chain))
  {
    hide Hashes;
    if chain != [] {
      HashBytesIs(chain[..|chain| - 1]);
      ConcatParts(Txids(chain[..|chain| - 1]), Hashes(chain[|chain| - 1]));
    }
  }

  lemma ConcatCons(h: Bytes, t: seq<Bytes>)
    ensures Concat([h] + t) == h + Concat(t)
  {
    assert ([h] + t)[1..] == t;
  }

  lemma {:induction false} ConcatAt(hs: seq<Bytes>, n: nat)
    requires AllHashes(hs) && n < |hs|
    ensures |Concat(hs)| == HASH_LEN * |hs|
    ensures Concat(hs)[HASH_LEN * n..HASH_LEN * n + HASH_LEN] == hs[n]
  {
    hide Concat;
    var front, back := hs[..n], hs[n + 1..];
    assert hs == front + ([hs[n]] + back);
    ConcatParts(front, [hs[n]] + back);
    ConcatCons(hs[n], back);
    ConcatLength(hs);
    ConcatLength(front);
  }

  lemma {:induction false} ConcatLength(hs: seq<Bytes>)
    requires AllHashes(hs)
    ensures |Concat(hs)| == HASH_LEN * |hs|
  {
    if hs != [] {
      var rest := hs[1..];
      assert forall i :: 0 <= i < |rest| ==> rest[i] == hs[i + 1];
      ConcatLength(rest);
    }
  }

  /** A file that holds the txids of the chain up to some height gives each of them. */
  lemma HashInFile(file: Bytes, chain: seq<Block>, n: nat)
    requires HashBytes(chain) <= file && AllHashes(Txids(chain)) && n < |Txids(chain)|
    ensures Slice(file, n * HASH_LEN, HASH_LEN) == Txids(chain)[n]
  {
    hide Txids, Concat;
    HashBytesIs(chain);
    ConcatAt(Txids(chain), n);
    var bytes := HashBytes(chain);
    assert file[..|bytes|] == bytes;
    assert file[HASH_LEN * n..HASH_LEN * n + HASH_LEN] == bytes[HASH_LEN * n..HASH_LEN * n + HASH_LEN];
  }

  // ----- Fixed-size records in a file -----

  predicate AllOf(rs: seq<Bytes>, size: nat) {
    forall i :: 0 <= i < |rs| ==> |rs[i]| == size
  }

  lemma {:induction false} RecordsLength(rs: seq<Bytes>, size: nat)
    requires AllOf(rs, size)
    ensures |Concat(rs)| == |rs| * size
  {
    if rs != [] {
      var rest := rs[1..];
      assert forall i :: 0 <= i < |rest| ==> rest[i] == rs[i + 1];
      RecordsLength(rest, size);
    }
  }

  lemma {:induction false} RecordsPrefix(rs: seq<Bytes>, n: nat)
    requires n <= |rs|
    ensures Concat(rs) == Concat(rs[..n]) + Concat(rs[n..])
  {
    ConcatParts(rs[..n], rs[n..]);
    assert rs[..n] + rs[n..] == rs;
  }

  /** The counts from height `n` on, as the file holds them. */
  function PackedCounts(counts: seq<nat>): Bytes {
    if counts == [] then [] else LE(counts[0], COUNT_LEN) + PackedCounts(counts[1..])
  }

  lemma {:induction false} PackedParts(a: seq<nat>, b: seq<nat>)
    ensures PackedCounts(a + b) == PackedCounts(a) + PackedCounts(b)
  {
    hide LE;
    if a == [] {
      assert a + b == b;
    } else {
      assert (a + b)[1..] == a[1..] + b;
      PackedParts(a[1..], b);
    }
  }

  lemma {:induction false} CountBytesIs(chain: seq<Block>)
    ensures CountBytes(chain) == PackedCounts(Counts(chain)) && |CountBytes(chain)| == |chain| * COUNT_LEN
  {
    hide Txids, LE;
    if chain != [] {
      var before, n := chain[..|chain| - 1], |Txids(chain)|;
      CountBytesIs(before);
      PackedParts(Counts(before), [n]);
      assert PackedCounts([n]) == LE(n, COUNT_LEN) + PackedCounts([n][1..]);
    }
  }

  lemma {:induction false} PackedPrefix(counts: seq<nat>, n: nat)
    requires n <= |counts|
    ensures PackedCounts(counts) == PackedCounts(counts[..n]) + PackedCounts(counts[n..])
  {
    PackedParts(counts[..n], counts[n..]);
    assert counts[..n] + counts[n..] == counts;
  }

  lemma {:induction false} CountsPrefix(chain: seq<Block>, n: nat)
    requires n <= |chain|
    ensures Counts(chain[..n]) == Counts(chain)[..n]
    decreases |chain|
  {
    hide Txids;
    if n == |chain| {
      assert chain[..n] == chain;
    } else {
      assert chain[..|chain| - 1][..n] == chain[..n];
      CountsPrefix(chain[..|chain| - 1], n);
    }
  }

  /** A file holds `all` up to where `have` ends, and is completed by the rest. */
  lemma Completed(file: Bytes, have: Bytes, rest: Bytes)
    requires have <= file
    ensures have + rest <= Overwritten(file, |have|, rest)
  {
  }

  lemma FoundInBlock(chain: seq<Block>, n: nat)
    requires n < |Txids(chain)|
    ensures InBlock(chain, n, BisectRight(Counts(chain), n))
  {
    hide Txids, BisectRight;
    var h := BisectRight(Counts(chain), n);
    HeightIs(chain, n, h);
    NoTxids();
    assert chain[..|chain|] == chain && chain[..0] == [];
  }

  // ----- The answer for a transaction number -----

  /** The txid of a number below the count at `height`, and the height of its block. */
  function Answer(chain: seq<Block>, height: int, txNum: nat): (Option<Bytes>, nat)
    requires -1 <= height < |chain|
  {
    var known := Txids(chain[..height + 1]);
    (if txNum < |known| then Some(known[txNum]) else None, BisectRight(Counts(chain), txNum))
  }

  /** The counts are those of the chain, and headers and hashes those of the blocks not on disk. */
  predicate Pending(
      chain: seq<Block>, allHeaders: seq<Bytes>, fsHeight: int, txCounts: seq<nat>, headers: seq<Bytes>, blockTxHashes: seq<Bytes>)
  {
    && -1 <= fsHeight < |chain| == |allHeaders| && txCounts == Counts(chain)
    && AllHashes(Txids(chain)) && AllOf(allHeaders, HEADER_LEN) && headers == allHeaders[fsHeight + 1..]
    && HashBytes(chain[..fsHeight + 1]) + Concat(blockTxHashes) == HashBytes(chain)
  }

  /** A cached txid is right; a cached miss need not be. */
  predicate CacheOk(cache: map<nat, (Option<Bytes>, nat)>, chain: seq<Block>, height: int) {
    -1 <= height < |chain| && forall n :: n in cache && cache[n].0.Some? ==> cache[n] == Answer(chain, height, n)
  }

  class ChainDb {
    const headersFile: LogicalFile
    const txCountsFile: LogicalFile
    const hashesFile: LogicalFile
    var txCounts: seq<nat>             // of all heights advanced, on disk or not
    var headers: seq<Bytes>            // not on disk yet
    var blockTxHashes: seq<Bytes>      // not on disk yet, a concatenation for each block
    var fsHeight: int
    var dbHeight: int
    var txHashCache: map<nat, (Option<Bytes>, nat)>
    ghost var chain: seq<Block>
    ghost var allHeaders: seq<Bytes>

    ghost predicate Valid()
      reads this, headersFile, txCountsFile, hashesFile
    {
      && headersFile.Valid() && txCountsFile.Valid() && hashesFile.Valid()
      && headersFile != txCountsFile && headersFile != hashesFile && txCountsFile != hashesFile
      && -1 <= dbHeight <= fsHeight < |chain| == |allHeaders|
      && FilesOk(Content(headersFile.files), Content(txCountsFile.files), Content(hashesFile.files), chain[..fsHeight + 1],
                 allHeaders[..fsHeight + 1])
      && Pending(chain, allHeaders, fsHeight, txCounts, headers, blockTxHashes)
      && CacheOk(txHashCache, chain, dbHeight)
    }

    constructor (fileSize: nat)
      requires fileSize > 0
      ensures Valid() && chain == [] && dbHeight == fsHeight == -1 && txHashCache == map[]
      ensures fresh(headersFile) && fresh(txCountsFile) && fresh(hashesFile)
    {
      headersFile := new LogicalFile(fileSize);
      txCountsFile := new LogicalFile(fileSize);
      hashesFile := new LogicalFile(fileSize);
      txCounts, headers, blockTxHashes, fsHeight, dbHeight, txHashCache := [], [], [], -1, -1, map[];
      chain, allHeaders := [], [];
    }

    /** Notes a block; its bytes are not on disk yet. */
    method AdvanceBlock(block: Block, header: Bytes)
      requires Valid() && AllHashes(Hashes(block)) && |header| == HEADER_LEN
      modifies this
      ensures Valid() && chain == old(chain) + [block] && allHeaders == old(allHeaders) + [header]
      ensures dbHeight == old(dbHeight) && fsHeight == old(fsHeight) && txHashCache == old(txHashCache)
    {
      hide Hashes, Concat, FilesOk, Pending, CacheOk;
      assert (chain + [block])[..fsHeight + 1] == chain[..fsHeight + 1];
      assert (allHeaders + [header])[..fsHeight + 1] == allHeaders[..fsHeight + 1];
      PendingMore(chain, allHeaders, fsHeight, txCounts, headers, blockTxHashes, block, header);
      CacheMore(txHashCache, chain, dbHeight, block);
      blockTxHashes := blockTxHashes + [Concat(Hashes(block))];
      headers := headers + [header];
      txCounts := txCounts + [(if |txCounts| > 0 then txCounts[|txCounts| - 1] else 0) + |block|];
      chain, allHeaders := chain + [block], allHeaders + [header];
    }

    /** Writes the headers, counts and txids of the new blocks, over what an earlier reorganisation
        left in the files. */
    method FlushFs()
      requires Valid()
      modifies this, headersFile, txCountsFile, hashesFile
      ensures Valid() && fsHeight == |chain| - 1 && chain == old(chain) && allHeaders == old(allHeaders)
      ensures dbHeight == old(dbHeight) && blockTxHashes == [] && headers == [] && txHashCache == old(txHashCache)
    {
      hide Content, FilesOk, CacheOk, Concat, PackedCounts, HashBytes, CountBytes, Txids, Counts, AllHashes, AllOf;
      ghost var h, c, t := Content(headersFile.files), Content(txCountsFile.files), Content(hashesFile.files);
      FlushPlan(h, c, t, chain, allHeaders, fsHeight, txCounts, headers, blockTxHashes);
      var priorTxCount := if fsHeight >= 0 then txCounts[fsHeight] else 0;
      headersFile.Write((fsHeight + 1) * HEADER_LEN, Concat(headers));
      txCountsFile.Write((fsHeight + 1) * COUNT_LEN, PackedCounts(txCounts[fsHeight + 1..]));
      hashesFile.Write(priorTxCount * HASH_LEN, Concat(blockTxHashes));
      FlushDone(h, c, t, chain, allHeaders, fsHeight, txCounts, headers, blockTxHashes);
      fsHeight := |txCounts| - 1;
      blockTxHashes, headers := [], [];
    }

    /** The UTXO database is committed: what is in the files counts. */
    method CommitUtxos()
      requires Valid() && fsHeight == |chain| - 1
      modifies `dbHeight
      ensures Valid() && dbHeight == fsHeight
    {
      hide Content, FilesOk, Pending, CacheOk;
      CacheHigher(txHashCache, chain, dbHeight, fsHeight);
      dbHeight := fsHeight;
    }

    /** A reorganisation takes the last block back.  Only the pointers move: the files keep its bytes. */
    method BackupFs()
      requires Valid() && fsHeight == dbHeight == |chain| - 1 >= 0
      modifies this
      ensures Valid() && chain == old(chain)[..|old(chain)| - 1] && fsHeight == dbHeight == |chain| - 1
      ensures txHashCache == map[] && unchanged(headersFile) && unchanged(txCountsFile) && unchanged(hashesFile)
    {
      hide Content, FilesOk, Pending;
      FilesShrink(Content(headersFile.files), Content(txCountsFile.files), Content(hashesFile.files), chain, allHeaders);
      PendingLess(chain, allHeaders, txCounts, headers, blockTxHashes);
      assert chain[..|chain| - 1][..fsHeight] == chain[..|chain| - 1];
      assert allHeaders[..|allHeaders| - 1][..fsHeight] == allHeaders[..|allHeaders| - 1];
      txCounts := txCounts[..|txCounts| - 1];
      fsHeight, dbHeight := fsHeight - 1, dbHeight - 1;
      chain, allHeaders := chain[..|chain| - 1], allHeaders[..|allHeaders| - 1];
      txHashCache := map[];
    }

    /** The txid and the height of a transaction number.  The answer is kept, so a number that was
        asked for before it was committed stays without txid: the txid is right if and only if it is
        not on disk with a miss in the cache. */
    method FsTxHash(txNum: nat) returns (txHash: Option<Bytes>, txHeight: nat)
      requires Valid()
      modifies `txHashCache
      ensures Valid() && txHashCache == old(txHashCache)[txNum := (txHash, txHeight)]
      ensures txHash == Answer(chain, dbHeight, txNum).0 <==>
                !(txNum in old(txHashCache) && old(txHashCache)[txNum].0.None? && txNum < |Txids(chain[..dbHeight + 1])|)
      ensures (txHash, txHeight) == if txNum in old(txHashCache) then old(txHashCache)[txNum] else Answer(chain, dbHeight, txNum)
    {
      hide Content, Txids, Full, Counts, BisectRight, HashBytes, CountBytes, Concat, AllOf, AllHashes;
      if txNum in txHashCache {
        assert txHashCache[txNum := txHashCache[txNum]] == txHashCache;
        return txHashCache[txNum].0, txHashCache[txNum].1;
      }
      txHeight := BisectRight(txCounts, txNum);
      OnDiskIff(chain, txNum, txHeight, dbHeight);
      if txHeight > dbHeight {
        txHash := None;
      } else {
        var bytes := hashesFile.Read(txNum * HASH_LEN, HASH_LEN);
        HashOnDisk(Content(hashesFile.files), chain, dbHeight, fsHeight, txNum);
        txHash := Some(bytes);
      }
      txHashCache := txHashCache[txNum := (txHash, txHeight)];
    }

    /** The headers on disk from `start` on, `count` at most, and how many there are. */
    method ReadHeaders(start: nat, count: nat) returns (bytes: Bytes, n: nat)
      requires Valid()
      ensures n == if start > dbHeight then 0 else if start + count <= dbHeight + 1 then count else dbHeight + 1 - start
      ensures start + n <= |allHeaders| || n == 0
      ensures bytes == if n == 0 then [] else Concat(allHeaders[start..start + n])
    {
      hide Content, Txids, Full, Counts, HashBytes, CountBytes, Concat, CacheOk, AllHashes;
      var room := dbHeight + 1 - start;
      n := if count < room then count else if room > 0 then room else 0;
      if n == 0 {
        return [], 0;
      }
      HeadersOnDisk(Content(headersFile.files), allHeaders, fsHeight + 1, start, n);
      bytes := headersFile.Read(start * HEADER_LEN, n * HEADER_LEN);
    }
  }

  /** The files begin with the bytes of the chain; what follows is left from before. */
  predicate FilesOk(headerFile: Bytes, countFile: Bytes, hashFile: Bytes, chain: seq<Block>, headers: seq<Bytes>) {
    HashBytes(chain) <= hashFile && CountBytes(chain) <= countFile && Concat(headers) <= headerFile
  }

  lemma ConcatOne(hs: seq<Bytes>, h: Bytes)
    ensures Concat(hs + [h]) == Concat(hs) + h
  {
    ConcatParts(hs, [h]);
    assert Concat([h]) == h + Concat([h][1..]);
  }

  lemma HeadersMore(headers: seq<Bytes>, header: Bytes)
    requires AllOf(headers, HEADER_LEN) && |header| == HEADER_LEN
    ensures AllOf(headers + [header], HEADER_LEN)
  {
  }

  lemma PendingMore(
      chain: seq<Block>, allHeaders: seq<Bytes>, fsHeight: int, txCounts: seq<nat>, headers: seq<Bytes>, blockTxHashes: seq<Bytes>,
      block: Block, header: Bytes)
    requires Pending(chain, allHeaders, fsHeight, txCounts, headers, blockTxHashes)
    requires AllHashes(Hashes(block)) && |header| == HEADER_LEN
    ensures Pending(chain + [block], allHeaders + [header], fsHeight,
                    txCounts + [(if |txCounts| > 0 then txCounts[|txCounts| - 1] else 0) + |block|],
                    headers + [header], blockTxHashes + [Concat(Hashes(block))])
  {
    hide Hashes, Concat;
    var chain' := chain + [block];
    assert chain'[..|chain'| - 1] == chain && chain'[..fsHeight + 1] == chain[..fsHeight + 1];
    ConcatOne(blockTxHashes, Concat(Hashes(block)));
    HeadersMore(allHeaders, header);
    LastCount(chain);
  }

  lemma CacheMore(cache: map<nat, (Option<Bytes>, nat)>, chain: seq<Block>, height: int, block: Block)
    requires CacheOk(cache, chain, height)
    ensures CacheOk(cache, chain + [block], height)
  {
    hide Answer;
    forall n | n in cache && cache[n].0.Some?
      ensures cache[n] == Answer(chain + [block], height, n)
    {
      AnswerMore(chain, block, height, n);
    }
  }

  lemma CacheHigher(cache: map<nat, (Option<Bytes>, nat)>, chain: seq<Block>, lo: int, hi: int)
    requires CacheOk(cache, chain, lo) && lo <= hi < |chain|
    ensures CacheOk(cache, chain, hi)
  {
    hide Answer;
    forall n | n in cache && cache[n].0.Some?
      ensures cache[n] == Answer(chain, hi, n)
    {
      AnswerHigher(chain, lo, hi, n);
    }
  }

  lemma PendingLess(
      chain: seq<Block>, allHeaders: seq<Bytes>, txCounts: seq<nat>, headers: seq<Bytes>, blockTxHashes: seq<Bytes>)
    requires chain != [] && Pending(chain, allHeaders, |chain| - 1, txCounts, headers, blockTxHashes)
    ensures |txCounts| == |chain|
    ensures Pending(chain[..|chain| - 1], allHeaders[..|chain| - 1], |chain| - 2, txCounts[..|chain| - 1], headers, blockTxHashes)
  {
    hide Txids, HashBytes;
    var before := chain[..|chain| - 1];
    CountsPrefix(chain, |chain| - 1);
    TxidsPrefix(chain, |chain| - 1);
    assert before[..|before|] == before && chain[..|chain|] == chain;
    assert |Concat(blockTxHashes)| == 0;
  }

  /** Where the three writes of a flush begin. */
  lemma FlushPlan(
      headerFile: Bytes, countFile: Bytes, hashFile: Bytes, chain: seq<Block>, allHeaders: seq<Bytes>, fsHeight: int,
      txCounts: seq<nat>, headers: seq<Bytes>, blockTxHashes: seq<Bytes>)
    requires Pending(chain, allHeaders, fsHeight, txCounts, headers, blockTxHashes)
    requires FilesOk(headerFile, countFile, hashFile, chain[..fsHeight + 1], allHeaders[..fsHeight + 1])
    ensures |txCounts| == |chain|
    ensures (fsHeight + 1) * HEADER_LEN == |Concat(allHeaders[..fsHeight + 1])| <= |headerFile|
    ensures (fsHeight + 1) * COUNT_LEN == |CountBytes(chain[..fsHeight + 1])| <= |countFile|
    ensures (if fsHeight >= 0 then txCounts[fsHeight] else 0) * HASH_LEN == |HashBytes(chain[..fsHeight + 1])| <= |hashFile|
  {
    hide HashBytes, CountBytes, Concat, Txids;
    FlushedPrefix(chain, fsHeight + 1);
    PriorCount(chain, fsHeight + 1);
    RecordsLength(allHeaders[..fsHeight + 1], HEADER_LEN);
    CountBytesIs(chain[..fsHeight + 1]);
  }

  /** What they leave in the files. */
  lemma FlushDone(
      headerFile: Bytes, countFile: Bytes, hashFile: Bytes, chain: seq<Block>, allHeaders: seq<Bytes>, fsHeight: int,
      txCounts: seq<nat>, headers: seq<Bytes>, blockTxHashes: seq<Bytes>)
    requires Pending(chain, allHeaders, fsHeight, txCounts, headers, blockTxHashes)
    requires FilesOk(headerFile, countFile, hashFile, chain[..fsHeight + 1], allHeaders[..fsHeight + 1])
    ensures var h, c, t := Concat(allHeaders[..fsHeight + 1]), CountBytes(chain[..fsHeight + 1]), HashBytes(chain[..fsHeight + 1]);
            FilesOk(Overwritten(headerFile, |h|, Concat(headers)), Overwritten(countFile, |c|, PackedCounts(txCounts[fsHeight + 1..])),
                    Overwritten(hashFile, |t|, Concat(blockTxHashes)), chain[..|chain|], allHeaders[..|allHeaders|])
    ensures Pending(chain, allHeaders, |chain| - 1, txCounts, [], [])
  {
    hide HashBytes, CountBytes, Concat, PackedCounts, Counts, Overwritten, Txids;
    var n := fsHeight + 1;
    assert chain[..|chain|] == chain && allHeaders[..|allHeaders|] == allHeaders;
    NothingLeft(chain);
    RecordsPrefix(allHeaders, n);
    CountBytesIs(chain);
    CountBytesIs(chain[..n]);
    CountsPrefix(chain, n);
    PackedPrefix(Counts(chain), n);
    Completed(headerFile, Concat(allHeaders[..n]), Concat(headers));
    Completed(countFile, CountBytes(chain[..n]), PackedCounts(txCounts[n..]));
    Completed(hashFile, HashBytes(chain[..n]), Concat(blockTxHashes));
  }

  lemma NothingLeft(chain: seq<Block>)
    ensures HashBytes(chain) + Concat([]) == HashBytes(chain)
  {
  }

  lemma FilesShrink(headerFile: Bytes, countFile: Bytes, hashFile: Bytes, chain: seq<Block>, headers: seq<Bytes>)
    requires chain != [] && |chain| == |headers| && FilesOk(headerFile, countFile, hashFile, chain[..|chain|], headers[..|headers|])
    ensures FilesOk(headerFile, countFile, hashFile, chain[..|chain| - 1], headers[..|headers| - 1])
  {
    hide HashBytes, CountBytes, Concat;
    var n := |chain| - 1;
    assert chain[..|chain|] == chain && headers[..|headers|] == headers;
    FilesGrow(chain, n);
    RecordsPrefix(headers, n);
  }

  /** More blocks in memory change nothing for a number that is on disk. */
  lemma AnswerMore(chain: seq<Block>, block: Block, height: int, n: nat)
    requires -1 <= height < |chain| && Answer(chain, height, n).0.Some?
    ensures Answer(chain + [block], height, n) == Answer(chain, height, n)
  {
    hide Txids, BisectRight;
    var chain' := chain + [block];
    assert chain'[..|chain'| - 1] == chain && chain'[..height + 1] == chain[..height + 1];
    var h := BisectRight(Counts(chain), n);
    OnDiskIff(chain, n, h, height);
    HeightIs(chain, n, h);
    assert chain'[..h + 1] == chain[..h + 1] && chain'[..h] == chain[..h];
    HeightIs(chain', n, h);
  }

  lemma AnswerHigher(chain: seq<Block>, lo: int, hi: int, n: nat)
    requires -1 <= lo <= hi < |chain| && Answer(chain, lo, n).0.Some?
    ensures Answer(chain, hi, n) == Answer(chain, lo, n)
  {
    hide Txids, BisectRight;
    TxidsPrefix(chain[..hi + 1], lo + 1);
    assert chain[..hi + 1][..lo + 1] == chain[..lo + 1];
  }

  lemma HeadersOnDisk(file: Bytes, headers: seq<Bytes>, done: nat, start: nat, n: nat)
    requires start + n <= done <= |headers| && AllOf(headers, HEADER_LEN) && Concat(headers[..done]) <= file && n > 0
    ensures Slice(file, start * HEADER_LEN, n * HEADER_LEN) == Concat(headers[start..start + n])
  {
    hide Concat;
    var all, part := headers[..done], headers[start..start + n];
    assert all[..start] == headers[..start] && all[start..][..n] == part;
    RecordsPrefix(all, start);
    RecordsPrefix(all[start..], n);
    RecordsLength(all[..start], HEADER_LEN);
    RecordsLength(part, HEADER_LEN);
    var a, b := Concat(all[..start]), Concat(part);
    assert file[..|Concat(all)|] == Concat(all) == a + (b + Concat(all[start..][n..]));
    assert file[|a|..|a| + |b|] == b;
  }

  /** A run: a number is asked for after its block was written but before it was committed; asked
      again afterwards it still has no txid, although it is on disk. */
  method AskedTooEarly(block: Block, header: Bytes) returns (early: Option<Bytes>, late: Option<Bytes>, db: ChainDb)
    requires block != [] && AllHashes(Hashes(block)) && |header| == HEADER_LEN
    ensures early == None == late && db.Valid() && db.chain == [block] && db.dbHeight == 0
    ensures Answer(db.chain, db.dbHeight, 0).0 == Some(block[0].hash)
  {
    hide ChainDb.Valid, BisectRight, Counts;
    db := new ChainDb(1);
    db.AdvanceBlock(block, header);
    db.FlushFs();
    assert db.chain == [block] && [block][..0] == [] && [block][..1] == [block];
    OneBlock(block);
    var h0, h1;
    early, h0 := db.FsTxHash(0);
    db.CommitUtxos();
    late, h1 := db.FsTxHash(0);
  }

  lemma OneBlock(block: Block)
    ensures Txids([]) == [] && Txids([block]) == Hashes(block)
  {
    assert [block][..0] == [];
  }

  lemma LastCount(chain: seq<Block>)
    ensures (if |Counts(chain)| > 0 then Counts(chain)[|chain| - 1] else 0) == |Txids(chain)|
  {
  }

  lemma FlushedPrefix(chain: seq<Block>, n: nat)
    requires n <= |chain| && AllHashes(Txids(chain))
    ensures AllHashes(Txids(chain[..n])) && HashBytes(chain[..n]) == Concat(Txids(chain[..n]))
    ensures |HashBytes(chain[..n])| == |Txids(chain[..n])| * HASH_LEN
  {
    hide Txids;
    TxidsPrefix(chain, n);
    HashBytesIs(chain[..n]);
    ConcatLength(Txids(chain[..n]));
  }

  lemma PriorCount(chain: seq<Block>, n: nat)
    requires n <= |chain|
    ensures (if n > 0 then Counts(chain)[n - 1] else 0) == |Txids(chain[..n])|
  {
    if n > 0 {
      CountsAt(chain, n - 1);
    }
  }

  lemma HashOnDisk(file: Bytes, chain: seq<Block>, dbHeight: int, fsHeight: int, n: nat)
    requires -1 <= dbHeight <= fsHeight < |chain| && AllHashes(Txids(chain))
    requires HashBytes(chain[..fsHeight + 1]) <= file && n < |Txids(chain[..dbHeight + 1])|
    ensures Slice(file, n * HASH_LEN, HASH_LEN) == Txids(chain[..dbHeight + 1])[n]
  {
    hide Txids, HashBytes, Slice;
    var done := chain[..fsHeight + 1];
    TxidsPrefix(chain, fsHeight + 1);
    TxidsPrefix(done, dbHeight + 1);
    assert done[..dbHeight + 1] == chain[..dbHeight + 1];
    HashInFile(file, done, n);
  }

  lemma NoTxids()
    ensures Txids([]) == []
  {
  }

  lemma OnDiskIff(chain: seq<Block>, n: nat, h: nat, dbHeight: int)
    requires h == BisectRight(Counts(chain), n) && -1 <= dbHeight < |chain|
    ensures h <= dbHeight <==> n < |Txids(chain[..dbHeight + 1])|
  {
    hide Txids, BisectRight, Counts;
    HeightIs(chain, n, h);
    if h <= dbHeight {
      TxidsPrefix(chain[..dbHeight + 1], h + 1);
      assert chain[..dbHeight + 1][..h + 1] == chain[..h + 1];
    } else {
      NoTxids();
      assert chain[..0] == [];
      TxidsPrefix(chain[..h], dbHeight + 1);
      assert chain[..h][..dbHeight + 1] == chain[..dbHeight + 1];
    }
  }
}
