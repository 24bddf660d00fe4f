/** What compaction makes of the rows of one hashX (electrumx/server/history.py:244-279). */
module CompactRows {
  import opened ByteStrings
  import opened HistoryRows

  /** A byte string cut into pieces of `size` bytes; the last one may be shorter. */
  function Chunks(b: Bytes, size: nat): (c: seq<Bytes>)
    requires size > 0
    ensures b != [] ==> c != []
    ensures forall i :: 0 <= i < |c| ==> 0 < |c[i]| <= size
  {
    if b == [] then [] else if |b| <= size then [b] else [b[..size]] + Chunks(b[size..], size)
  }

  function ChunkAt(b: Bytes, size: nat, id: nat): Bytes
    requires size > 0
  {
    var c := Chunks(b, size);
    if id < |c| then c[id] else []
  }

  function JoinAll(c: seq<Bytes>): Bytes {
    if c == [] then [] else c[0] + JoinAll(c[1..])
  }

  lemma ChunksCons(b: Bytes, size: nat)
    requires size > 0
    ensures |b| > size ==> Chunks(b, size) == [b[..size]] + Chunks(b[size..], size)
    ensures 0 < |b| <= size ==> Chunks(b, size) == [b]
    ensures b == [] ==> Chunks(b, size) == []
  {
  }

  lemma JoinAllCons(x: Bytes, c: seq<Bytes>)
    ensures JoinAll([x] + c) == x + JoinAll(c) && JoinAll([]) == []
  {
    assert ([x] + c)[1..] == c;
  }

  lemma {:induction false} ChunksJoin(b: Bytes, size: nat)
    requires size > 0
    ensures JoinAll(Chunks(b, size)) == b
    decreases |b|
  {
    hide Chunks, JoinAll;
    ChunksCons(b, size);
    if |b| > size {
      ChunksJoin(b[size..], size);
      JoinAllCons(b[..size], Chunks(b[size..], size));
      assert b == b[..size] + b[size..];
    } else {
      JoinAllCons(b, []);
      assert [b] + [] == [b] && b + [] == b;
    }
  }

  lemma {:induction false} ChunksWhole(b: Bytes, size: nat)
    requires size > 0 && size % 5 == 0 && |b| % 5 == 0
    ensures forall i :: 0 <= i < |Chunks(b, size)| ==> |Chunks(b, size)[i]| % 5 == 0
    decreases |b|
  {
    if |b| > size {
      ChunksWhole(b[size..], size);
    }
  }

  /** The rows of `hashX` are the chunks of `full` under ids 0, 1, 2, … */
  ghost predicate IsCompact(rows: Rows, hashX: Bytes, full: Bytes, size: nat)
    requires size > 0
  {
    forall id: nat :: RowOr(rows, hashX, id) == ChunkAt(full, size, id)
  }

  lemma {:induction false} JoinAllSnoc(c: seq<Bytes>, x: Bytes)
    ensures JoinAll(c + [x]) == JoinAll(c) + x
  {
    if c == [] {
      assert JoinAll([x]) == x + JoinAll([]);
    } else {
      JoinAllSnoc(c[1..], x);
      assert (c + [x])[1..] == c[1..] + [x];
    }
  }

  lemma {:induction false} CompactJoinedTo(rows: Rows, hashX: Bytes, full: Bytes, size: nat, k: nat)
    requires size > 0 && IsCompact(rows, hashX, full, size) && k <= |Chunks(full, size)|
    ensures Joined(rows, hashX, k) == JoinAll(Chunks(full, size)[..k])
  {
    hide Chunks;
    var c := Chunks(full, size);
    if k > 0 {
      CompactJoinedTo(rows, hashX, full, size, k - 1);
      assert RowOr(rows, hashX, k - 1) == ChunkAt(full, size, k - 1) == c[k - 1];
      assert c[..k] == c[..k - 1] + [c[k - 1]];
      JoinAllSnoc(c[..k - 1], c[k - 1]);
    }
  }

  /** Compacted rows spell the same history. */
  lemma CompactJoined(rows: Rows, hashX: Bytes, full: Bytes, size: nat, top: nat)
    requires size > 0 && IsCompact(rows, hashX, full, size) && |Chunks(full, size)| <= top && WellFormed(rows)
    ensures Joined(rows, hashX, top) == full
  {
    hide Chunks;
    var c := Chunks(full, size);
    CompactJoinedTo(rows, hashX, full, size, |c|);
    assert c[..|c|] == c;
    ChunksJoin(full, size);
    forall id: nat | |c| <= id < top
      ensures RowKey(hashX, id) !in rows
    {
      assert RowOr(rows, hashX, id) == ChunkAt(full, size, id);
    }
    JoinedBeyond(rows, hashX, |c|, top);
  }

  /** Compacting what is compact changes nothing: the rows are already the chunks. */
  lemma CompactIsUnique(rows: Rows, rows': Rows, hashX: Bytes, full: Bytes, size: nat)
    requires size > 0 && IsCompact(rows, hashX, full, size) && IsCompact(rows', hashX, full, size)
    ensures forall id: nat :: RowOr(rows, hashX, id) == RowOr(rows', hashX, id)
  {
    forall id: nat
      ensures RowOr(rows, hashX, id) == RowOr(rows', hashX, id)
    {
      assert RowOr(rows, hashX, id) == ChunkAt(full, size, id);
    }
  }

  // ----- The pending batch of a compaction pass -----

  /** The rows after the batch: deletes first, then puts. */
  function Applied(rows: Rows, deletes: set<RowKey>, writes: Rows): Rows {
    (rows - deletes) + writes
  }

  /** The batch compacts the hashXs in `done` and leaves all others alone. */
  ghost predicate Pass(rows: Rows, deletes: set<RowKey>, writes: Rows, done: set<Bytes>, top: nat, size: nat)
    requires size > 0
  {
    && WellFormed(Applied(rows, deletes, writes))
    && (forall k :: k in deletes || k in writes ==> k.hashX in done)
    && (forall h :: h in done ==> IsCompact(Applied(rows, deletes, writes), h, Joined(rows, h, top), size))
  }

  /** The same in the middle of one more hashX, whose first `n` chunks are placed. */
  ghost predicate PartPass(rows: Rows, deletes: set<RowKey>, writes: Rows, done: set<Bytes>, top: nat, size: nat,
                           hashX: Bytes, n: nat)
    requires size > 0
  {
    && WellFormed(Applied(rows, deletes, writes))
    && (forall k :: k in deletes || k in writes ==> k.hashX in done || k.hashX == hashX)
    && (forall h :: h in done ==> IsCompact(Applied(rows, deletes, writes), h, Joined(rows, h, top), size))
    && (forall id: nat :: RowOr(Applied(rows, deletes, writes), hashX, id)
                          == if id < n then ChunkAt(Joined(rows, hashX, top), size, id) else [])
    && (forall id: nat :: n <= id && RowKey(hashX, id) in rows ==> RowKey(hashX, id) in deletes)
    && (forall id: nat :: n <= id ==> RowKey(hashX, id) !in writes)
  }

  lemma StartHashX(rows: Rows, deletes: set<RowKey>, writes: Rows, done: set<Bytes>, top: nat, size: nat, hashX: Bytes)
    requires size > 0 && Pass(rows, deletes, writes, done, top, size) && hashX !in done && WellFormed(rows)
    ensures PartPass(rows, deletes + (set k | k in rows && k.hashX == hashX), writes, done, top, size, hashX, 0)
  {
    hide ChunkAt, Joined;
    var deletes' := deletes + (set k | k in rows && k.hashX == hashX);
    var a, a' := Applied(rows, deletes, writes), Applied(rows, deletes', writes);
    assert forall k: RowKey :: k.hashX != hashX ==> (k in a <==> k in a') && (k in a ==> a[k] == a'[k]);
    forall h | h in done
      ensures IsCompact(a', h, Joined(rows, h, top), size)
    {
      assert IsCompact(a, h, Joined(rows, h, top), size);
      assert forall id: nat :: RowOr(a', h, id) == RowOr(a, h, id);
    }
  }

  /** A chunk that is on disk already under its key is taken off the delete list. */
  lemma KeepChunk(rows: Rows, deletes: set<RowKey>, writes: Rows, done: set<Bytes>, top: nat, size: nat, hashX: Bytes, n: nat)
    requires size > 0 && PartPass(rows, deletes, writes, done, top, size, hashX, n) && hashX !in done
    requires WellFormed(rows) && RowKey(hashX, n) in rows && rows[RowKey(hashX, n)] == ChunkAt(Joined(rows, hashX, top), size, n)
    ensures PartPass(rows, deletes - {RowKey(hashX, n)}, writes, done, top, size, hashX, n + 1)
  {
    hide ChunkAt, Joined;
    var key := RowKey(hashX, n);
    var a, a' := Applied(rows, deletes, writes), Applied(rows, deletes - {key}, writes);
    assert a' == a[key := rows[key]];
    OneMoreChunk(rows, a, a', done, top, size, hashX, n);
  }

  /** Any other chunk is written. */
  lemma WriteChunk(rows: Rows, deletes: set<RowKey>, writes: Rows, done: set<Bytes>, top: nat, size: nat, hashX: Bytes, n: nat)
    requires size > 0 && PartPass(rows, deletes, writes, done, top, size, hashX, n) && hashX !in done
    requires var c := ChunkAt(Joined(rows, hashX, top), size, n); |c| > 0 && |c| % 5 == 0
    ensures PartPass(rows, deletes, writes[RowKey(hashX, n) := ChunkAt(Joined(rows, hashX, top), size, n)], done, top, size, hashX, n + 1)
  {
    hide ChunkAt, Joined;
    var key, chunk := RowKey(hashX, n), ChunkAt(Joined(rows, hashX, top), size, n);
    var a, a' := Applied(rows, deletes, writes), Applied(rows, deletes, writes[key := chunk]);
    assert a' == a[key := chunk];
    OneMoreChunk(rows, a, a', done, top, size, hashX, n);
  }

  lemma OneMoreChunk(rows: Rows, a: Rows, a': Rows, done: set<Bytes>, top: nat, size: nat, hashX: Bytes, n: nat)
    requires size > 0 && hashX !in done && WellFormed(a)
    requires var c := ChunkAt(Joined(rows, hashX, top), size, n);
             a' == a[RowKey(hashX, n) := c] && |c| > 0 && |c| % 5 == 0
    requires forall h :: h in done ==> IsCompact(a, h, Joined(rows, h, top), size)
    requires forall id: nat :: RowOr(a, hashX, id) == if id < n then ChunkAt(Joined(rows, hashX, top), size, id) else []
    ensures WellFormed(a')
    ensures forall h :: h in done ==> IsCompact(a', h, Joined(rows, h, top), size)
    ensures forall id: nat :: RowOr(a', hashX, id) == if id < n + 1 then ChunkAt(Joined(rows, hashX, top), size, id) else []
  {
    hide ChunkAt, Joined;
    forall h | h in done
      ensures IsCompact(a', h, Joined(rows, h, top), size)
    {
      assert IsCompact(a, h, Joined(rows, h, top), size);
      assert forall id: nat :: RowOr(a', h, id) == RowOr(a, h, id);
    }
    forall id: nat
      ensures RowOr(a', hashX, id) == if id < n + 1 then ChunkAt(Joined(rows, hashX, top), size, id) else []
    {
      assert id != n ==> RowOr(a', hashX, id) == RowOr(a, hashX, id);
    }
  }

  lemma EndHashX(rows: Rows, deletes: set<RowKey>, writes: Rows, done: set<Bytes>, top: nat, size: nat, hashX: Bytes, n: nat)
    requires size > 0 && PartPass(rows, deletes, writes, done, top, size, hashX, n)
    requires n == |Chunks(Joined(rows, hashX, top), size)|
    ensures Pass(rows, deletes, writes, done + {hashX}, top, size)
  {
    hide Chunks, Joined;
  }
}
