/** The height-keyed undo log of the Glyph tables (electrumx/server/glyph_index.py).

    A flush commits a window of blocks at once.  The undo row of each of its heights holds, for
    every key first written there, the value the database had before the window.  Unwinding the
    heights in descending order therefore gives back the tables as they were between windows,
    and inside a window something in between, which `Between` names. */
module Overlay {
  import opened ByteStrings
  import opened UndoCodec

  type Table = map<Bytes, Bytes>

  const UNDO: Bytes := [71, 88, 85]              // GXU
  const OWNER: Bytes := [71, 79]                 // GO
  const STATS: Bytes := [71, 83, 84, 65, 84]     // GSTAT
  const VERSION: Bytes := [71, 86, 69, 82]       // GVER

  function Get(db: Table, k: Bytes): Option<Bytes> {
    if k in db then Some(db[k]) else None
  }

  function Set(db: Table, k: Bytes, v: Option<Bytes>): Table {
    if v.Some? then db[k := v.value] else db - {k}
  }

  predicate IsUndoKey(k: Bytes) {
    StartsWith(k, UNDO)
  }

  /** The keys the undo log is about. */
  predicate Tracked(k: Bytes) {
    !IsUndoKey(k) && !StartsWith(k, OWNER) && k != STATS && k != VERSION
  }

  function UndoKey(height: nat): (k: Bytes)
    ensures |k| == 7 && IsUndoKey(k) && !Tracked(k)
  {
    UNDO + BE(height, 4)
  }

  predicate Height(h: int) {
    0 <= h < 0x1_0000_0000
  }

  lemma UndoKeysDiffer(a: nat, b: nat)
    requires Height(a) && Height(b) && a != b
    ensures UndoKey(a) != UndoKey(b)
  {
    hide BE, FromBE, Range;
    Ranges();
    FromBeOfBe(a, 4);
    FromBeOfBe(b, 4);
    assert UndoKey(a)[3..] == BE(a, 4) && UndoKey(b)[3..] == BE(b, 4);
  }

  // ----- Backing up -----

  function Restore(db: Table, entries: seq<Entry>): Table
    decreases |entries|
  {
    if entries == [] then db else Restore(Set(db, entries[0].key, entries[0].prev), entries[1..])
  }

  /** The effect of backing up one height. */
  function BackedUp(db: Table, height: nat): Table {
    if UndoKey(height) !in db || db[UndoKey(height)] == [] then db
    else Restore(db, Decode(db[UndoKey(height)])) - {UndoKey(height)}
  }

  /** Backing up the heights from `from` down to `to + 1`. */
  function Unwind(db: Table, from: int, to: int): Table
    requires -1 <= to
    decreases from - to
  {
    if from <= to then db else Unwind(BackedUp(db, from), from - 1, to)
  }

  predicate HasKey(entries: seq<Entry>, k: Bytes) {
    exists i :: 0 <= i < |entries| && entries[i].key == k
  }

  /** Entries that can be stored, about tracked keys. */
  predicate GoodEntries(entries: seq<Entry>) {
    && (forall i :: 0 <= i < |entries| ==> Packable(entries[i]) && Tracked(entries[i].key))
    && BelowSentinel(entries)
  }

  /** Entries saved from `db`. */
  predicate SavedFrom(entries: seq<Entry>, db: Table) {
    forall i :: 0 <= i < |entries| ==> entries[i].prev == Get(db, entries[i].key)
  }

  lemma {:induction false} RestoreGets(db: Table, entries: seq<Entry>, base: Table, k: Bytes)
    requires SavedFrom(entries, base)
    ensures Get(Restore(db, entries), k) == if HasKey(entries, k) then Get(base, k) else Get(db, k)
    decreases |entries|
  {
    if entries != [] {
      var e, rest := entries[0], entries[1..];
      assert forall i :: 0 <= i < |rest| ==> rest[i] == entries[i + 1];
      RestoreGets(Set(db, e.key, e.prev), rest, base, k);
      if HasKey(entries, k) && e.key != k {
        var i :| 0 <= i < |entries| && entries[i].key == k;
        assert rest[i - 1].key == k;
      }
    }
  }

  // ----- What a flush leaves -----

  /** The undo entries of a window by height. */
  type Undo = map<nat, seq<Entry>>

  predicate RecordedAbove(undo: Undo, height: int, k: Bytes) {
    exists h :: h in undo && h > height && HasKey(undo[h], k)
  }

  predicate Recorded(undo: Undo, k: Bytes) {
    RecordedAbove(undo, -1, k)
  }

  /** The entries collected for the heights after `lo` up to `hi`, with values of `db`. */
  predicate GoodUndo(undo: Undo, db: Table, lo: int, hi: int) {
    forall h {:trigger undo[h]} {:trigger h in undo} :: h in undo ==>
      lo < h <= hi && Height(h) && undo[h] != [] && GoodEntries(undo[h]) && SavedFrom(undo[h], db)
  }

  function UndoRow(undo: Undo, h: nat): Option<Bytes> {
    if h in undo then Some(Encode(undo[h])) else None
  }

  /** `db'` is `db` with a window flushed onto it: every tracked key that changed was recorded,
      the new undo rows are there, and older ones from height `floor` on are kept. */
  ghost predicate FlushedOnto(db: Table, db': Table, undo: Undo, lo: int, hi: int, floor: int) {
    && GoodUndo(undo, db, lo, hi)
    && (forall k :: Tracked(k) && !Recorded(undo, k) ==> Get(db', k) == Get(db, k))
    && (forall h: nat :: lo < h && Height(h) ==> Get(db', UndoKey(h)) == UndoRow(undo, h))
    && (forall h: nat :: floor <= h <= lo ==> Get(db', UndoKey(h)) == Get(db, UndoKey(h)))
  }

  /** The tables inside the window at height `j`: what was recorded above it is back at its
      value before the window, the rest has its value after the window. */
  ghost predicate Between(db: Table, db': Table, undo: Undo, j: int, hi: int, t: Table) {
    && (forall k :: Tracked(k) ==> Get(t, k) == if RecordedAbove(undo, j, k) then Get(db, k) else Get(db', k))
    && (forall h: nat :: Height(h) && h <= j ==> Get(t, UndoKey(h)) == Get(db', UndoKey(h)))
    && (forall h: nat :: Height(h) && j < h ==> Get(t, UndoKey(h)) == None)
  }

  lemma StoredEntries(db: Table, undo: Undo, h: nat, t: Table, lo: int, hi: int)
    requires GoodUndo(undo, db, lo, hi) && h in undo && Get(t, UndoKey(h)) == UndoRow(undo, h)
    ensures BackedUp(t, h) == Restore(t, undo[h]) - {UndoKey(h)}
  {
    hide Encode, Decode, GoodUndo, Restore;
    assert GoodEntries(undo[h]) by {
      GoodAt(undo, db, lo, hi, h);
    }
    GoodAt(undo, db, lo, hi, h);
    RoundTripIff(undo[h]);
    EncodeEmpty(undo[h]);
  }

  lemma GoodAt(undo: Undo, db: Table, lo: int, hi: int, h: nat)
    requires GoodUndo(undo, db, lo, hi) && h in undo
    ensures lo < h <= hi && Height(h) && undo[h] != [] && GoodEntries(undo[h]) && SavedFrom(undo[h], db)
  {
  }

  lemma UndoKeysNotEntries(entries: seq<Entry>, k: Bytes)
    requires GoodEntries(entries) && !Tracked(k)
    ensures !HasKey(entries, k)
  {
  }

  lemma AboveStep(undo: Undo, j: int, k: Bytes)
    ensures RecordedAbove(undo, j - 1, k) <==> RecordedAbove(undo, j, k) || (j in undo && j >= 0 && HasKey(undo[j], k))
  {
  }

  lemma BetweenStep(db: Table, db': Table, undo: Undo, lo: int, j: nat, hi: int, floor: int, t: Table)
    requires FlushedOnto(db, db', undo, lo, hi, floor) && lo < j <= hi && Height(hi)
    requires Between(db, db', undo, j, hi, t)
    ensures Between(db, db', undo, j - 1, hi, BackedUp(t, j))
  {
    hide Encode, Decode, Restore, UndoKey, HasKey, RecordedAbove, Tracked, GoodEntries;
    var t' := BackedUp(t, j);
    assert Get(t, UndoKey(j)) == UndoRow(undo, j);
    if j in undo {
      GoodAt(undo, db, lo, hi, j);
      StoredEntries(db, undo, j, t, lo, hi);
      forall k
        ensures k != UndoKey(j) ==> Get(t', k) == if HasKey(undo[j], k) then Get(db, k) else Get(t, k)
      {
        RestoreGets(t, undo[j], db, k);
      }
      forall h: nat | Height(h)
        ensures h != j ==> Get(t', UndoKey(h)) == Get(t, UndoKey(h))
      {
        UndoKeysNotEntries(undo[j], UndoKey(h));
        if h != j {
          UndoKeysDiffer(h, j);
        }
      }
    }
    forall k | Tracked(k)
      ensures Get(t', k) == if RecordedAbove(undo, j - 1, k) then Get(db, k) else Get(db', k)
    {
      AboveStep(undo, j, k);
    }
  }

  /** Unwinding into a window. */
  lemma {:induction false} UnwindBetween(db: Table, db': Table, undo: Undo, lo: int, j: int, i: int, hi: int, floor: int, t: Table)
    requires FlushedOnto(db, db', undo, lo, hi, floor) && -1 <= lo <= j <= i <= hi && Height(hi)
    requires Between(db, db', undo, i, hi, t)
    ensures Between(db, db', undo, j, hi, Unwind(t, i, j))
    decreases i - j
  {
    hide BackedUp, Between, FlushedOnto;
    if j < i {
      BetweenStep(db, db', undo, lo, i, hi, floor, t);
      UnwindBetween(db, db', undo, lo, j, i - 1, hi, floor, BackedUp(t, i));
    }
  }

  lemma BetweenTop(db: Table, db': Table, undo: Undo, lo: int, hi: int, floor: int)
    requires FlushedOnto(db, db', undo, lo, hi, floor) && lo <= hi
    ensures Between(db, db', undo, hi, hi, db')
  {
    hide HasKey, Tracked, UndoKey, GoodEntries, SavedFrom;
  }

  /** Two states of the tables that agree on all tracked keys. */
  ghost predicate SameTracked(a: Table, b: Table) {
    forall k :: Tracked(k) ==> Get(a, k) == Get(b, k)
  }

  ghost predicate SameUndoRows(a: Table, b: Table, floor: int, top: int) {
    forall h: nat :: floor <= h <= top && Height(h) ==> Get(a, UndoKey(h)) == Get(b, UndoKey(h))
  }

  /** Unwinding a window to where it began gives the tables back as they were there: every
      tracked key, and the undo rows of older heights that are still kept. */
  lemma UnwindWindow(db: Table, db': Table, undo: Undo, lo: int, hi: int, floor: int)
    requires FlushedOnto(db, db', undo, lo, hi, floor) && -1 <= lo <= hi && Height(hi)
    ensures SameTracked(Unwind(db', hi, lo), db)
    ensures SameUndoRows(Unwind(db', hi, lo), db, floor, lo)
  {
    hide Unwind, HasKey, UndoKey, GoodEntries;
    BetweenTop(db, db', undo, lo, hi, floor);
    UnwindBetween(db, db', undo, lo, lo, hi, hi, floor, db');
    var t := Unwind(db', hi, lo);
    forall k | Tracked(k)
      ensures Get(t, k) == Get(db, k)
    {
      AllRecordedAbove(undo, db, lo, hi, k);
    }
  }

  lemma AllRecordedAbove(undo: Undo, db: Table, lo: int, hi: int, k: Bytes)
    requires GoodUndo(undo, db, lo, hi)
    ensures Recorded(undo, k) <==> RecordedAbove(undo, lo, k)
  {
    hide HasKey, GoodEntries, SavedFrom;
  }

  // ----- Unwinding over several windows -----

  lemma BackedUpSame(a: Table, b: Table, h: nat, floor: int, top: int)
    requires SameTracked(a, b) && SameUndoRows(a, b, floor, top) && floor <= h <= top && Height(h)
    ensures SameTracked(BackedUp(a, h), BackedUp(b, h))
    ensures SameUndoRows(BackedUp(a, h), BackedUp(b, h), floor, top)
  {
    hide Decode, Tracked, UndoKey, Restore;
    assert Get(a, UndoKey(h)) == Get(b, UndoKey(h));
    forall k | Get(a, k) == Get(b, k)
      ensures Get(BackedUp(a, h), k) == Get(BackedUp(b, h), k)
    {
      if UndoKey(h) in a {
        RestoreSame(a, b, Decode(a[UndoKey(h)]), k);
      }
    }
  }

  lemma {:induction false} RestoreSame(a: Table, b: Table, entries: seq<Entry>, k: Bytes)
    requires Get(a, k) == Get(b, k)
    ensures Get(Restore(a, entries), k) == Get(Restore(b, entries), k)
    decreases |entries|
  {
    if entries != [] {
      var e := entries[0];
      RestoreSame(Set(a, e.key, e.prev), Set(b, e.key, e.prev), entries[1..], k);
    }
  }

  lemma {:induction false} UnwindSame(a: Table, b: Table, i: int, j: int, floor: int)
    requires SameTracked(a, b) && SameUndoRows(a, b, floor, i)
    requires -1 <= j && floor - 1 <= j && (i <= j || Height(i))
    ensures SameTracked(Unwind(a, i, j), Unwind(b, i, j))
    decreases i - j
  {
    hide BackedUp, SameTracked, SameUndoRows;
    if j < i {
      BackedUpSame(a, b, i, floor, i);
      assert SameUndoRows(BackedUp(a, i), BackedUp(b, i), floor, i - 1) by {
        FewerRows(BackedUp(a, i), BackedUp(b, i), floor, i);
      }
      UnwindSame(BackedUp(a, i), BackedUp(b, i), i - 1, j, floor);
    }
  }

  lemma FewerRows(a: Table, b: Table, floor: int, top: int)
    requires SameUndoRows(a, b, floor, top)
    ensures SameUndoRows(a, b, floor, top - 1)
  {
  }

  lemma {:induction false} UnwindSplit(db: Table, hi: int, lo: int, to: int)
    requires -1 <= to <= lo
    ensures Unwind(db, hi, to) == Unwind(if lo <= hi then Unwind(db, hi, lo) else db, if lo <= hi then lo else hi, to)
    decreases hi - lo
  {
    hide BackedUp;
    if lo < hi {
      UnwindSplit(BackedUp(db, hi), hi - 1, lo, to);
    }
  }

  /** The heights up to `lo` are unwound to the same values from `db'` as from `db`. */
  ghost predicate UnwindsAlike(db: Table, lo: int, db': Table, hi: int, floor: int) {
    forall j :: -1 <= j <= lo && floor - 1 <= j ==> SameTracked(Unwind(db', hi, j), Unwind(db, lo, j))
  }

  /** A flush changes nothing of that. */
  lemma AlikeAfterFlush(db: Table, db': Table, undo: Undo, lo: int, hi: int, floor: int)
    requires FlushedOnto(db, db', undo, lo, hi, floor) && -1 <= lo <= hi && Height(hi)
    ensures UnwindsAlike(db, lo, db', hi, floor)
  {
    hide FlushedOnto, Unwind, Tracked, SameTracked, SameUndoRows;
    forall j | -1 <= j <= lo && floor - 1 <= j
      ensures SameTracked(Unwind(db', hi, j), Unwind(db, lo, j))
    {
      UnwindWindow(db, db', undo, lo, hi, floor);
      UnwindSplit(db', hi, lo, j);
      UnwindSame(Unwind(db', hi, lo), db, lo, j, floor);
    }
  }

  /** The tables as they were at the heights where a window ended. */
  type Marks = map<int, Table>

  /** Unwinding to any such height gives the tables back, as long as the undo rows are kept. */
  ghost predicate Unwinds(db: Table, height: int, floor: int, marks: Marks) {
    forall b :: b in marks && -1 <= b <= height && floor - 1 <= b ==> SameTracked(Unwind(db, height, b), marks[b])
  }

  /** A flush keeps the promise for all earlier boundaries and adds its own. */
  lemma UnwindsAfterFlush(
      db: Table, db': Table, undo: Undo, lo: int, hi: int, floor: int, floor': int, marks: Marks)
    requires Unwinds(db, lo, floor, marks) && floor <= floor' && -1 <= lo <= hi && Height(hi)
    requires FlushedOnto(db, db', undo, lo, hi, floor')
    requires forall b :: b in marks ==> b <= lo
    ensures Unwinds(db', hi, floor', marks[hi := db'])
  {
    hide FlushedOnto, Unwind, Tracked;
    AlikeAfterFlush(db, db', undo, lo, hi, floor');
    forall b | b in marks[hi := db'] && -1 <= b <= hi && floor' - 1 <= b
      ensures SameTracked(Unwind(db', hi, b), marks[hi := db'][b])
    {
      if b == hi {
        UnwindNone(db', hi);
      } else {
        assert SameTracked(Unwind(db, lo, b), marks[b]);
      }
    }
  }

  lemma UnwindNone(db: Table, h: int)
    requires h >= -1
    ensures Unwind(db, h, h) == db
  {
  }

  lemma UnwindsAfterBackup(db: Table, height: nat, floor: int, marks: Marks)
    requires Unwinds(db, height, floor, marks)
    ensures Unwinds(BackedUp(db, height), height - 1, floor, marks)
  {
    hide BackedUp, SameTracked;
    forall b | b in marks && -1 <= b <= height - 1 && floor - 1 <= b
      ensures SameTracked(Unwind(BackedUp(db, height), height - 1, b), marks[b])
    {
      assert Unwind(db, height, b) == Unwind(BackedUp(db, height), height - 1, b);
    }
  }

  // ----- Inside a window -----

  /** Inside a window the values are exact for a key if and only if it was not written after
      that height, or had the value from before the window there.  `at` is the value it has at
      height `j` in memory. */
  lemma InsideWindowIff(db: Table, db': Table, undo: Undo, lo: int, j: int, hi: int, floor: int, k: Bytes, at: Option<Bytes>)
    requires FlushedOnto(db, db', undo, lo, hi, floor) && -1 <= lo <= j <= hi && Height(hi) && Tracked(k)
    requires !RecordedAbove(undo, j, k) ==> at == Get(db', k)
    ensures Get(Unwind(db', hi, j), k) == at <==> (!RecordedAbove(undo, j, k) || at == Get(db, k))
  {
    hide Unwind, FlushedOnto, Tracked, UndoKey, RecordedAbove;
    BetweenTop(db, db', undo, lo, hi, floor);
    UnwindBetween(db, db', undo, lo, j, hi, hi, floor, db');
  }
}
