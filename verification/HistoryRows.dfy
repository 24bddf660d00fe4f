/** The rows of the history database and the lists they spell (electrumx/server/history.py).

    A row is keyed by a hashX and a flush id and holds transaction numbers of five bytes each.
    The history of a hashX is the concatenation of its rows in key order. */
module HistoryRows {
  import opened ByteStrings

  /** Flush ids are packed big-endian, so rows of one hashX sort by id (ByteStrings.BeOrder). */
  datatype RowKey = RowKey(hashX: Bytes, id: nat)

  type Rows = map<RowKey, Bytes>

  // ----- Five-byte transaction numbers -----

  function TxNums(b: Bytes): (r: seq<nat>)
    ensures |r| == |b| / 5
  {
    if |b| < 5 then [] else [FromLE(b[..5])] + TxNums(b[5..])
  }

  lemma TxNumsCons(h: Bytes, t: Bytes)
    requires |h| == 5
    ensures TxNums(h + t) == [FromLE(h)] + TxNums(t)
  {
    hide FromLE;
    assert (h + t)[..5] == h && (h + t)[5..] == t;
  }

  lemma {:induction false} TxNumsConcat(a: Bytes, b: Bytes)
    requires |a| % 5 == 0
    ensures TxNums(a + b) == TxNums(a) + TxNums(b)
    decreases |a|
  {
    hide FromLE, TxNums;
    if a == [] {
      assert a + b == b;
    } else {
      var h, t := a[..5], a[5..];
      assert a == h + t && a + b == h + (t + b);
      TxNumsConcat(t, b);
      TxNumsCons(h, t);
      TxNumsCons(h, t + b);
    }
  }

  /** The first `i` numbers are in the first 5 * i bytes. */
  lemma TxNumsTake(b: Bytes, i: nat)
    requires 5 * i <= |b|
    ensures TxNums(b[..5 * i]) == TxNums(b)[..i]
  {
    assert b == b[..5 * i] + b[5 * i..];
    TxNumsConcat(b[..5 * i], b[5 * i..]);
  }

  lemma TxNumsOne(n: nat)
    requires n < Range(5)
    ensures TxNums(LE(n, 8)[..5]) == [n]
  {
    hide LE, FromLE;
    LeTake(n, 5, 8);
    FromLeOfLe(n, 5);
    var b := LE(n, 8)[..5];
    assert b[..5] == b && b[5..] == [];
    assert TxNums([]) == [];
  }

  predicate Increasing(s: seq<nat>) {
    forall i, j :: 0 <= i < j < |s| ==> s[i] < s[j]
  }

  /** The numbers below `n`. */
  function Below(s: seq<nat>, n: nat): seq<nat> {
    if s == [] then [] else (if s[0] < n then [s[0]] else []) + Below(s[1..], n)
  }

  lemma {:induction false} BelowConcat(s: seq<nat>, t: seq<nat>, n: nat)
    ensures Below(s + t, n) == Below(s, n) + Below(t, n)
  {
    if s == [] {
      assert s + t == t;
    } else {
      assert (s + t)[1..] == s[1..] + t;
      BelowConcat(s[1..], t, n);
    }
  }

  lemma {:induction false} BelowAll(s: seq<nat>, n: nat)
    requires forall i :: 0 <= i < |s| ==> s[i] < n
    ensures Below(s, n) == s
  {
    if s != [] {
      assert forall i :: 0 <= i < |s[1..]| ==> s[1..][i] == s[i + 1];
      BelowAll(s[1..], n);
      assert [s[0]] + s[1..] == s;
    }
  }

  lemma {:induction false} BelowNone(s: seq<nat>, n: nat)
    requires forall i :: 0 <= i < |s| ==> n <= s[i]
    ensures Below(s, n) == []
  {
    if s != [] {
      assert forall i :: 0 <= i < |s[1..]| ==> s[1..][i] == s[i + 1];
      BelowNone(s[1..], n);
    }
  }

  /** The insertion point of `n` in a sorted list. */
  function BisectLeft(s: seq<nat>, n: nat): (k: nat)
    ensures k <= |s|
    ensures forall i :: 0 <= i < k ==> s[i] < n
    ensures k < |s| ==> n <= s[k]
  {
    if s == [] || n <= s[0] then 0 else BisectLeft(s[1..], n) + 1
  }

  /** In a sorted list the numbers below `n` are those before the insertion point. */
  lemma BelowIsPrefix(s: seq<nat>, n: nat)
    requires Increasing(s)
    ensures Below(s, n) == s[..BisectLeft(s, n)]
  {
    hide Below, BisectLeft;
    var k := BisectLeft(s, n);
    var front, back := s[..k], s[k..];
    assert s == front + back;
    assert forall i :: 0 <= i < |back| ==> back[i] == s[k + i] && n <= s[k + i];
    assert front + [] == front;
    BelowConcat(front, back, n);
    BelowAll(front, n);
    BelowNone(back, n);
  }

  // ----- Rows in key order -----

  function RowOr(rows: Rows, hashX: Bytes, id: nat): Bytes {
    if RowKey(hashX, id) in rows then rows[RowKey(hashX, id)] else []
  }

  /** The rows of `hashX` with ids below `hi`, joined in key order. */
  function Joined(rows: Rows, hashX: Bytes, hi: nat): Bytes {
    if hi == 0 then [] else Joined(rows, hashX, hi - 1) + RowOr(rows, hashX, hi - 1)
  }

  lemma JoinedLast(rows: Rows, hashX: Bytes, id: nat)
    ensures Joined(rows, hashX, id + 1) == Joined(rows, hashX, id) + RowOr(rows, hashX, id)
  {
  }

  /** Rows hold whole numbers and are not empty. */
  predicate WellFormed(rows: Rows) {
    forall k {:trigger k in rows} {:trigger rows[k]} :: k in rows ==> |rows[k]| > 0 && |rows[k]| % 5 == 0
  }

  /** The rows with those of a flush added under its id. */
  function FlushedRows(rows: Rows, unflushed: map<Bytes, Bytes>, id: nat): Rows {
    rows + map k | k in (set h | h in unflushed :: RowKey(h, id)) :: unflushed[k.hashX]
  }

  predicate IdsBelow(rows: Rows, hi: nat) {
    forall k :: k in rows ==> k.id < hi
  }

  lemma {:induction false} JoinedWhole(rows: Rows, hashX: Bytes, hi: nat)
    requires WellFormed(rows)
    ensures |Joined(rows, hashX, hi)| % 5 == 0
  {
    if hi > 0 {
      JoinedWhole(rows, hashX, hi - 1);
    }
  }

  /** Only the rows of the hashX matter. */
  lemma {:induction false} JoinedSame(rows: Rows, rows': Rows, hashX: Bytes, hi: nat)
    requires forall id: nat :: id < hi ==> RowOr(rows, hashX, id) == RowOr(rows', hashX, id)
    ensures Joined(rows, hashX, hi) == Joined(rows', hashX, hi)
  {
    if hi > 0 {
      JoinedSame(rows, rows', hashX, hi - 1);
    }
  }

  /** Ids without a row add nothing. */
  lemma {:induction false} JoinedBeyond(rows: Rows, hashX: Bytes, lo: nat, hi: nat)
    requires lo <= hi && forall id: nat :: lo <= id < hi ==> RowKey(hashX, id) !in rows
    ensures Joined(rows, hashX, hi) == Joined(rows, hashX, lo)
  {
    if lo < hi {
      JoinedBeyond(rows, hashX, lo, hi - 1);
    }
  }

  /** The part of the joined rows that comes before a given id. */
  lemma {:induction false} JoinedPrefix(rows: Rows, hashX: Bytes, lo: nat, hi: nat)
    requires lo <= hi
    ensures Joined(rows, hashX, lo) <= Joined(rows, hashX, hi)
  {
    if lo < hi {
      JoinedPrefix(rows, hashX, lo, hi - 1);
    }
  }

  // ----- Which numbers a list of transactions adds to a hashX -----

  /** The numbers, from `first` on, of the transactions that touch `hashX`. */
  function Touching(hashXsByTx: seq<set<Bytes>>, first: nat, hashX: Bytes): seq<nat> {
    if hashXsByTx == [] then []
    else (if hashX in hashXsByTx[0] then [first] else []) + Touching(hashXsByTx[1..], first + 1, hashX)
  }

  lemma {:induction false} TouchingFrom(hashXsByTx: seq<set<Bytes>>, first: nat, hashX: Bytes)
    ensures var t := Touching(hashXsByTx, first, hashX);
            Increasing(t) && forall i :: 0 <= i < |t| ==> first <= t[i] < first + |hashXsByTx|
  {
    if hashXsByTx != [] {
      TouchingFrom(hashXsByTx[1..], first + 1, hashX);
    }
  }

  /** A list as the history keeps it: increasing, and below the next transaction number. */
  predicate Recorded(s: seq<nat>, next: nat) {
    Increasing(s) && forall i :: 0 <= i < |s| ==> s[i] < next
  }

  lemma RecordedMore(s: seq<nat>, next: nat, more: nat)
    requires Recorded(s, next) && next <= more
    ensures Recorded(s, more)
  {
  }

  lemma RecordedBelow(s: seq<nat>, next: nat, n: nat)
    requires Recorded(s, next)
    ensures Recorded(Below(s, n), n) && Recorded(Below(s, n), next)
  {
    hide Below, BisectLeft;
    BelowIsPrefix(s, n);
  }
}
