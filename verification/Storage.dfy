/** The ordered iterators over both database engines (electrumx/server/storage.py).

    The database is its keys in strictly increasing order.  The reference is `IsScan`: the rows
    under a prefix that the seek key bounds, each once, in order.  All code paths meet it,
    provided that no key of the database is a stray: one that sorts between the keys under the
    prefix and the incremented prefix that bounds them. */
module Storage {
  import opened ByteStrings

  predicate Sorted(keys: seq<Bytes>) {
    forall i, j :: 0 <= i < j < |keys| ==> Lt(keys[i], keys[j])
  }

  // ----- Order -----

  lemma LeTransitive(a: Bytes, b: Bytes, c: Bytes)
    requires Le(a, b) && Le(b, c)
    ensures Le(a, c)
  {
    if a != b && b != c {
      LtTransitive(a, b, c);
    }
  }

  lemma LtLe(a: Bytes, b: Bytes)
    ensures Lt(a, b) <==> !Le(b, a)
  {
    LtTotal(a, b);
    LtIrreflexive(a);
    if Lt(a, b) && Lt(b, a) {
      LtTransitive(a, b, a);
    }
  }

  lemma {:induction false} PrefixLe(k: Bytes, p: Bytes)
    requires StartsWith(k, p)
    ensures Le(p, k)
  {
    if p != [] {
      assert k[0] == p[0] && k[1..][..|p| - 1] == k[..|p|][1..];
      PrefixLe(k[1..], p[1..]);
      assert k == [k[0]] + k[1..] && p == [p[0]] + p[1..];
    }
  }

  /** Keys between the prefix and a key under it are under it. */
  lemma {:induction false} PrefixConvex(p: Bytes, a: Bytes, b: Bytes)
    requires Le(p, a) && Le(a, b) && StartsWith(b, p)
    ensures StartsWith(a, p)
  {
    if p != [] {
      assert b[0] == p[0] && b[1..][..|p| - 1] == b[..|p|][1..];
      assert a[0] == p[0];
      assert p == [p[0]] + p[1..] && a == [a[0]] + a[1..] && b == [b[0]] + b[1..];
      PrefixConvex(p[1..], a[1..], b[1..]);
      assert a[..|p|] == [a[0]] + a[1..][..|p| - 1];
    }
  }

  // ----- Incrementing a byte string -----

  /** The next byte string of the same length; None for 0xff bytes only. */
  function Increment(bs: Bytes): (r: Option<Bytes>)
    ensures r.Some? ==> |r.value| == |bs|
  {
    if bs == [] then None
    else
      match Increment(bs[1..])
      case Some(t) => Some([bs[0]] + t)
      case None => if bs[0] < 255 then Some([bs[0] + 1] + Zeros(|bs| - 1)) else None
  }

  predicate AllMax(bs: Bytes) {
    forall i :: 0 <= i < |bs| ==> bs[i] == 255
  }

  lemma {:induction false} IncrementMax(bs: Bytes)
    requires AllMax(bs)
    ensures Increment(bs) == None
  {
    if bs != [] {
      IncrementMax(bs[1..]);
    }
  }

  lemma {:induction false} IncrementAt(a: Bytes, x: Byte, tail: Bytes)
    requires x < 255 && AllMax(tail)
    ensures Increment(a + [x] + tail) == Some(a + [x + 1] + Zeros(|tail|))
  {
    var bs := a + [x] + tail;
    if a == [] {
      assert bs == [x] + tail && bs[1..] == tail;
      IncrementMax(tail);
      assert a + [x + 1] + Zeros(|tail|) == [x + 1] + Zeros(|tail|);
    } else {
      assert bs[1..] == a[1..] + [x] + tail;
      IncrementAt(a[1..], x, tail);
      assert [a[0]] + (a[1..] + [x + 1] + Zeros(|tail|)) == a + [x + 1] + Zeros(|tail|);
    }
  }

  method IncrementByteString(bs: Bytes) returns (r: Option<Bytes>)
    ensures r == Increment(bs)
  {
    for n := 1 to |bs| + 1
      invariant AllMax(bs[|bs| - (n - 1)..])
    {
      var x := bs[|bs| - n];
      var tail := bs[|bs| - (n - 1)..];
      assert bs == bs[..|bs| - n] + [x] + tail;
      if x != 255 {
        IncrementAt(bs[..|bs| - n], x, tail);
        return Some(bs[..|bs| - n] + [x + 1] + Zeros(n - 1));
      }
    }
    assert bs[0..] == bs;
    IncrementMax(bs);
    return None;
  }

  predicate BelowIncrement(k: Bytes, p: Bytes) {
    match Increment(p)
    case None => true
    case Some(q) => Lt(k, q)
  }

  lemma {:induction false} PrefixBelow(k: Bytes, p: Bytes)
    requires StartsWith(k, p)
    ensures BelowIncrement(k, p)
  {
    if p != [] {
      assert k[0] == p[0] && k[1..][..|p| - 1] == k[..|p|][1..];
      PrefixBelow(k[1..], p[1..]);
    }
  }

  /** A key in the bounds of a prefix that is not under it. */
  predicate Stray(k: Bytes, p: Bytes) {
    Le(p, k) && BelowIncrement(k, p) && !StartsWith(k, p)
  }

  /** Strays are shorter than the prefix, and only prefixes that end with 0xff have any: they
      are the incremented prefix with trailing zeros cut off. */
  lemma {:induction false} StrayIs(k: Bytes, p: Bytes)
    requires Stray(k, p)
    ensures |k| < |p| && p[|p| - 1] == 255
    ensures Increment(p).Some? && StartsWith(Increment(p).value, k)
  {
    assert p == [] ==> StartsWith(k, p);
    var p', k' := p[1..], k[1..];
    assert p == [p[0]] + p' && k == [k[0]] + k';
    if k[0] == p[0] {
      if |p'| <= |k'| {
        assert k[..|p|] == [k[0]] + k'[..|p'|];
      }
      StrayIs(k', p');
      assert Increment(p).value == [p[0]] + Increment(p').value;
    } else {
      IncrementNone(p');
      ZerosBelow(k', |p'|);
    }
  }

  /** The converse: a prefix that ends with 0xff has strays. */
  lemma CutIsStray(head: Bytes, x: Byte, tail: Bytes, n: nat)
    requires x < 255 && AllMax(tail) && n < |tail|
    ensures Stray(head + [x + 1] + Zeros(n), head + [x] + tail)
  {
    hide Lt, Increment;
    var k, p := head + [x + 1] + Zeros(n), head + [x] + tail;
    IncrementAt(head, x, tail);
    assert head + [x + 1] + Zeros(|tail|) == k + Zeros(|tail| - n);
    LtExtend(k, Zeros(|tail| - n));
    assert k == head + ([x + 1] + Zeros(n)) && p == head + ([x] + tail);
    LtPrefix(head, [x] + tail, [x + 1] + Zeros(n));
    LtFirst(x, tail, x + 1, Zeros(n));
  }

  lemma LtFirst(x: Byte, a: Bytes, y: Byte, b: Bytes)
    requires x < y
    ensures Lt([x] + a, [y] + b)
  {
  }

  lemma {:induction false} LtExtend(k: Bytes, more: Bytes)
    requires more != []
    ensures Lt(k, k + more)
  {
    if k != [] {
      assert (k + more)[1..] == k[1..] + more;
      LtExtend(k[1..], more);
    }
  }

  lemma {:induction false} IncrementNone(p: Bytes)
    requires Increment(p) == None
    ensures AllMax(p)
  {
    if p != [] {
      IncrementNone(p[1..]);
      assert p == [p[0]] + p[1..];
    }
  }

  lemma {:induction false} ZerosBelow(k: Bytes, n: nat)
    requires Lt(k, Zeros(n))
    ensures |k| < n && StartsWith(Zeros(n), k)
  {
    if k != [] {
      assert Zeros(n)[1..] == Zeros(n - 1);
      ZerosBelow(k[1..], n - 1);
      assert k == [k[0]] + k[1..];
    }
  }

  ghost predicate NoStray(keys: seq<Bytes>, prefix: Bytes) {
    forall k :: k in keys ==> !Stray(k, prefix)
  }

  /** Databases whose keys are at least as long as the prefix have no stray. */
  lemma LongKeysNoStray(keys: seq<Bytes>, prefix: Bytes)
    requires forall k :: k in keys ==> |prefix| <= |k|
    ensures NoStray(keys, prefix)
  {
    forall k | k in keys
      ensures !Stray(k, prefix)
    {
      if Stray(k, prefix) {
        StrayIs(k, prefix);
      }
    }
  }

  // ----- The reference -----

  /** The row is asked for: it is under the prefix, and on the right side of a seek key that is
      not below the prefix. */
  predicate Wanted(k: Bytes, prefix: Bytes, seek: Bytes, reverse: bool) {
    && StartsWith(k, prefix)
    && (seek != [] && Le(prefix, seek) ==> if reverse then Le(k, seek) else Le(seek, k))
  }

  predicate InOrder(r: seq<Bytes>, reverse: bool) {
    forall i, j :: 0 <= i < j < |r| ==> if reverse then Lt(r[j], r[i]) else Lt(r[i], r[j])
  }

  ghost predicate IsScan(r: seq<Bytes>, keys: seq<Bytes>, prefix: Bytes, seek: Bytes, reverse: bool) {
    InOrder(r, reverse) && forall k :: k in r <==> k in keys && Wanted(k, prefix, seek, reverse)
  }

  // ----- LevelDB: bounds -----

  /** Where the engine's iterator starts and stops. */
  datatype Bounds = Bounds(start: Bytes, stop: Option<Bytes>, includeStop: bool) {
    predicate Has(k: Bytes) {
      Le(start, k) && (stop == None || Lt(k, stop.value) || (includeStop && k == stop.value))
    }
  }

  /** The engine: the keys in the bounds, in order. */
  function InBounds(keys: seq<Bytes>, b: Bounds): seq<Bytes> {
    if keys == [] then [] else (if b.Has(keys[0]) then [keys[0]] else []) + InBounds(keys[1..], b)
  }

  function Reversed(s: seq<Bytes>): (r: seq<Bytes>)
    ensures |r| == |s| && forall i :: 0 <= i < |s| ==> r[i] == s[|s| - 1 - i]
  {
    if s == [] then [] else Reversed(s[1..]) + [s[0]]
  }

  lemma {:induction false} InBoundsHas(keys: seq<Bytes>, b: Bounds, k: Bytes)
    ensures k in InBounds(keys, b) <==> k in keys && b.Has(k)
  {
    hide Bounds.Has;
    if keys != [] {
      assert keys == [keys[0]] + keys[1..];
      InBoundsHas(keys[1..], b, k);
    }
  }

  lemma {:induction false} InBoundsSorted(keys: seq<Bytes>, b: Bounds)
    requires Sorted(keys)
    ensures Sorted(InBounds(keys, b))
  {
    hide Bounds.Has, Lt;
    if keys != [] {
      var rest := keys[1..];
      InBoundsSorted(rest, b);
      var tail := InBounds(rest, b);
      forall i | 0 <= i < |tail|
        ensures Lt(keys[0], tail[i])
      {
        InBoundsHas(rest, b, tail[i]);
        var j :| 0 <= j < |rest| && rest[j] == tail[i];
        assert keys[j + 1] == tail[i];
      }
    }
  }

  lemma InBoundsIs(keys: seq<Bytes>, b: Bounds)
    requires Sorted(keys)
    ensures Sorted(InBounds(keys, b)) && forall k :: k in InBounds(keys, b) <==> k in keys && b.Has(k)
  {
    hide Sorted, InBounds, Bounds.Has;
    InBoundsSorted(keys, b);
    forall k
      ensures k in InBounds(keys, b) <==> k in keys && b.Has(k)
    {
      InBoundsHas(keys, b, k);
    }
  }

  method LevelDbBounds(prefix: Bytes, reverse: bool, seek: Bytes) returns (b: Bounds)
    ensures b == BoundsFor(prefix, reverse, seek)
  {
    var start := prefix;
    var stop: Option<Bytes> := None;
    var includeStop := false;
    if prefix != [] {
      stop := IncrementByteString(prefix);
    }
    if seek != [] && Le(prefix, seek) {
      if reverse {
        if stop == None || Lt(seek, stop.value) {
          stop := Some(seek);
          includeStop := true;
        }
      } else {
        start := seek;
      }
    }
    return Bounds(start, stop, includeStop);
  }

  function BoundsFor(prefix: Bytes, reverse: bool, seek: Bytes): Bounds {
    var stop := Increment(prefix);
    if seek == [] || !Le(prefix, seek) then Bounds(prefix, stop, false)
    else if !reverse then Bounds(seek, stop, false)
    else if stop == None || Lt(seek, stop.value) then Bounds(prefix, Some(seek), true)
    else Bounds(prefix, stop, false)
  }

  /** No stray lies in the bounds. */
  ghost predicate NoStrayInBounds(keys: seq<Bytes>, prefix: Bytes, reverse: bool, seek: Bytes) {
    forall k :: k in keys && Stray(k, prefix) ==> !BoundsFor(prefix, reverse, seek).Has(k)
  }

  /** The rows of `LevelDB.iterator`: the rows asked for if and only if no stray lies in the bounds. */
  method LevelDbIterator(keys: seq<Bytes>, prefix: Bytes, reverse: bool, seek: Bytes) returns (r: seq<Bytes>)
    requires Sorted(keys)
    ensures IsScan(r, keys, prefix, seek, reverse) <==> NoStrayInBounds(keys, prefix, reverse, seek)
    ensures NoStray(keys, prefix) ==> IsScan(r, keys, prefix, seek, reverse)
    ensures seek == [] ==> (NoStray(keys, prefix) <==> IsScan(r, keys, prefix, seek, reverse))
  {
    hide Lt, StartsWith, Bounds.Has, BoundsFor, Stray, Wanted;
    var b := LevelDbBounds(prefix, reverse, seek);
    InBoundsIs(keys, b);
    var up := InBounds(keys, b);
    r := if reverse then Reversed(up) else up;
    ReversedElements(up);
    forall k
      ensures !Stray(k, prefix) ==> (b.Has(k) <==> Wanted(k, prefix, seek, reverse))
      ensures seek == [] ==> (b.Has(k) <==> Wanted(k, prefix, seek, reverse) || Stray(k, prefix))
      ensures Wanted(k, prefix, seek, reverse) ==> !Stray(k, prefix)
    {
      BoundsAre(prefix, reverse, seek, k);
    }
  }

  lemma ReversedElements(s: seq<Bytes>)
    ensures forall k :: k in Reversed(s) <==> k in s
    ensures Sorted(s) ==> InOrder(Reversed(s), true) && InOrder(s, false)
  {
    hide Lt;
    forall k
      ensures k in Reversed(s) <==> k in s
    {
      if k in s {
        var i :| 0 <= i < |s| && s[i] == k;
        assert Reversed(s)[|s| - 1 - i] == k;
      }
    }
  }

  /** The bounds hold exactly the rows wanted, and some of the strays. */
  lemma BoundsAre(prefix: Bytes, reverse: bool, seek: Bytes, k: Bytes)
    ensures var b := BoundsFor(prefix, reverse, seek);
            && (!Stray(k, prefix) ==> (b.Has(k) <==> Wanted(k, prefix, seek, reverse)))
            && (seek == [] ==> (b.Has(k) <==> Wanted(k, prefix, seek, reverse) || Stray(k, prefix)))
            && (Wanted(k, prefix, seek, reverse) ==> !Stray(k, prefix))
  {
    hide Lt, StartsWith, Increment;
    if StartsWith(k, prefix) {
      PrefixLe(k, prefix);
      PrefixBelow(k, prefix);
    }
    if seek != [] && Le(prefix, seek) {
      if Le(seek, k) {
        LeTransitive(prefix, seek, k);
      }
      LtLe(k, seek);
      if Increment(prefix).Some? {
        var stop := Increment(prefix).value;
        LtLe(seek, stop);
        if Le(k, seek) && Lt(seek, stop) {
          LeLt(k, seek, stop);
        }
        if Lt(k, stop) && Le(stop, seek) {
          LeTransitive(k, stop, seek);
        }
      }
    }
  }

  lemma LeLt(a: Bytes, b: Bytes, c: Bytes)
    requires Le(a, b) && Lt(b, c)
    ensures Lt(a, c)
  {
    if a != b {
      LtTransitive(a, b, c);
    }
  }

  // ----- RocksDB: a cursor that is parked and stepped -----

  /** The number of keys below `t`. */
  function LowerBound(keys: seq<Bytes>, t: Bytes): (n: nat)
    ensures n <= |keys|
    ensures forall i :: 0 <= i < n ==> Lt(keys[i], t)
    ensures n < |keys| ==> Le(t, keys[n])
  {
    if keys == [] then 0
    else
      LtLe(keys[0], t);
      if Le(t, keys[0]) then 0 else 1 + LowerBound(keys[1..], t)
  }

  /** The number of keys up to `t`. */
  function UpperBound(keys: seq<Bytes>, t: Bytes): (n: nat)
    ensures n <= |keys|
    ensures forall i :: 0 <= i < n ==> Le(keys[i], t)
    ensures n < |keys| ==> Lt(t, keys[n])
  {
    if keys == [] then 0
    else
      LtLe(t, keys[0]);
      if Lt(t, keys[0]) then 0 else 1 + UpperBound(keys[1..], t)
  }

  /** The engine's iterator: plain Seek parks on the first key at or above the target, also when
      stepping is reversed. */
  class Cursor {
    const keys: seq<Bytes>
    const reversed: bool
    var pos: int   // outside the keys when exhausted

    constructor (keys: seq<Bytes>, reversed: bool)
      ensures this.keys == keys && this.reversed == reversed
    {
      this.keys, this.reversed, pos := keys, reversed, -1;
    }

    method Seek(t: Bytes)
      modifies this
      ensures pos == LowerBound(keys, t)
    {
      pos := LowerBound(keys, t);
    }

    method SeekForPrev(t: Bytes)
      modifies this
      ensures pos == UpperBound(keys, t) - 1
    {
      pos := UpperBound(keys, t) - 1;
    }

    method SeekToLast()
      modifies this
      ensures pos == |keys| - 1
    {
      pos := |keys| - 1;
    }

    /** The current key, and one step; None when exhausted. */
    method Next() returns (r: Option<Bytes>)
      modifies this
      ensures 0 <= old(pos) < |keys| ==> r == Some(keys[old(pos)]) && pos == old(pos) + if reversed then -1 else 1
      ensures !(0 <= old(pos) < |keys|) ==> r == None && pos == old(pos)
    {
      if 0 <= pos < |keys| {
        r := Some(keys[pos]);
        pos := pos + if reversed then -1 else 1;
      } else {
        r := None;
      }
    }
  }

  class RocksDBIterator {
    const prefix: Bytes
    const cursor: Cursor
    const hasSeekForPrev: bool   // python-rocksdb from 0.7 on

    constructor (keys: seq<Bytes>, prefix: Bytes, reverse: bool, seek: Bytes, hasSeekForPrev: bool)
      requires Sorted(keys)
      ensures fresh(cursor) && cursor.keys == keys && cursor.reversed == reverse && this.prefix == prefix
      ensures cursor.pos == if reverse then ParkDown(keys, prefix, seek) else ParkUp(keys, prefix, seek)
    {
      hide Lt, LowerBound, UpperBound;
      this.prefix, this.hasSeekForPrev := prefix, hasSeekForPrev;
      cursor := new Cursor(keys, reverse);
      new;
      if reverse {
        var nxt := IncrementByteString(prefix);
        if seek != [] && Le(prefix, seek) && (nxt == None || Lt(seek, nxt.value)) {
          ParkAtOrBelow(seek);
        } else if nxt.Some? {
          ParkBelow(nxt.value);
        } else {
          cursor.SeekToLast();
        }
      } else {
        var start := if seek != [] && Le(prefix, seek) then seek else prefix;
        cursor.Seek(start);
      }
    }

    /** Parks on the largest key at or below the target, either way. */
    method ParkAtOrBelow(target: Bytes)
      requires Sorted(cursor.keys) && cursor.reversed
      modifies cursor
      ensures cursor.pos == UpperBound(cursor.keys, target) - 1
    {
      hide Lt, LowerBound, UpperBound;
      if hasSeekForPrev {
        cursor.SeekForPrev(target);
        return;
      }
      LowerUpper(cursor.keys, target);
      cursor.Seek(target);
      var key := cursor.Next();
      if key == None {
        cursor.SeekToLast();
        return;
      }
      if key.value == target {
        cursor.Seek(target);
      }
    }

    /** Parks on the largest key below the bound, either way. */
    method ParkBelow(bound: Bytes)
      requires Sorted(cursor.keys) && cursor.reversed
      modifies cursor
      ensures cursor.pos == LowerBound(cursor.keys, bound) - 1
    {
      hide Lt, LowerBound, UpperBound;
      LowerUpper(cursor.keys, bound);
      if !hasSeekForPrev {
        cursor.Seek(bound);
        var key := cursor.Next();
        if key == None {
          cursor.SeekToLast();
        }
        return;
      }
      cursor.SeekForPrev(bound);
      var key := cursor.Next();
      if key == None {
        return;
      }
      LtIrreflexive(bound);
      if key.value != bound {
        AtKey(cursor.keys, cursor.pos + 1);
        cursor.SeekForPrev(key.value);
      }
    }

    method Next() returns (r: Option<Bytes>)
      modifies cursor
      ensures r == if 0 <= old(cursor.pos) < |cursor.keys| && StartsWith(cursor.keys[old(cursor.pos)], prefix)
                   then Some(cursor.keys[old(cursor.pos)]) else None
      ensures cursor.pos == if 0 <= old(cursor.pos) < |cursor.keys|
                            then old(cursor.pos) + (if cursor.reversed then -1 else 1) else old(cursor.pos)
    {
      var entry := cursor.Next();
      if entry == None || !StartsWith(entry.value, prefix) {
        return None;
      }
      return entry;
    }

    /** All rows, in order, until the iterator stops. */
    method Rows() returns (r: seq<Bytes>)
      modifies cursor
      ensures r == if cursor.reversed then RunDown(cursor.keys, old(cursor.pos), prefix)
                   else RunUp(cursor.keys, old(cursor.pos), prefix)
    {
      hide StartsWith;
      r := [];
      while true
        invariant cursor.reversed ==>
                    RunDown(cursor.keys, old(cursor.pos), prefix) == r + RunDown(cursor.keys, cursor.pos, prefix)
        invariant !cursor.reversed ==>
                    RunUp(cursor.keys, old(cursor.pos), prefix) == r + RunUp(cursor.keys, cursor.pos, prefix)
        decreases if 0 <= cursor.pos < |cursor.keys| then
                    if cursor.reversed then cursor.pos + 1 else |cursor.keys| - cursor.pos
                  else 0
      {
        ghost var p, r0 := cursor.pos, r;
        var key := Next();
        if key == None {
          return;
        }
        r := r + [key.value];
      }
    }
  }

  /** Where an ascending iterator starts. */
  function ParkUp(keys: seq<Bytes>, prefix: Bytes, seek: Bytes): int {
    LowerBound(keys, if seek != [] && Le(prefix, seek) then seek else prefix)
  }

  /** Where a descending iterator starts. */
  function ParkDown(keys: seq<Bytes>, prefix: Bytes, seek: Bytes): int {
    var nxt := Increment(prefix);
    if seek != [] && Le(prefix, seek) && (nxt == None || Lt(seek, nxt.value)) then UpperBound(keys, seek) - 1
    else if nxt.Some? then LowerBound(keys, nxt.value) - 1
    else |keys| - 1
  }

  /** The rows under the prefix from position `p` up, until the first that is not. */
  function RunUp(keys: seq<Bytes>, p: int, prefix: Bytes): seq<Bytes>
    decreases |keys| - p
  {
    if !(0 <= p < |keys|) || !StartsWith(keys[p], prefix) then [] else [keys[p]] + RunUp(keys, p + 1, prefix)
  }

  /** The same, down. */
  function RunDown(keys: seq<Bytes>, p: int, prefix: Bytes): seq<Bytes>
    decreases p
  {
    if !(0 <= p < |keys|) || !StartsWith(keys[p], prefix) then [] else [keys[p]] + RunDown(keys, p - 1, prefix)
  }

  /** At most one key lies between the two bounds: the target itself. */
  lemma LowerUpper(keys: seq<Bytes>, t: Bytes)
    requires Sorted(keys)
    ensures var lo, hi := LowerBound(keys, t), UpperBound(keys, t);
            if lo < |keys| && keys[lo] == t then hi == lo + 1 else hi == lo
  {
    hide Lt, LowerBound, UpperBound;
    var lo, hi := LowerBound(keys, t), UpperBound(keys, t);
    if hi < lo {
      LtLe(keys[hi], t);
    }
    if lo < |keys| && keys[lo] == t {
      LtIrreflexive(t);
      if hi > lo + 1 {
        LtLe(keys[lo], keys[lo + 1]);
      }
    } else if lo < hi {
      LtLe(t, keys[lo]);
    }
  }

  lemma AtKey(keys: seq<Bytes>, i: nat)
    requires Sorted(keys) && i < |keys|
    ensures UpperBound(keys, keys[i]) == i + 1
  {
    hide Lt, LowerBound, UpperBound;
    var n := UpperBound(keys, keys[i]);
    LtIrreflexive(keys[i]);
    if n <= i {
      if n < i {
        LtTransitive(keys[i], keys[n], keys[i]);
      }
    } else if n > i + 1 {
      LtLe(keys[i], keys[i + 1]);
    }
  }

  // ----- What the runs are -----

  lemma SortedAt(keys: seq<Bytes>, i: nat, j: nat)
    requires Sorted(keys) && i < |keys| && j < |keys|
    ensures i <= j <==> Le(keys[i], keys[j])
  {
    hide Lt;
    if j < i {
      LtLe(keys[j], keys[i]);
    }
  }

  lemma {:induction false} RunUpSlice(keys: seq<Bytes>, p: nat, prefix: Bytes)
    requires p <= |keys|
    ensures var q := p + |RunUp(keys, p, prefix)|;
            && q <= |keys| && RunUp(keys, p, prefix) == keys[p..q]
            && (forall i :: p <= i < q ==> StartsWith(keys[i], prefix))
            && (q < |keys| ==> !StartsWith(keys[q], prefix))
    decreases |keys| - p
  {
    hide StartsWith;
    if p < |keys| && StartsWith(keys[p], prefix) {
      RunUpSlice(keys, p + 1, prefix);
    }
  }

  lemma {:induction false} RunDownSlice(keys: seq<Bytes>, p: int, prefix: Bytes)
    requires -1 <= p < |keys|
    ensures var r := RunDown(keys, p, prefix);
            var q := p - |r|;
            && -1 <= q && (forall i :: 0 <= i < |r| ==> r[i] == keys[p - i])
            && (forall i :: q < i <= p ==> StartsWith(keys[i], prefix))
            && (0 <= q ==> !StartsWith(keys[q], prefix))
    decreases p
  {
    hide StartsWith;
    if 0 <= p && StartsWith(keys[p], prefix) {
      RunDownSlice(keys, p - 1, prefix);
    }
  }

  /** Rows under the prefix stand together. */
  lemma NoneAbove(keys: seq<Bytes>, q: nat, i: nat, prefix: Bytes)
    requires Sorted(keys) && q <= i < |keys| && Le(prefix, keys[q]) && !StartsWith(keys[q], prefix)
    ensures !StartsWith(keys[i], prefix)
  {
    hide Lt, StartsWith;
    SortedAt(keys, q, i);
    if StartsWith(keys[i], prefix) {
      PrefixConvex(prefix, keys[q], keys[i]);
    }
  }

  lemma NoneBelow(keys: seq<Bytes>, q: nat, i: nat, prefix: Bytes)
    requires Sorted(keys) && i <= q < |keys| && BelowIncrement(keys[q], prefix) && !Stray(keys[q], prefix)
    requires !StartsWith(keys[q], prefix)
    ensures !StartsWith(keys[i], prefix)
  {
    hide Lt, StartsWith, Increment;
    SortedAt(keys, i, q);
    if StartsWith(keys[i], prefix) {
      PrefixLe(keys[i], prefix);
      LeTransitive(prefix, keys[i], keys[q]);
    }
  }

  /** An ascending RocksDB iterator yields the scan, strays or not. */
  lemma UpIsScan(keys: seq<Bytes>, prefix: Bytes, seek: Bytes)
    requires Sorted(keys)
    ensures IsScan(RunUp(keys, ParkUp(keys, prefix, seek), prefix), keys, prefix, seek, false)
  {
    hide Lt, StartsWith, LowerBound, RunUp;
    var start := if seek != [] && Le(prefix, seek) then seek else prefix;
    var p := ParkUp(keys, prefix, seek);
    RunUpSlice(keys, p, prefix);
    var r := RunUp(keys, p, prefix);
    var q := p + |r|;
    if q < |keys| {
      SortedAt(keys, p, q);
      LeTransitive(prefix, start, keys[p]);
      LeTransitive(prefix, keys[p], keys[q]);
    }
    forall i | 0 <= i < |keys|
      ensures p <= i < q <==> Wanted(keys[i], prefix, seek, false)
    {
      if p <= i {
        SortedAt(keys, p, i);
        LeTransitive(start, keys[p], keys[i]);
      } else {
        LtLe(keys[i], start);
        if StartsWith(keys[i], prefix) {
          PrefixLe(keys[i], prefix);
        }
      }
      if q <= i {
        NoneAbove(keys, q, i, prefix);
      }
    }
    SliceElements(keys, p, q);
  }

  lemma SliceElements(keys: seq<Bytes>, p: nat, q: nat)
    requires p <= q <= |keys| && Sorted(keys)
    ensures InOrder(keys[p..q], false)
    ensures forall k :: k in keys[p..q] <==> exists i :: p <= i < q && keys[i] == k
  {
    hide Lt;
    forall k
      ensures k in keys[p..q] <==> exists i :: p <= i < q && keys[i] == k
    {
      if i :| p <= i < q && keys[i] == k {
        assert keys[p..q][i - p] == k;
      }
    }
  }

  /** The descending iterator is parked on the last key in the bounds. */
  lemma ParkedDown(keys: seq<Bytes>, prefix: Bytes, seek: Bytes, i: nat)
    requires Sorted(keys) && i < |keys|
    ensures -1 <= ParkDown(keys, prefix, seek) < |keys|
    ensures i <= ParkDown(keys, prefix, seek) <==>
              BelowIncrement(keys[i], prefix) && (seek != [] && Le(prefix, seek) ==> Le(keys[i], seek))
  {
    hide Lt, LowerBound, UpperBound, Increment;
    var p, nxt := ParkDown(keys, prefix, seek), Increment(prefix);
    if i > p && p + 1 < |keys| {
      SortedAt(keys, p + 1, i);
    }
    if seek != [] && Le(prefix, seek) {
      LtLe(seek, keys[i]);
      if nxt.Some? {
        LtLe(seek, nxt.value);
        LtLe(keys[i], nxt.value);
        if Le(keys[i], seek) && Lt(seek, nxt.value) {
          LeLt(keys[i], seek, nxt.value);
        }
        if Lt(keys[i], nxt.value) && Le(nxt.value, seek) {
          LeTransitive(keys[i], nxt.value, seek);
        }
        if i > p && Lt(seek, nxt.value) {
          LtLe(seek, keys[p + 1]);
          LtLe(seek, keys[i]);
          if Le(keys[i], seek) {
            LeTransitive(keys[p + 1], keys[i], seek);
          }
        }
        if i > p && Le(nxt.value, seek) {
          LeTransitive(nxt.value, keys[p + 1], keys[i]);
        }
      } else if i > p {
        LtLe(seek, keys[p + 1]);
        if Le(keys[i], seek) {
          LeTransitive(keys[p + 1], keys[i], seek);
        }
      }
    } else if nxt.Some? {
      LtLe(keys[i], nxt.value);
      if i > p {
        LeTransitive(nxt.value, keys[p + 1], keys[i]);
      }
    }
  }

  /** A descending RocksDB iterator yields the scan if no stray lies in the bounds. */
  lemma DownIsScan(keys: seq<Bytes>, prefix: Bytes, seek: Bytes)
    requires Sorted(keys) && NoStrayInBounds(keys, prefix, true, seek)
    ensures IsScan(RunDown(keys, ParkDown(keys, prefix, seek), prefix), keys, prefix, seek, true)
  {
    hide Lt, StartsWith, RunDown, ParkDown, Increment, NoStrayInBounds, Stray;
    if keys == [] {
      NothingDown(prefix, seek);
      return;
    }
    var p := ParkDown(keys, prefix, seek);
    ParkedDown(keys, prefix, seek, 0);
    RunDownSlice(keys, p, prefix);
    var r := RunDown(keys, p, prefix);
    var q := p - |r|;
    if 0 <= q {
      ParkedDown(keys, prefix, seek, q);
      ParkedIsNoStray(keys, prefix, seek, q);
    }
    forall i | 0 <= i < |keys|
      ensures q < i <= p <==> Wanted(keys[i], prefix, seek, true)
    {
      ParkedDown(keys, prefix, seek, i);
      if StartsWith(keys[i], prefix) {
        PrefixBelow(keys[i], prefix);
      }
      if i <= q {
        NoneBelow(keys, q, i, prefix);
      }
    }
    RunDownElements(keys, p, r);
  }

  /** A key up to the one parked on is in the bounds. */
  lemma ParkedIsNoStray(keys: seq<Bytes>, prefix: Bytes, seek: Bytes, q: nat)
    requires q < |keys| && NoStrayInBounds(keys, prefix, true, seek)
    requires seek != [] && Le(prefix, seek) ==> Le(keys[q], seek)
    ensures !Stray(keys[q], prefix)
  {
    hide Lt, StartsWith, Increment, BoundsFor, Stray;
    assert keys[q] in keys;
    if Stray(keys[q], prefix) {
      StrayInBounds(prefix, seek, keys[q]);
    }
  }

  lemma NothingDown(prefix: Bytes, seek: Bytes)
    ensures RunDown([], ParkDown([], prefix, seek), prefix) == []
  {
  }

  lemma RunDownElements(keys: seq<Bytes>, p: int, r: seq<Bytes>)
    requires Sorted(keys) && |r| - 1 <= p < |keys| && forall i :: 0 <= i < |r| ==> r[i] == keys[p - i]
    ensures InOrder(r, true)
    ensures forall k :: k in r <==> exists i :: p - |r| < i <= p && keys[i] == k
  {
    hide Lt;
    forall k
      ensures k in r <==> exists i :: p - |r| < i <= p && keys[i] == k
    {
      if i :| p - |r| < i <= p && keys[i] == k {
        assert r[p - i] == k;
      }
    }
  }

  /** For a stray only the seek key limits the bounds. */
  lemma StrayInBounds(prefix: Bytes, seek: Bytes, k: Bytes)
    requires Stray(k, prefix)
    ensures BoundsFor(prefix, true, seek).Has(k) <==> (seek != [] && Le(prefix, seek) ==> Le(k, seek))
  {
    hide Lt, StartsWith, Increment;
    if seek != [] && Le(prefix, seek) {
      LtLe(k, seek);
      if Increment(prefix).Some? {
        var stop := Increment(prefix).value;
        LtLe(seek, stop);
        if Lt(k, stop) && Le(stop, seek) {
          LeTransitive(k, stop, seek);
        }
      }
    }
  }

  /** A stray in the bounds hides every row from a descending RocksDB iterator: it yields the scan if
      and only if no stray is in the bounds or no row is asked for. */
  lemma StrayHidesRows(keys: seq<Bytes>, prefix: Bytes, seek: Bytes)
    requires Sorted(keys)
    ensures IsScan(RunDown(keys, ParkDown(keys, prefix, seek), prefix), keys, prefix, seek, true)
            <==> NoStrayInBounds(keys, prefix, true, seek) || forall k :: k in keys ==> !Wanted(k, prefix, seek, true)
  {
    hide Lt, StartsWith, RunDown, ParkDown, Increment, BoundsFor, Wanted, Stray;
    if NoStrayInBounds(keys, prefix, true, seek) {
      DownIsScan(keys, prefix, seek);
    } else {
      var s :| s in keys && Stray(s, prefix) && BoundsFor(prefix, true, seek).Has(s);
      StrayInBounds(prefix, seek, s);
      HiddenByStray(keys, prefix, seek, s);
    }
  }

  lemma HiddenByStray(keys: seq<Bytes>, prefix: Bytes, seek: Bytes, s: Bytes)
    requires Sorted(keys) && s in keys && Stray(s, prefix) && (seek != [] && Le(prefix, seek) ==> Le(s, seek))
    ensures RunDown(keys, ParkDown(keys, prefix, seek), prefix) == []
  {
    hide Lt, StartsWith, RunDown, ParkDown, Increment;
    var i :| 0 <= i < |keys| && keys[i] == s;
    var p := ParkDown(keys, prefix, seek);
    ParkedDown(keys, prefix, seek, i);
    SortedAt(keys, i, p);
    LeTransitive(prefix, s, keys[p]);
    NoneAbove(keys, i, p, prefix);
    RunDownSlice(keys, p, prefix);
  }

  // ----- A stray in the history database -----

  /** The key of the state of the history database. */
  const STATE_KEY: Bytes := [115, 116, 97, 116, 101, 0, 0]   // state

  /** `statd`, and six bytes 0xff. */
  const BEFORE_STATE: Bytes := [115, 116, 97, 116, 100, 255, 255, 255, 255, 255, 255]

  /** The state key is a stray for this hashX, and for no other. */
  lemma StateIsStray(p: Bytes)
    requires |p| == HASHX_LEN
    ensures Stray(STATE_KEY, p) <==> p == BEFORE_STATE
  {
    hide Lt, Increment, Stray;
    if p == BEFORE_STATE {
      var head, tail: Bytes := [115, 116, 97, 116], [255, 255, 255, 255, 255, 255];
      CutIsStray(head, 100, tail, 2);
      assert BEFORE_STATE == head + [100] + tail;
      assert STATE_KEY == head + [101] + Zeros(2);
    }
    if Stray(STATE_KEY, p) {
      StateIsStrayOf(p);
    }
  }

  lemma StateIsStrayOf(p: Bytes)
    requires |p| == HASHX_LEN && Stray(STATE_KEY, p)
    ensures p == BEFORE_STATE
  {
    hide Stray;
    var n := StrayAt(STATE_KEY, p);
    assert STATE_KEY[n] != 0 && STATE_KEY[4] != 0 && STATE_KEY[5] == STATE_KEY[6] == 0;
    assert n == 4;
    assert p[..4] == STATE_KEY[..4] && p[5..] == [255, 255, 255, 255, 255, 255];
    assert p == p[..4] + [p[4]] + p[5..];
  }

  /** Where a prefix and its stray part. */
  lemma StrayAt(k: Bytes, p: Bytes) returns (n: nat)
    requires Stray(k, p)
    ensures n < |k| < |p| && k[..n] == p[..n] && p[n] < 255 && k[n] == p[n] + 1
    ensures (forall i :: n < i < |k| ==> k[i] == 0) && forall i :: n < i < |p| ==> p[i] == 255
  {
    hide Lt, Increment, StartsWith;
    StrayIs(k, p);
    n := IncrementSplit(p);
    var head, tail := p[..n], p[n + 1..];
    assert p == head + [p[n]] + tail;
    IncrementAt(head, p[n], tail);
    var q := Increment(p).value;
    PrefixParts(q, k);
    if |k| <= n {
      assert k == q[..|k|] == p[..|k|];
      NotBelowPrefix(k, p);
      assert false;
    }
    assert k[..n] == q[..|k|][..n] == p[..n];
    forall i | n < i < |p|
      ensures p[i] == 255
    {
      assert p[i] == tail[i - n - 1];
    }
    forall i | n < i < |k|
      ensures k[i] == 0
    {
      assert k[i] == q[i] == Zeros(|tail|)[i - n - 1];
    }
  }

  lemma PrefixParts(q: Bytes, k: Bytes)
    requires StartsWith(q, k)
    ensures |k| <= |q| && k == q[..|k|]
  {
  }

  lemma NotBelowPrefix(k: Bytes, p: Bytes)
    requires |k| < |p| && k == p[..|k|]
    ensures !Le(p, k)
  {
    hide Lt;
    assert p == k + p[|k|..];
    LtExtend(k, p[|k|..]);
    LtLe(k, p);
  }

  lemma {:induction false} IncrementSplit(p: Bytes) returns (n: nat)
    requires Increment(p).Some?
    ensures n < |p| && p[n] < 255 && AllMax(p[n + 1..])
  {
    if Increment(p[1..]).Some? {
      n := IncrementSplit(p[1..]);
      n := n + 1;
      assert p[n + 1..] == p[1..][n..];
    } else {
      IncrementNone(p[1..]);
      n := 0;
    }
  }

  /** Backing up reads the rows of a hashX in descending order, among other rows and the state key.
      It gets just its rows, from either engine, unless it is that hashX: then LevelDB yields the
      state key with the rows, and RocksDB none of them. */
  lemma StateKeyIsStray(keys: seq<Bytes>, hashX: Bytes)
    requires Sorted(keys) && STATE_KEY in keys && |hashX| == HASHX_LEN
    requires forall k :: k in keys ==> k == STATE_KEY || HASHX_LEN <= |k|
    ensures NoStrayInBounds(keys, hashX, true, []) <==> hashX != BEFORE_STATE
    ensures hashX == BEFORE_STATE ==> RunDown(keys, ParkDown(keys, hashX, []), hashX) == []
  {
    hide Lt, StartsWith, RunDown, ParkDown, BoundsFor, Sorted, Stray;
    StateIsStray(hashX);
    forall k | k in keys && Stray(k, hashX)
      ensures k == STATE_KEY
    {
      StrayIs(k, hashX);
    }
    if hashX == BEFORE_STATE {
      StrayInBounds(hashX, [], STATE_KEY);
      HiddenByStray(keys, hashX, [], STATE_KEY);
    }
  }

  /** The rows of `RocksDB.iterator`, with either generation of the bindings. */
  method RocksDbRows(keys: seq<Bytes>, prefix: Bytes, reverse: bool, seek: Bytes, hasSeekForPrev: bool) returns (r: seq<Bytes>)
    requires Sorted(keys)
    ensures !reverse || NoStray(keys, prefix) ==> IsScan(r, keys, prefix, seek, reverse)
    ensures reverse ==>
              (IsScan(r, keys, prefix, seek, reverse)
               <==> NoStrayInBounds(keys, prefix, reverse, seek) || forall k :: k in keys ==> !Wanted(k, prefix, seek, reverse))
    ensures !reverse ==> r == ScanUp(keys, prefix, seek)
  {
    hide IsScan, RunUp, RunDown, ParkUp, ParkDown, Sorted, StartsWith, Wanted, Stray, BoundsFor;
    var it := new RocksDBIterator(keys, prefix, reverse, seek, hasSeekForPrev);
    r := it.Rows();
    if !reverse {
      UpIsScan(keys, prefix, seek);
    } else {
      StrayHidesRows(keys, prefix, seek);
    }
  }

  /** The ascending scan. */
  function ScanUp(keys: seq<Bytes>, prefix: Bytes, seek: Bytes): seq<Bytes> {
    RunUp(keys, ParkUp(keys, prefix, seek), prefix)
  }
}
