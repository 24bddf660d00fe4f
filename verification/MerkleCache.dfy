/** The cache of one middle level of a Merkle tree: electrumx/lib/merkle.py's `MerkleCache`
    over the header hashes on disk.

    Every method takes the hashes that the source function would read at that moment, since
    a reorganisation changes them between calls.  Calls are sequential. */
module MerkleCaches {
  import opened ByteStrings
  import opened Merkles

  /** Reads hashes from disk, or fails if not all are there. */
  function Source(src: seq<Digest>, start: int, count: int): Outcome<seq<Digest>> {
    if start < 0 || count < 0 then DBError
    else if count == 0 then Ok([])
    else if start + count <= |src| then Ok(src[start..start + count])
    else DBError
  }

  // ----- Levels of changed lists -----

  lemma {:induction false} ShlAdds(a: int, b: int, d: nat)
    ensures Shl(a + b, d) == Shl(a, d) + Shl(b, d)
  {
    if d > 0 {
      ShlAdds(a, b, d - 1);
    }
  }

  lemma {:induction false} ShrOfShl(m: int, d: nat)
    ensures Shr(Shl(m, d), d) == m
  {
    if d > 0 {
      ShrOfShl(m, d - 1);
      ShrFirst(Shl(m, d), d - 1);
      assert Shl(m, d) / 2 == Shl(m, d - 1);
    }
  }

  /** `m` whole segments have `m` nodes above them. */
  lemma {:induction false} WidthOfShl(m: nat, d: nat)
    ensures Width(Shl(m, d), d) == m
  {
    SegmentCount(Shl(m, d), d, m);
    if m > 0 {
      SegmentCount(Shl(m, d), d, m - 1);
      ShlMonotone(m, m - 1, d);
    }
  }

  /** A node depends on its own segment only. */
  lemma NodeOfSegment(mk: Merkle, a: seq<Digest>, b: seq<Digest>, d: nat, i: nat, j: nat)
    requires Shl(i, d) < |a| && Shl(j, d) < |b| && Segment(a, d, i) == Segment(b, d, j)
    ensures i < Width(|a|, d) && j < Width(|b|, d) && mk.Node(a, d, i) == mk.Node(b, d, j)
  {
    mk.SegmentTop(a, d, i);
    mk.SegmentTop(b, d, j);
  }

  /** Whole segments that two lists share give the same nodes. */
  lemma LevelPrefix(mk: Merkle, a: seq<Digest>, b: seq<Digest>, d: nat, m: nat)
    requires Shl(m, d) <= |a| && Shl(m, d) <= |b| && a[..Shl(m, d)] == b[..Shl(m, d)]
    ensures m <= Width(|a|, d) && m <= Width(|b|, d)
    ensures mk.LevelOf(a, d)[..m] == mk.LevelOf(b, d)[..m]
  {
    hide Merkle.Node, Width, Shl, Pow2;
    forall i | 0 <= i < m
      ensures i < Width(|a|, d) && i < Width(|b|, d) && mk.Node(a, d, i) == mk.Node(b, d, i)
    {
      SharedSegment(a, b, d, m, i);
      NodeOfSegment(mk, a, b, d, i, i);
    }
    if m > 0 {
      SharedSegment(a, b, d, m, m - 1);
      NodeOfSegment(mk, a, b, d, m - 1, m - 1);
    }
  }

  lemma SharedSegment(a: seq<Digest>, b: seq<Digest>, d: nat, m: nat, i: nat)
    requires Shl(m, d) <= |a| && Shl(m, d) <= |b| && a[..Shl(m, d)] == b[..Shl(m, d)] && i < m
    ensures Shl(i, d) < Shl(m, d) && Segment(a, d, i) == Segment(b, d, i)
  {
    hide Shl, Pow2;
    ShlMonotone(i + 1, i, d);
    ShlAdds(i + 1, m - (i + 1), d);
    var k, l := Shl(i, d), Shl(i + 1, d);
    assert a[k..l] == a[..Shl(m, d)][k..l] == b[k..l];
  }

  lemma SuffixCount(n: nat, d: nat, m: nat, i: nat)
    requires Shl(m, d) <= n
    ensures Shl(m + i, d) == Shl(m, d) + Shl(i, d)
    ensures i < Width(n - Shl(m, d), d) <==> m + i < Width(n, d)
  {
    hide Width, Shl;
    ShlAdds(m, i, d);
    SegmentCount(n - Shl(m, d), d, i);
    SegmentCount(n, d, m + i);
  }

  lemma SuffixWidth(n: nat, d: nat, m: nat)
    requires Shl(m, d) <= n
    ensures m + Width(n - Shl(m, d), d) == Width(n, d)
  {
    hide Width, Shl;
    var v, w := Width(n - Shl(m, d), d), Width(n, d);
    SuffixCount(n, d, m, v);
    if v > 0 {
      SuffixCount(n, d, m, v - 1);
    } else if m > 0 {
      SegmentCount(n, d, m - 1);
      ShlMonotone(m, m - 1, d);
    }
  }

  lemma SuffixNode(mk: Merkle, hs: seq<Digest>, d: nat, m: nat, i: nat)
    requires Shl(m, d) <= |hs| && m + i < Width(|hs|, d)
    ensures i < Width(|hs| - Shl(m, d), d)
    ensures mk.Node(hs[Shl(m, d)..], d, i) == mk.Node(hs, d, m + i)
  {
    hide Merkle.Node, Width, Shl, Pow2;
    var rest := hs[Shl(m, d)..];
    SuffixCount(|hs|, d, m, i);
    SegmentCount(|rest|, d, i);
    assert Segment(rest, d, i) == Segment(hs, d, m + i);
    NodeOfSegment(mk, rest, hs, d, i, m + i);
  }

  /** The level of what follows `m` whole segments is the rest of the level. */
  lemma LevelSuffix(mk: Merkle, hs: seq<Digest>, d: nat, m: nat)
    requires Shl(m, d) <= |hs|
    ensures m <= Width(|hs|, d)
    ensures mk.LevelOf(hs, d)[m..] == mk.LevelOf(hs[Shl(m, d)..], d)
  {
    hide Merkle.Node, Width, Shl, Pow2;
    SuffixWidth(|hs|, d, m);
    var rest := mk.LevelOf(hs[Shl(m, d)..], d);
    forall i | 0 <= i < |rest|
      ensures mk.LevelOf(hs, d)[m + i] == rest[i]
    {
      SuffixNode(mk, hs, d, m, i);
    }
  }

  /** Keeping the nodes of whole shared segments and computing the rest gives the level. */
  lemma LevelSpliced(mk: Merkle, prior: seq<Digest>, hs: seq<Digest>, d: nat, m: nat)
    requires Shl(m, d) <= |prior| && Shl(m, d) <= |hs| && prior[..Shl(m, d)] == hs[..Shl(m, d)]
    ensures m <= Width(|prior|, d)
    ensures mk.LevelOf(prior, d)[..m] + mk.LevelOf(hs[Shl(m, d)..], d) == mk.LevelOf(hs, d)
  {
    hide Merkle.LevelOf, Width, Shl, Pow2;
    LevelPrefix(mk, prior, hs, d, m);
    LevelSuffix(mk, hs, d, m);
    var l := mk.LevelOf(hs, d);
    assert l == l[..m] + l[m..];
  }

  class MerkleCache {
    const merkle: Merkle
    var length: int
    var level: seq<Digest>
    var depthHigher: nat
    var initialized: bool

    /** The cached level is that of the first `length` hashes of the source. */
    ghost predicate Covers(src: seq<Digest>)
      reads this
    {
      0 <= length <= |src| && level == merkle.LevelOf(src[..length], depthHigher)
    }

    constructor (merkle: Merkle)
      ensures this.merkle == merkle && !initialized && length == 0
      ensures forall src: seq<Digest> :: Covers(src)
    {
      this.merkle := merkle;
      length := 0;
      level := [];
      depthHigher := 0;
      initialized := false;
    }

    /** On failure the length has already been overwritten, so the level no longer belongs to
        it; the cache is not marked initialized by such a call. */
    method Initialize(src: seq<Digest>, n: int) returns (error: Outcome<bool>)
      modifies this
      ensures error == if n < 1 then ValueError else if n > |src| then DBError else Ok(true)
      ensures length == n
      ensures error.Ok? ==> initialized && Covers(src) && depthHigher == (BranchLength(n) + 1) / 2
      ensures !error.Ok? ==> initialized == old(initialized) && level == old(level)
    {
      length := n;
      if n < 1 {
        return ValueError;
      }
      depthHigher := (BranchLength(n) + 1) / 2;
      var hashes := Source(src, 0, n);
      if hashes.DBError? {
        return DBError;
      }
      level := merkle.Level(hashes.value, depthHigher);
      initialized := true;
      return Ok(true);
    }

    function LeafStart(index: int): int
      reads this
    {
      Shl(Shr(index, depthHigher), depthHigher)
    }

    method ExtendTo(src: seq<Digest>, n: int) returns (ok: bool)
      requires Covers(src)
      modifies this`length, this`level
      ensures Covers(src)
      ensures ok == (n <= |src|)
      ensures length == if ok && n > old(length) then n else old(length)
      ensures !ok ==> level == old(level)
    {
      if n <= length {
        return true;
      }
      var start := LeafStart(length);
      SegmentStart(length, depthHigher);
      var hashes := Source(src, start, n - start);
      if hashes.DBError? {
        return false;
      }
      var m := Shr(start, depthHigher);
      var rest := merkle.Level(hashes.value, depthHigher);
      SplicedFrom(src, length, n, m);
      level := level[..m] + rest;
      length := n;
      return true;
    }

    lemma SplicedFrom(src: seq<Digest>, have: nat, n: nat, m: nat)
      requires Shl(m, depthHigher) <= have <= |src| && Shl(m, depthHigher) <= n <= |src|
      ensures m <= Width(have, depthHigher)
      ensures merkle.LevelOf(src[..have], depthHigher)[..m] + merkle.LevelOf(src[Shl(m, depthHigher)..n], depthHigher)
              == merkle.LevelOf(src[..n], depthHigher)
    {
      hide Merkle.LevelOf, Width, Shl;
      var start := Shl(m, depthHigher);
      assert src[..have][..start] == src[..start] == src[..n][..start];
      assert src[..n][start..] == src[start..n];
      LevelSpliced(merkle, src[..have], src[..n], depthHigher, m);
    }

    /** The level of the first `n` hashes, when no more than these are cached. */
    method LevelFor(src: seq<Digest>, n: nat) returns (r: seq<Digest>)
      requires Covers(src) && n <= length
      ensures r == merkle.LevelOf(src[..n], depthHigher)
    {
      if n == length {
        return level;
      }
      SegmentStart(n, depthHigher);
      var m := Shr(n, depthHigher);
      var leafStart := LeafStart(n);
      var count := Min(Pow2(depthHigher), n - leafStart);
      var hashes := Source(src, leafStart, count);
      SplicedFrom(src, length, n, m);
      assert hashes == Ok(src[leafStart..n]);
      var rest := merkle.Level(hashes.value, depthHigher);
      return level[..m] + rest;
    }

    /** The hashes of the source may then change from position `n` on. */
    method Truncate(ghost src: seq<Digest>, n: int) returns (ok: bool)
      requires Covers(src)
      modifies this`length, this`level
      ensures ok == (n > 0)
      ensures Covers(src)
      ensures length == if 0 < n < old(length) then LeafStart(n) else old(length)
      ensures ok ==> length <= n
      ensures ok ==> forall s: seq<Digest> :: n <= |s| && n <= |src| && s[..n] == src[..n] ==> Covers(s)
    {
      ghost var before := length;
      if n <= 0 {
        return false;
      }
      if n < length {
        SegmentStart(n, depthHigher);
        var m := Shr(LeafStart(n), depthHigher);
        length := LeafStart(n);
        ghost var start := length;
        WidthOfShl(m, depthHigher);
        assert src[..before][..start] == src[..start] == src[..start][..start];
        LevelPrefix(merkle, src[..before], src[..start], depthHigher, m);
        level := level[..m];
      }
      forall s: seq<Digest> | n <= |s| && n <= |src| && s[..n] == src[..n]
        ensures Covers(s)
      {
        assert s[..length] == s[..n][..length] == src[..n][..length] == src[..length];
      }
      return true;
    }

    /** Answers as the plain tree over the first `n` hashes of the source would. */
    method BranchAndRoot(src: seq<Digest>, n: int, index: int, tsc: bool) returns (r: Outcome<Proof>)
      requires initialized && Covers(src)
      modifies this`length, this`level
      ensures Covers(src)
      ensures length == if index < n && old(length) < n <= |src| then n else old(length)
      ensures r == if n <= 0 || index >= n then ValueError
                   else if n > |src| || index < 0 then DBError
                   else Ok(merkle.Whole(src[..n], index, BranchLength(n), tsc))
    {
      hide Merkle.LevelOf, Merkle.Whole, Segment, Shl, Shr;
      if n <= 0 || index >= n {
        return ValueError;
      }
      var extended := ExtendTo(src, n);
      if !extended {
        return DBError;
      }
      SegmentStart(index, depthHigher);
      var leafStart := LeafStart(index);
      var size := Pow2(depthHigher);
      var count := Min(size, n - leafStart);
      var leafHashes := Source(src, leafStart, count);
      if leafHashes.DBError? {
        return DBError;
      }
      if n < size {
        StartOfFirst(index, depthHigher);
        assert leafHashes.value == src[..n];
        r := merkle.BranchAndRoot(leafHashes.value, index, None, tsc);
        return;
      }
      var l := LevelFor(src, n);
      SegmentRead(src, n, index, depthHigher, leafHashes.value);
      r := FromLevel(src, n, index, tsc, l, leafHashes.value);
    }

    /** The proof from the cached level and the leaves of the segment of `index`. */
    method FromLevel(ghost src: seq<Digest>, n: nat, index: nat, tsc: bool, l: seq<Digest>, leafHashes: seq<Digest>)
      returns (r: Outcome<Proof>)
      requires index < n <= |src| && Pow2(depthHigher) <= n && l == merkle.LevelOf(src[..n], depthHigher)
      requires Shl(Shr(index, depthHigher), depthHigher) < n
      requires leafHashes == Segment(src[..n], depthHigher, Shr(index, depthHigher))
      ensures r == Ok(merkle.Whole(src[..n], index, BranchLength(n), tsc))
    {
      hide Merkle.LevelOf, Merkle.FromLevel, Merkle.Whole, Segment, Shl, Shr;
      if depthHigher > 0 {
        BranchLengthIsLog(n, depthHigher - 1);
      }
      merkle.FromLevelIsWhole(src[..n], index, depthHigher, tsc);
      r := merkle.BranchAndRootFromLevel(l, leafHashes, index, depthHigher, tsc);
    }
  }

  lemma SegmentRead(src: seq<Digest>, n: nat, index: nat, d: nat, leaves: seq<Digest>)
    requires index < n <= |src|
    requires var start := Shl(Shr(index, d), d);
             start <= index && leaves == src[start..start + Min(Pow2(d), n - start)]
    ensures Shl(Shr(index, d), d) < n && leaves == Segment(src[..n], d, Shr(index, d))
  {
    hide Shl, Shr, Pow2;
    var start := Shl(Shr(index, d), d);
    SliceOfTake(src, n, start, start + Min(Pow2(d), n - start));
  }

  lemma SliceOfTake(hs: seq<Digest>, n: nat, a: nat, b: nat)
    requires a <= b <= n <= |hs|
    ensures hs[..n][a..b] == hs[a..b]
  {
  }

  lemma SegmentStart(index: int, d: nat)
    ensures var start := Shl(Shr(index, d), d);
            && start <= index < start + Pow2(d)
            && (index >= 0 <==> start >= 0)
            && Shr(start, d) == Shr(index, d)
  {
    hide Shr, Shl, Pow2;
    LeafStart(index, d);
    ShrOfShl(Shr(index, d), d);
  }

  lemma {:induction false} StartOfFirst(index: nat, d: nat)
    requires index < Pow2(d)
    ensures Shl(Shr(index, d), d) == 0
  {
    LeafStart(index, d);
    var m := Shr(index, d);
    if m > 0 {
      ShlAdds(1, m - 1, d);
      ShlMonotone(1, 0, d);
      ShlZero(d);
    } else {
      ShlZero(d);
    }
  }
}
