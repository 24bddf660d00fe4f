/** Merkle trees, branches and proofs, as in electrumx/lib/merkle.py.

    `Node` defines the tree from the top down: it is the reference the loops of the source
    are proved against.  A tree whose level has odd length repeats the last hash of the level,
    so an index may be proved at any length from the natural one on. */
module Merkles {
  import opened ByteStrings

  datatype Outcome<+T> = Ok(value: T) | ValueError | DBError

  /** A branch, deepest sibling first, and the root. */
  datatype Proof = Proof(branch: seq<Bytes>, root: Bytes)

  /** Stands for a repeated hash in the TSC branch format. */
  const ASTERISK: Bytes := [42]

  // ----- Sizes -----

  function Pow2(k: nat): (p: nat)
    ensures p >= 1
  {
    if k == 0 then 1 else 2 * Pow2(k - 1)
  }

  lemma {:induction false} Pow2Grows(i: nat, k: nat)
    requires i <= k
    ensures Pow2(i) <= Pow2(k)
  {
    if i < k {
      Pow2Grows(i, k - 1);
    }
  }

  /** The number of nodes `k` levels above `n` leaves. */
  function Width(n: nat, k: nat): (w: nat)
    ensures n >= 1 ==> w >= 1
  {
    if k == 0 then n else (Width(n, k - 1) + 1) / 2
  }

  lemma {:induction false} WidthOfWidth(n: nat, d: nat, k: nat)
    ensures Width(Width(n, d), k) == Width(n, d + k)
  {
    if k > 0 {
      WidthOfWidth(n, d, k - 1);
    }
  }

  /** The smallest `k` with `n <= 2^k`: the exact value of the logarithm in the source. */
  function BranchLength(n: nat): (k: nat)
    requires n >= 1
    decreases n
  {
    if n == 1 then 0 else 1 + BranchLength((n + 1) / 2)
  }

  lemma {:induction false} BranchLengthIsLog(n: nat, k: nat)
    requires n >= 1
    ensures BranchLength(n) <= k <==> n <= Pow2(k)
    decreases n
  {
    if n == 1 {
    } else if k > 0 {
      BranchLengthIsLog((n + 1) / 2, k - 1);
    }
  }

  lemma {:induction false} WidthAtTop(n: nat, k: nat)
    requires n >= 1 && k >= BranchLength(n)
    ensures Width(n, k) == 1
    decreases n, k
  {
    if n > 1 {
      WidthAtTop((n + 1) / 2, k - 1);
      WidthOfWidth(n, 1, k - 1);
      assert Width(n, 1) == (Width(n, 0) + 1) / 2;
    } else if k > 0 {
      WidthAtTop(n, k - 1);
    }
  }

  lemma {:induction false} BranchLengthAbove(n: nat, d: nat)
    requires n >= 1 && d <= BranchLength(n)
    ensures BranchLength(n) == d + BranchLength(Width(n, d))
    decreases d
  {
    if d > 0 {
      BranchLengthAbove(n, d - 1);
    }
  }

  // ----- Segments of the leaves -----

  function Min(a: int, b: int): int {
    if a <= b then a else b
  }

  /** `m << d`. */
  function Shl(m: int, d: nat): (r: int)
    ensures m >= 0 ==> r >= 0
  {
    if d == 0 then m else 2 * Shl(m, d - 1)
  }

  /** `i >> d`, which rounds down. */
  function Shr(i: int, d: nat): (r: int)
    ensures i >= 0 <==> r >= 0
  {
    if d == 0 then i else Shr(i, d - 1) / 2
  }

  lemma {:induction false} ShlFirst(m: int, d: nat)
    ensures Shl(2 * m, d) == 2 * Shl(m, d)
  {
    if d > 0 {
      ShlFirst(m, d - 1);
    }
  }

  lemma {:induction false} ShlZero(d: nat)
    ensures Shl(0, d) == 0
  {
    if d > 0 {
      ShlZero(d - 1);
    }
  }

  lemma {:induction false} ShrFirst(i: int, d: nat)
    ensures Shr(i / 2, d) == Shr(i, d) / 2
  {
    if d > 0 {
      ShrFirst(i, d - 1);
    }
  }

  /** The index of the first leaf of the segment of leaf `i`. */
  lemma {:induction false} LeafStart(i: int, d: nat)
    ensures Shl(Shr(i, d), d) <= i < Shl(Shr(i, d), d) + Pow2(d)
  {
    if d > 0 {
      LeafStart(i, d - 1);
      var q := Shr(i, d - 1);
      ShlFirst(q / 2, d - 1);
      ShlMonotone(q, 2 * (q / 2), d - 1);
    }
  }

  lemma {:induction false} ShlMonotone(a: int, b: int, d: nat)
    requires b <= a <= b + 1
    ensures Shl(b, d) <= Shl(a, d) <= Shl(b, d) + Pow2(d)
    ensures a == b + 1 ==> Shl(a, d) == Shl(b, d) + Pow2(d)
  {
    if d > 0 {
      ShlMonotone(a, b, d - 1);
    }
  }

  /** The `m`-th run of `2^d` leaves; the last may be partial. */
  function Segment(hs: seq<Digest>, d: nat, m: nat): (s: seq<Digest>)
    requires Shl(m, d) < |hs|
    ensures |s| == Min(Pow2(d), |hs| - Shl(m, d)) >= 1
  {
    hs[Shl(m, d)..Shl(m, d) + Min(Pow2(d), |hs| - Shl(m, d))]
  }

  lemma {:induction false} WidthOfSegment(n: nat, d: nat, m: nat, j: nat)
    requires Shl(m, d) < n && j <= d
    ensures Width(Min(Pow2(d), n - Shl(m, d)), j) == Min(Pow2(d - j), Width(n, j) - Shl(m, d - j))
    decreases j
  {
    if j > 0 {
      WidthOfSegment(n, d, m, j - 1);
    }
  }

  /** The second node hashed into node `i` of level `k`: the first one again if it is the last. */
  function RightChild(n: nat, k: nat, i: nat): (r: nat)
    requires k > 0 && i < Width(n, k)
    ensures r < Width(n, k - 1)
  {
    if 2 * i + 1 < Width(n, k - 1) then 2 * i + 1 else 2 * i
  }

  lemma RightChildOfSegment(n: nat, d: nat, m: nat, j: nat, i: nat)
    requires Shl(m, d) < n && 0 < j <= d
    requires i < Width(Min(Pow2(d), n - Shl(m, d)), j)
    ensures Shl(m, d - (j - 1)) == 2 * Shl(m, d - j)
    ensures Shl(m, d - j) + i < Width(n, j) && 2 * i < Width(Min(Pow2(d), n - Shl(m, d)), j - 1)
    ensures RightChild(n, j, Shl(m, d - j) + i)
            == 2 * Shl(m, d - j) + RightChild(Min(Pow2(d), n - Shl(m, d)), j, i)
  {
    WidthOfSegment(n, d, m, j);
    WidthOfSegment(n, d, m, j - 1);
  }

  lemma SameChild(n: nat, d: nat, k: nat, i: nat)
    requires k > 0 && i < Width(n, d + k)
    ensures i < Width(Width(n, d), k) && RightChild(Width(n, d), k, i) == RightChild(n, d + k, i)
  {
    hide Width;
    WidthOfWidth(n, d, k);
    WidthOfWidth(n, d, k - 1);
    assert d + (k - 1) == d + k - 1;
  }

  /** The sibling of a node of a segment is in the segment if and only if it is in the tree. */
  lemma SiblingOfSegment(n: nat, d: nat, m: nat, j: nat, i: nat)
    requires Shl(m, d) < n && j < d && i < Width(Min(Pow2(d), n - Shl(m, d)), j)
    ensures var s := if i % 2 == 0 then i + 1 else i - 1;
            && Shl(m, d - j) % 2 == 0
            && (s < Width(Min(Pow2(d), n - Shl(m, d)), j) <==> Shl(m, d - j) + s < Width(n, j))
  {
    hide Width, Shl, Pow2;
    WidthOfSegment(n, d, m, j);
    BothEven(m, d - j);
    SiblingBound(Pow2(d - j), Shl(m, d - j), Width(n, j), i);
  }

  lemma BothEven(m: nat, k: nat)
    requires k > 0
    ensures Shl(m, k) % 2 == 0 && Pow2(k) % 2 == 0
  {
    TwiceIsEven(Shl(m, k - 1));
    TwiceIsEven(Pow2(k - 1));
  }

  lemma TwiceIsEven(x: int)
    ensures (2 * x) % 2 == 0
  {
  }

  lemma SiblingBound(p: nat, start: nat, w: int, i: nat)
    requires p % 2 == 0 && start % 2 == 0 && i < Min(p, w - start)
    ensures var s := if i % 2 == 0 then i + 1 else i - 1;
            s < Min(p, w - start) <==> start + s < w
  {
  }

  /** Segments are counted by the level above them. */
  lemma {:induction false} SegmentCount(n: nat, d: nat, m: nat)
    ensures m < Width(n, d) <==> Shl(m, d) < n
    decreases d
  {
    if d > 0 {
      SegmentCount(n, d - 1, 2 * m);
      ShlFirst(m, d - 1);
    }
  }

  /** The source's class, which holds only the hash function. */
  datatype Merkle = Merkle(hashFunc: Bytes -> Digest) {

    function Pair(a: Bytes, b: Bytes): Digest {
      hashFunc(a + b)
    }

    // ----- The tree -----

    /** The `i`-th node `k` levels above the leaves `hs`. */
    function Node(hs: seq<Digest>, k: nat, i: nat): (h: Digest)
      requires i < Width(|hs|, k)
      decreases k
    {
      if k == 0 then hs[i]
      else Pair(Node(hs, k - 1, 2 * i), Node(hs, k - 1, RightChild(|hs|, k, i)))
    }

    /** All nodes of a level. */
    function LevelOf(hs: seq<Digest>, k: nat): (r: seq<Digest>)
      ensures |r| == Width(|hs|, k)
    {
      seq(Width(|hs|, k), i requires 0 <= i < Width(|hs|, k) => Node(hs, k, i))
    }

    /** What the proof of a node on level `k` hashes it with. */
    function Sibling(hs: seq<Digest>, k: nat, i: nat, tsc: bool): Bytes
      requires i < Width(|hs|, k)
    {
      var s := if i % 2 == 0 then i + 1 else i - 1;
      if s < Width(|hs|, k) then Node(hs, k, s) else if tsc then ASTERISK else Node(hs, k, i)
    }

    /** The siblings from level `k` up, `count` of them. */
    function BranchFrom(hs: seq<Digest>, k: nat, i: nat, count: nat, tsc: bool): (b: seq<Bytes>)
      requires i < Width(|hs|, k)
      ensures |b| == count
      decreases count
    {
      if count == 0 then [] else [Sibling(hs, k, i, tsc)] + BranchFrom(hs, k + 1, i / 2, count - 1, tsc)
    }

    /** The proof of a leaf in the whole tree, `length` levels up. */
    function Whole(hs: seq<Digest>, index: nat, length: nat, tsc: bool): Proof
      requires index < |hs| && length >= BranchLength(|hs|)
    {
      WidthAtTop(|hs|, length);
      Proof(BranchFrom(hs, 0, index, length, tsc), Node(hs, length, 0))
    }

    // ----- Verifying proofs -----

    /** Hashing up a branch.  An index with bits beyond the branch is refused. */
    function ProofRoot(hash: Bytes, branch: seq<Bytes>, index: int): Outcome<Bytes>
      decreases |branch|
    {
      if branch == [] then if index == 0 then Ok(hash) else ValueError
      else ProofRoot(Step(hash, branch[0], index), branch[1..], index / 2)
    }

    function Step(hash: Bytes, elt: Bytes, index: int): Bytes {
      if index % 2 == 1 then Pair(elt, hash) else Pair(hash, elt)
    }

    lemma {:induction false} ProofRootRange(hash: Bytes, branch: seq<Bytes>, index: int)
      ensures ProofRoot(hash, branch, index).Ok? <==> 0 <= index < Pow2(|branch|)
      decreases |branch|
    {
      if branch != [] {
        ProofRootRange(Step(hash, branch[0], index), branch[1..], index / 2);
      }
    }

    lemma NodeStep(hs: seq<Digest>, k: nat, i: nat)
      requires i < Width(|hs|, k)
      ensures i / 2 < Width(|hs|, k + 1)
      ensures Step(Node(hs, k, i), Sibling(hs, k, i, false), i) == Node(hs, k + 1, i / 2)
    {
    }

    lemma {:induction false} BranchVerifies(hs: seq<Digest>, k: nat, i: nat, count: nat)
      requires i < Width(|hs|, k) && Width(|hs|, k + count) == 1
      ensures ProofRoot(Node(hs, k, i), BranchFrom(hs, k, i, count, false), i) == Ok(Node(hs, k + count, 0))
      decreases count
    {
      if count > 0 {
        NodeStep(hs, k, i);
        BranchVerifies(hs, k + 1, i / 2, count - 1);
      }
    }

    /** Every leaf's branch verifies to the one root, whatever the leaf and the length. */
    lemma ProofVerifies(hs: seq<Digest>, index: nat, length: nat)
      requires index < |hs| && length >= BranchLength(|hs|)
      ensures ProofRoot(hs[index], Whole(hs, index, length, false).branch, index)
              == Ok(Whole(hs, 0, length, false).root)
    {
      WidthAtTop(|hs|, length);
      BranchVerifies(hs, 0, index, length);
    }

    /** A client of the TSC format puts the running hash for every asterisk. */
    function Resolve(hash: Bytes, branch: seq<Bytes>, index: int): (b: seq<Bytes>)
      ensures |b| == |branch|
      decreases |branch|
    {
      if branch == [] then []
      else
        var elt := if branch[0] == ASTERISK then hash else branch[0];
        [elt] + Resolve(Step(hash, elt, index), branch[1..], index / 2)
    }

    lemma {:induction false} ResolveFrom(hs: seq<Digest>, k: nat, i: nat, count: nat)
      requires i < Width(|hs|, k)
      ensures Resolve(Node(hs, k, i), BranchFrom(hs, k, i, count, true), i) == BranchFrom(hs, k, i, count, false)
      decreases count
    {
      if count > 0 {
        NodeStep(hs, k, i);
        ResolveFrom(hs, k + 1, i / 2, count - 1);
        assert |ASTERISK| != 32;
      }
    }

    /** A TSC branch carries the same proof. */
    lemma TscProofVerifies(hs: seq<Digest>, index: nat, length: nat)
      requires index < |hs| && length >= BranchLength(|hs|)
      ensures var tsc := Whole(hs, index, length, true);
              && Resolve(hs[index], tsc.branch, index) == Whole(hs, index, length, false).branch
              && ProofRoot(hs[index], Resolve(hs[index], tsc.branch, index), index) == Ok(tsc.root)
    {
      ResolveFrom(hs, 0, index, length);
      ProofVerifies(hs, index, length);
    }

    ghost predicate Collision(a: Bytes, b: Bytes) {
      a != b && hashFunc(a) == hashFunc(b)
    }

    /** A root binds what is proved under it: two different hashes with proofs of one length at
        one index give a collision of the hash function. */
    lemma {:induction false} ProofBinds(a: Digest, b: Digest, pa: seq<Digest>, pb: seq<Digest>, index: int)
      requires |pa| == |pb|
      requires ProofRoot(a, pa, index).Ok? && ProofRoot(a, pa, index) == ProofRoot(b, pb, index)
      ensures (a == b && pa == pb) || exists x, y :: Collision(x, y)
      decreases |pa|
    {
      if pa != [] {
        var a', b' := Step(a, pa[0], index), Step(b, pb[0], index);
        ProofBinds(a', b', pa[1..], pb[1..], index / 2);
        var x := if index % 2 == 1 then pa[0] + a else a + pa[0];
        var y := if index % 2 == 1 then pb[0] + b else b + pb[0];
        if !(exists x, y :: Collision(x, y)) {
          assert !Collision(x, y);
          assert x[..32] == y[..32] && x[32..] == y[32..];
          assert pa == [pa[0]] + pa[1..] && pb == [pb[0]] + pb[1..];
        }
      }
    }

    // ----- Segments and levels of the tree -----

    lemma NodeUp(hs: seq<Digest>, k: nat, i: nat)
      requires k > 0 && i < Width(|hs|, k)
      ensures 2 * i < Width(|hs|, k - 1)
      ensures Node(hs, k, i) == Pair(Node(hs, k - 1, 2 * i), Node(hs, k - 1, RightChild(|hs|, k, i)))
    {
    }

    lemma NodeDown(hs: seq<Digest>, i: nat)
      requires i < |hs|
      ensures i < Width(|hs|, 0) && Node(hs, 0, i) == hs[i]
    {
    }

    lemma {:induction false} SegmentNode(hs: seq<Digest>, d: nat, m: nat, j: nat, i: nat)
      requires Shl(m, d) < |hs| && j <= d && i < Width(|Segment(hs, d, m)|, j)
      ensures Shl(m, d - j) + i < Width(|hs|, j)
      ensures Node(hs, j, Shl(m, d - j) + i) == Node(Segment(hs, d, m), j, i)
      decreases j
    {
      hide Width, Pow2, Shl, RightChild, Node, Pair;
      if j == 0 {
        ZeroWidth(|hs|);
        ZeroWidth(|Segment(hs, d, m)|);
        NodeDown(hs, Shl(m, d) + i);
        NodeDown(Segment(hs, d, m), i);
      } else {
        RightChildOfSegment(|hs|, d, m, j, i);
        NodeUp(hs, j, Shl(m, d - j) + i);
        NodeUp(Segment(hs, d, m), j, i);
        SegmentNode(hs, d, m, j - 1, 2 * i);
        SegmentNode(hs, d, m, j - 1, RightChild(|Segment(hs, d, m)|, j, i));
      }
    }

    lemma ZeroWidth(n: nat)
      ensures Width(n, 0) == n
    {
    }

    /** The top of a segment, partial or not, is a node of the whole tree. */
    lemma SegmentTop(hs: seq<Digest>, d: nat, m: nat)
      requires Shl(m, d) < |hs|
      ensures Width(|Segment(hs, d, m)|, d) == 1 && m < Width(|hs|, d)
      ensures Node(Segment(hs, d, m), d, 0) == Node(hs, d, m)
    {
      WidthOfSegment(|hs|, d, m, d);
      SegmentCount(|hs|, d, m);
      SegmentNode(hs, d, m, d, 0);
    }

    lemma {:induction false} LevelNode(hs: seq<Digest>, d: nat, k: nat, i: nat)
      requires i < Width(|hs|, d + k)
      ensures i < Width(|LevelOf(hs, d)|, k) && Node(LevelOf(hs, d), k, i) == Node(hs, d + k, i)
      decreases k
    {
      hide Width, Node, Pair, RightChild;
      WidthOfWidth(|hs|, d, k);
      if k > 0 {
        WidthOfWidth(|hs|, d, k - 1);
        SameChild(|hs|, d, k, i);
        NodeUp(hs, d + k, i);
        NodeUp(LevelOf(hs, d), k, i);
        LevelNode(hs, d, k - 1, 2 * i);
        LevelNode(hs, d, k - 1, RightChild(|hs|, d + k, i));
      } else {
        ZeroWidth(|LevelOf(hs, d)|);
        NodeDown(LevelOf(hs, d), i);
      }
    }

    lemma LevelSibling(hs: seq<Digest>, d: nat, k: nat, i: nat, tsc: bool)
      requires i < Width(|hs|, d + k)
      ensures i < Width(|LevelOf(hs, d)|, k)
      ensures Sibling(LevelOf(hs, d), k, i, tsc) == Sibling(hs, d + k, i, tsc)
    {
      hide Width, Node;
      WidthOfWidth(|hs|, d, k);
      LevelNode(hs, d, k, i);
      var s := if i % 2 == 0 then i + 1 else i - 1;
      if s < Width(|hs|, d + k) {
        LevelNode(hs, d, k, s);
      }
    }

    lemma {:induction false} LevelBranch(hs: seq<Digest>, d: nat, k: nat, i: nat, count: nat, tsc: bool)
      requires i < Width(|hs|, d + k)
      ensures i < Width(|LevelOf(hs, d)|, k)
      ensures BranchFrom(LevelOf(hs, d), k, i, count, tsc) == BranchFrom(hs, d + k, i, count, tsc)
      decreases count
    {
      hide Width, Node, Sibling, LevelOf;
      LevelSibling(hs, d, k, i, tsc);
      if count > 0 {
        HalfIndex(|hs|, d + k, i);
        LevelBranch(hs, d, k + 1, i / 2, count - 1, tsc);
      }
    }

    lemma HalfIndex(n: nat, k: nat, i: nat)
      requires i < Width(n, k)
      ensures i / 2 < Width(n, k + 1)
    {
    }

    lemma SegmentSibling(hs: seq<Digest>, d: nat, m: nat, j: nat, i: nat, tsc: bool)
      requires Shl(m, d) < |hs| && j < d && i < Width(|Segment(hs, d, m)|, j)
      ensures Shl(m, d - j) + i < Width(|hs|, j)
      ensures Sibling(Segment(hs, d, m), j, i, tsc) == Sibling(hs, j, Shl(m, d - j) + i, tsc)
    {
      hide Node, Width, Shl, Pow2;
      SegmentNode(hs, d, m, j, i);
      SiblingOfSegment(|hs|, d, m, j, i);
      var s := if i % 2 == 0 then i + 1 else i - 1;
      if s < Width(|Segment(hs, d, m)|, j) {
        SegmentNode(hs, d, m, j, s);
      }
    }

    lemma {:induction false} SegmentBranch(
        hs: seq<Digest>, d: nat, m: nat, j: nat, i: nat, count: nat, tsc: bool)
      requires Shl(m, d) < |hs| && j + count == d && i < Width(|Segment(hs, d, m)|, j)
      ensures Shl(m, d - j) + i < Width(|hs|, j)
      ensures BranchFrom(Segment(hs, d, m), j, i, count, tsc)
              == BranchFrom(hs, j, Shl(m, d - j) + i, count, tsc)
      decreases count
    {
      hide Node, Width, Sibling, Segment;
      SegmentNode(hs, d, m, j, i);
      if count > 0 {
        SegmentSibling(hs, d, m, j, i, tsc);
        HalfIndex(|Segment(hs, d, m)|, j, i);
        SegmentBranch(hs, d, m, j + 1, i / 2, count - 1, tsc);
        assert (Shl(m, d - j) + i) / 2 == Shl(m, d - (j + 1)) + i / 2;
      }
    }

    lemma {:induction false} BranchSplit(hs: seq<Digest>, k: nat, i: nat, a: nat, b: nat, tsc: bool)
      requires i < Width(|hs|, k)
      ensures Shr(i, a) < Width(|hs|, k + a)
      ensures BranchFrom(hs, k, i, a + b, tsc)
              == BranchFrom(hs, k, i, a, tsc) + BranchFrom(hs, k + a, Shr(i, a), b, tsc)
      decreases a
    {
      hide Width, Node, Sibling;
      if a > 0 {
        HalfIndex(|hs|, k, i);
        BranchSplit(hs, k + 1, i / 2, a - 1, b, tsc);
        ShrFirst(i, a - 1);
      }
    }

    /** The two halves of the cached computation. */
    function FromLevel(level: seq<Digest>, leaves: seq<Digest>, index: int, d: nat, tsc: bool)
      : (r: Outcome<Proof>)
    {
      var m := Shr(index, d);
      var i := index - Shl(m, d);
      LeafStart(index, d);
      if !(0 < |leaves| && i < |leaves| <= Pow2(d)) || !(0 <= m < |level|) then ValueError
      else
        BranchLengthIsLog(|leaves|, d);
        var leaf := Whole(leaves, i, d, tsc);
        var top := Whole(level, m, BranchLength(|level|), tsc);
        if leaf.root != level[m] then ValueError else Ok(Proof(leaf.branch + top.branch, top.root))
    }

    lemma FromLevelBranch(hs: seq<Digest>, index: nat, d: nat, tsc: bool)
      requires index < |hs| && d <= BranchLength(|hs|)
      ensures Shl(Shr(index, d), d) <= index && Shr(index, d) < Width(|hs|, d)
      ensures var m := Shr(index, d);
              var seg := Segment(hs, d, m);
              var i := index - Shl(m, d);
              && i < |seg| <= Pow2(d)
              && BranchFrom(hs, 0, index, BranchLength(|hs|), tsc)
                 == BranchFrom(seg, 0, i, d, tsc) + BranchFrom(LevelOf(hs, d), 0, m, BranchLength(|LevelOf(hs, d)|), tsc)
    {
      hide Node, Sibling, Pow2, Shl, Shr, BranchFrom, BranchLength, Width;
      LeafStart(index, d);
      var m, n := Shr(index, d), BranchLength(|hs|);
      var i := index - Shl(m, d);
      var seg := Segment(hs, d, m);
      SegmentTop(hs, d, m);
      BranchLengthAbove(|hs|, d);
      ZeroWidth(|seg|);
      ZeroWidth(|hs|);
      ZeroWidth(|LevelOf(hs, d)|);
      SegmentBranch(hs, d, m, 0, i, d, tsc);
      LevelBranch(hs, d, 0, m, n - d, tsc);
      BranchSplit(hs, 0, index, d, n - d, tsc);
    }

    lemma LevelRoot(hs: seq<Digest>, d: nat)
      requires |hs| >= 1 && d <= BranchLength(|hs|)
      ensures var level, top := LevelOf(hs, d), BranchLength(|hs|);
              && BranchLength(|level|) == top - d
              && Width(|level|, top - d) == 1 && Width(|hs|, top) == 1
              && Node(level, top - d, 0) == Node(hs, top, 0)
    {
      BranchLengthAbove(|hs|, d);
      WidthAtTop(|hs|, BranchLength(|hs|));
      WidthAtTop(|LevelOf(hs, d)|, BranchLength(|hs|) - d);
      LevelNode(hs, d, BranchLength(|hs|) - d, 0);
    }

    /** From the level of a tree and the leaves around the index, the proof is that of the whole
        tree, also in the partial last segment. */
    lemma FromLevelIsWhole(hs: seq<Digest>, index: nat, d: nat, tsc: bool)
      requires index < |hs| && d <= BranchLength(|hs|)
      ensures Shl(Shr(index, d), d) <= index
      ensures FromLevel(LevelOf(hs, d), Segment(hs, d, Shr(index, d)), index, d, tsc)
              == Ok(Whole(hs, index, BranchLength(|hs|), tsc))
    {
      hide Node, Pow2, Shl, Shr, BranchFrom, BranchLength, Width;
      FromLevelBranch(hs, index, d, tsc);
      LevelRoot(hs, d);
      LeafStart(index, d);
      SegmentTop(hs, d, Shr(index, d));
    }

    // ----- The loops of the source -----

    method BranchAndRoot(hashes: seq<Digest>, index: int, length: Option<int>, tsc: bool)
      returns (r: Outcome<Proof>)
      ensures r.Ok? <==> 0 <= index < |hashes| && (length == None || length.value >= BranchLength(|hashes|))
      ensures r.Ok? ==>
                r.value == Whole(hashes, index, if length == None then BranchLength(|hashes|) else length.value, tsc)
      ensures !r.Ok? ==> r == ValueError
    {
      hide Node, Width, Pair, Sibling, BranchFrom, LevelOf, PaddedLevel, BranchLength, Whole;
      if !(0 <= index < |hashes|) {
        return ValueError;
      }
      ZeroLevel(hashes);
      var natural := BranchLength(|hashes|);
      var count: int := if length == None then natural else length.value;
      if count < natural {
        return ValueError;
      }
      var hs, i, branch, k := hashes, index, [], 0;
      while k < count
        invariant 0 <= k <= count && 0 <= i < Width(|hashes|, k)
        invariant hs == LevelOf(hashes, k)
        invariant BranchFrom(hashes, 0, index, count, tsc) == branch + BranchFrom(hashes, k, i, count - k, tsc)
      {
        PaddedIs(hashes, k);
        var last := |hs| % 2 == 1;
        if last {
          hs := hs + [hs[|hs| - 1]];
        }
        var s := if i % 2 == 0 then i + 1 else i - 1;
        var elt := if last && tsc && s == |hs| - 1 then ASTERISK else hs[s];
        SiblingInList(hashes, k, i, tsc, hs);
        BranchStep(hashes, k, i, count - k, tsc, branch);
        branch := branch + [elt];
        i := i / 2;
        var next := seq(|hs| / 2, n requires 0 <= n < |hs| / 2 => Pair(hs[2 * n], hs[2 * n + 1]));
        PairedLevel(hashes, k, hs, next);
        hs := next;
        k := k + 1;
      }
      AtTop(hashes, index, count, i, tsc, branch);
      return Ok(Proof(branch, hs[0]));
    }

    /** The nodes of level `k`, the last one repeated if their number is odd. */
    ghost predicate PaddedLevel(hashes: seq<Digest>, k: nat, hs: seq<Digest>) {
      var w := Width(|hashes|, k);
      hs == LevelOf(hashes, k) + (if w % 2 == 1 then [LevelOf(hashes, k)[w - 1]] else [])
    }

    lemma ZeroLevel(hashes: seq<Digest>)
      ensures LevelOf(hashes, 0) == hashes && Width(|hashes|, 0) == |hashes|
    {
    }

    lemma AtTop(hashes: seq<Digest>, index: nat, k: nat, i: nat, tsc: bool, branch: seq<Bytes>)
      requires index < |hashes| && k >= BranchLength(|hashes|) && i < Width(|hashes|, k)
      requires index < Width(|hashes|, 0)
      requires BranchFrom(hashes, 0, index, k, tsc) == branch + BranchFrom(hashes, k, i, 0, tsc)
      ensures |LevelOf(hashes, k)| > 0 && Proof(branch, LevelOf(hashes, k)[0]) == Whole(hashes, index, k, tsc)
    {
      hide Node, Width, BranchLength, Sibling;
      WidthAtTop(|hashes|, k);
      assert branch + [] == branch;
    }

    lemma SiblingInList(hashes: seq<Digest>, k: nat, i: nat, tsc: bool, hs: seq<Digest>)
      requires PaddedLevel(hashes, k, hs) && i < Width(|hashes|, k)
      ensures var s := if i % 2 == 0 then i + 1 else i - 1;
              && s < |hs|
              && Sibling(hashes, k, i, tsc)
                 == if Width(|hashes|, k) % 2 == 1 && tsc && s == |hs| - 1 then ASTERISK else hs[s]
    {
      hide Node, Width;
    }

    lemma PaddedIs(hashes: seq<Digest>, k: nat)
      ensures var hs := LevelOf(hashes, k);
              && |hs| == Width(|hashes|, k)
              && (|hs| % 2 == 1 ==> PaddedLevel(hashes, k, hs + [hs[|hs| - 1]]))
              && (|hs| % 2 == 0 ==> PaddedLevel(hashes, k, hs))
    {
      hide Node, Width;
      assert LevelOf(hashes, k) + [] == LevelOf(hashes, k);
    }

    lemma BranchStep(hashes: seq<Digest>, k: nat, i: nat, count: nat, tsc: bool, branch: seq<Bytes>)
      requires i < Width(|hashes|, k) && count > 0
      ensures i / 2 < Width(|hashes|, k + 1)
      ensures branch + BranchFrom(hashes, k, i, count, tsc)
              == branch + [Sibling(hashes, k, i, tsc)] + BranchFrom(hashes, k + 1, i / 2, count - 1, tsc)
    {
    }

    /** Hashing the pairs of a level gives the level above. */
    lemma PairedLevel(hashes: seq<Digest>, k: nat, hs: seq<Digest>, next: seq<Digest>)
      requires PaddedLevel(hashes, k, hs) && |next| == |hs| / 2
      requires forall n :: 0 <= n < |next| ==> next[n] == Pair(hs[2 * n], hs[2 * n + 1])
      ensures next == LevelOf(hashes, k + 1)
    {
      hide Pair;
      forall n | 0 <= n < |next|
        ensures next[n] == LevelOf(hashes, k + 1)[n]
      {
        assert hs[2 * n] == Node(hashes, k, 2 * n);
        assert hs[2 * n + 1] == Node(hashes, k, RightChild(|hashes|, k + 1, n));
      }
    }

    method RootFromProof(hash: Bytes, branch: seq<Bytes>, index: int) returns (r: Outcome<Bytes>)
      ensures r == ProofRoot(hash, branch, index)
    {
      var h, i := hash, index;
      for n := 0 to |branch|
        invariant ProofRoot(hash, branch, index) == ProofRoot(h, branch[n..], i)
      {
        h := if i % 2 == 1 then Pair(branch[n], h) else Pair(h, branch[n]);
        i := i / 2;
      }
      return if i != 0 then ValueError else Ok(h);
    }

    method Level(hashes: seq<Digest>, depthHigher: nat) returns (r: seq<Digest>)
      ensures r == LevelOf(hashes, depthHigher)
    {
      hide LevelOf, Width, Shl, Pow2, Whole, BranchLength, Segment;
      var size := Pow2(depthHigher);
      r := [];
      var n := 0;
      LevelStart(hashes, depthHigher);
      while n < |hashes|
        invariant n == Shl(|r|, depthHigher) && |r| <= |LevelOf(hashes, depthHigher)|
        invariant r == LevelOf(hashes, depthHigher)[..|r|]
        decreases |hashes| - n
      {
        var m := |r|;
        LevelStep(hashes, depthHigher, m);
        var slice := hashes[n..Min(n + size, |hashes|)];
        var top := BranchAndRoot(slice, 0, Some(depthHigher), false);
        r := r + [top.value.root];
        n := n + size;
      }
      LevelEnd(hashes, depthHigher, |r|);
    }

    lemma LevelStart(hs: seq<Digest>, d: nat)
      ensures Shl(0, d) == 0
    {
      ShlZero(d);
    }

    /** The root of the next slice is the next node of the level. */
    lemma LevelStep(hs: seq<Digest>, d: nat, m: nat)
      requires Shl(m, d) < |hs|
      ensures var n := Shl(m, d);
              var slice := hs[n..Min(n + Pow2(d), |hs|)];
              && |slice| >= 1 && BranchLength(|slice|) <= d && Shl(m + 1, d) == n + Pow2(d)
              && m < |LevelOf(hs, d)| && Whole(slice, 0, d, false).root == LevelOf(hs, d)[m]
    {
      hide Width, Shl, Pow2, BranchLength, Node;
      var n := Shl(m, d);
      var slice := hs[n..Min(n + Pow2(d), |hs|)];
      assert slice == Segment(hs, d, m);
      SegmentTop(hs, d, m);
      ShlMonotone(m + 1, m, d);
      BranchLengthIsLog(|slice|, d);
    }

    lemma LevelEnd(hs: seq<Digest>, d: nat, m: nat)
      requires |hs| <= Shl(m, d) && m <= |LevelOf(hs, d)|
      ensures m == |LevelOf(hs, d)|
    {
      hide Width, Shl;
      SegmentCount(|hs|, d, m);
    }

    method BranchAndRootFromLevel(level: seq<Digest>, leafHashes: seq<Digest>, index: int, depthHigher: int, tsc: bool)
      returns (r: Outcome<Proof>)
      ensures r == if depthHigher < 0 then ValueError else FromLevel(level, leafHashes, index, depthHigher, tsc)
    {
      if depthHigher < 0 {
        return ValueError;
      }
      LeafStart(index, depthHigher);
      var leafIndex := Shl(Shr(index, depthHigher), depthHigher);
      if |leafHashes| > 0 {
        BranchLengthIsLog(|leafHashes|, depthHigher);
      }
      var leaf := BranchAndRoot(leafHashes, index - leafIndex, Some(depthHigher), tsc);
      if !leaf.Ok? {
        return ValueError;
      }
      var i := Shr(index, depthHigher);
      var top := BranchAndRoot(level, i, None, tsc);
      if !top.Ok? || leaf.value.root != level[i] {
        return ValueError;
      }
      return Ok(Proof(leaf.value.branch + top.value.branch, top.value.root));
    }
  }
}
