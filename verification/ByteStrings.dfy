/** Byte strings, fixed-width integers and the key order of the database.

    Models the `struct` packers of electrumx/lib/util.py and the byte order by which
    both database engines sort their keys. */
module ByteStrings {

  datatype Option<+T> = None | Some(value: T)

  type Byte = x: int | 0 <= x < 256
  type Bytes = seq<Byte>

  const HASHX_LEN := 11   // a truncated script hash, the key of an address
  const REF_LEN := 36     // a txid and an output index

  /** A 32-byte digest, the result of the hash functions, which are left uninterpreted. */
  type Digest = b: Bytes | |b| == 32 witness Zeros(32)

  function Zeros(n: nat): (b: Bytes)
    ensures |b| == n && forall i :: 0 <= i < n ==> b[i] == 0
  {
    seq(n, i => 0)
  }

  /** The number of values that `w` bytes can hold. */
  function Range(w: nat): (p: nat)
    ensures p >= 1
  {
    if w == 0 then 1 else 256 * Range(w - 1)
  }

  // ----- Lists -----

  function Elements<T>(s: seq<T>): set<T> {
    set x | x in s
  }

  /** `c` with `b` written from position `start` on; what lies further on stays. */
  function Overwritten<T>(c: seq<T>, start: nat, b: seq<T>): (r: seq<T>)
    requires start <= |c|
    ensures |r| == if start + |b| > |c| then start + |b| else |c|
    ensures r[..start + |b|] == c[..start] + b
  {
    c[..start] + b + if start + |b| <= |c| then c[start + |b|..] else []
  }

  /** `bisect_right`: how many elements of a sorted list are at most `n`. */
  function BisectRight(s: seq<nat>, n: nat): (k: nat)
    ensures k <= |s|
    ensures forall i :: 0 <= i < k ==> s[i] <= n
    ensures k < |s| ==> n < s[k]
  {
    if s == [] || n < s[0] then 0 else 1 + BisectRight(s[1..], n)
  }

  // ----- Little-endian integers -----

  /** `n` in `w` bytes, least significant first; higher bytes are dropped. */
  function LE(n: nat, w: nat): (b: Bytes)
    ensures |b| == w
  {
    if w == 0 then [] else [n % 256] + LE(n / 256, w - 1)
  }

  function FromLE(b: Bytes): (n: nat)
  {
    if b == [] then 0 else b[0] + 256 * FromLE(b[1..])
  }

  lemma {:induction false} FromLeBound(b: Bytes)
    ensures FromLE(b) < Range(|b|)
  {
    if b != [] {
      FromLeBound(b[1..]);
    }
  }

  lemma {:induction false} FromLeOfLe(n: nat, w: nat)
    requires n < Range(w)
    ensures FromLE(LE(n, w)) == n
  {
    if w > 0 {
      FromLeOfLe(n / 256, w - 1);
      assert LE(n, w)[1..] == LE(n / 256, w - 1);
    }
  }

  lemma {:induction false} LeOfFromLe(b: Bytes)
    ensures LE(FromLE(b), |b|) == b
  {
    if b != [] {
      var rest := FromLE(b[1..]);
      LeOfFromLe(b[1..]);
      assert FromLE(b) % 256 == b[0] && FromLE(b) / 256 == rest;
      assert LE(FromLE(b), |b|) == [b[0]] + LE(rest, |b| - 1);
    }
  }

  /** Keeping the low `w` bytes of a wider packing is packing in `w` bytes: the
      `pack_le_uint64(n)[:5]` idiom. */
  lemma {:induction false} LeTake(n: nat, w: nat, wide: nat)
    requires w <= wide
    ensures LE(n, wide)[..w] == LE(n, w)
  {
    if w > 0 {
      LeTake(n / 256, w - 1, wide - 1);
      assert LE(n, wide)[..w] == [n % 256] + LE(n / 256, wide - 1)[..w - 1];
    }
  }

  // ----- Big-endian integers -----

  function BE(n: nat, w: nat): (b: Bytes)
    ensures |b| == w
  {
    if w == 0 then [] else BE(n / 256, w - 1) + [n % 256]
  }

  function FromBE(b: Bytes): (n: nat)
  {
    if b == [] then 0 else 256 * FromBE(b[..|b| - 1]) + b[|b| - 1]
  }

  lemma {:induction false} FromBeBound(b: Bytes)
    ensures FromBE(b) < Range(|b|)
  {
    if b != [] {
      FromBeBound(b[..|b| - 1]);
    }
  }

  lemma {:induction false} FromBeOfBe(n: nat, w: nat)
    requires n < Range(w)
    ensures FromBE(BE(n, w)) == n
  {
    if w > 0 {
      FromBeOfBe(n / 256, w - 1);
      assert BE(n, w)[..w - 1] == BE(n / 256, w - 1);
    }
  }

  // ----- Key order -----

  /** Strict lexicographic order on byte strings, the order of database keys. */
  predicate Lt(a: Bytes, b: Bytes)
  {
    b != [] && (a == [] || a[0] < b[0] || (a[0] == b[0] && Lt(a[1..], b[1..])))
  }

  predicate Le(a: Bytes, b: Bytes)
  {
    a == b || Lt(a, b)
  }

  lemma {:induction false} LtIrreflexive(a: Bytes)
    ensures !Lt(a, a)
  {
    if a != [] {
      LtIrreflexive(a[1..]);
    }
  }

  lemma {:induction false} LtTransitive(a: Bytes, b: Bytes, c: Bytes)
    requires Lt(a, b) && Lt(b, c)
    ensures Lt(a, c)
  {
    if a != [] && a[0] == b[0] == c[0] {
      LtTransitive(a[1..], b[1..], c[1..]);
    }
  }

  lemma {:induction false} LtTotal(a: Bytes, b: Bytes)
    ensures Lt(a, b) || a == b || Lt(b, a)
  {
    if a != [] && b != [] && a[0] == b[0] {
      LtTotal(a[1..], b[1..]);
      assert a == [a[0]] + a[1..] && b == [b[0]] + b[1..];
    }
  }

  /** A common prefix does not matter for the order. */
  lemma {:induction false} LtPrefix(p: Bytes, a: Bytes, b: Bytes)
    ensures Lt(p + a, p + b) <==> Lt(a, b)
  {
    if p == [] {
      assert p + a == a && p + b == b;
    } else {
      LtPrefix(p[1..], a, b);
      assert (p + a)[1..] == p[1..] + a && (p + b)[1..] == p[1..] + b;
    }
  }

  /** Strings of one length that differ are ordered by the difference, whatever follows. */
  lemma {:induction false} LtHead(a: Bytes, b: Bytes, x: Bytes, y: Bytes)
    requires |a| == |b| && a != b
    ensures Lt(a + x, b + y) <==> Lt(a, b)
  {
    if a != [] {
      assert (a + x)[1..] == a[1..] + x && (b + y)[1..] == b[1..] + y;
      if a[0] == b[0] {
        assert a == [a[0]] + a[1..] && b == [b[0]] + b[1..];
        LtHead(a[1..], b[1..], x, y);
      }
    }
  }

  /** Big-endian packing keeps the order of the numbers. */
  lemma {:induction false} BeOrder(m: nat, n: nat, w: nat)
    requires m < Range(w) && n < Range(w)
    ensures Lt(BE(m, w), BE(n, w)) <==> m < n
  {
    if w > 0 {
      BeOrder(m / 256, n / 256, w - 1);
      var a, b := BE(m / 256, w - 1), BE(n / 256, w - 1);
      if m / 256 == n / 256 {
        LtPrefix(a, [m % 256], [n % 256]);
      } else {
        FromBeOfBe(m / 256, w - 1);
        FromBeOfBe(n / 256, w - 1);
        LtHead(a, b, [m % 256], [n % 256]);
      }
    }
  }

  predicate StartsWith(k: Bytes, p: Bytes)
  {
    |p| <= |k| && k[..|p|] == p
  }
}
