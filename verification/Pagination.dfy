/** Cursor pagination over a secondary index (electrumx/server/glyph_index.py): the opaque
    cursor is the raw key of the next row, in the URL-safe base64 of section 5 of RFC 4648. */
module Pagination {
  import opened ByteStrings
  import opened Storage
  import Discovery
  import UndoCodec

  // ----- Base64 -----

  /** The two characters that differ between the alphabets. */
  datatype Alphabet = Alphabet(c62: char, c63: char)

  const URL_SAFE := Alphabet('-', '_')
  const STANDARD := Alphabet('+', '/')
  const MANGLED := Alphabet(' ', '/')   // a `+` that a query string turned into a space

  function Symbol(i: nat, a: Alphabet): char
    requires i < 64
  {
    if i < 26 then (65 + i) as char
    else if i < 52 then (71 + i) as char
    else if i < 62 then (i - 4) as char
    else if i == 62 then a.c62 else a.c63
  }

  function Encoded(b: Bytes, a: Alphabet): string {
    if |b| == 0 then ""
    else if |b| == 1 then [Symbol(b[0] / 4, a), Symbol(b[0] % 4 * 16, a), '=', '=']
    else if |b| == 2 then
      [Symbol(b[0] / 4, a), Symbol(b[0] % 4 * 16 + b[1] / 16, a), Symbol(b[1] % 16 * 4, a), '=']
    else
      [Symbol(b[0] / 4, a), Symbol(b[0] % 4 * 16 + b[1] / 16, a), Symbol(b[1] % 16 * 4 + b[2] / 64, a), Symbol(b[2] % 64, a)]
      + Encoded(b[3..], a)
  }

  /** The six bits of a character of the standard alphabet. */
  function SixBits(c: char): Option<nat> {
    if 'A' <= c <= 'Z' then Some((c as int - 65) as nat)
    else if 'a' <= c <= 'z' then Some((c as int - 71) as nat)
    else if '0' <= c <= '9' then Some((c as int + 4) as nat)
    else if c == '+' then Some(62) else if c == '/' then Some(63) else None
  }

  function NormalChar(c: char): char {
    if c == ' ' || c == '-' then '+' else if c == '_' then '/' else c
  }

  function Normalised(s: string): (r: string)
    ensures |r| == |s|
  {
    seq(|s|, i requires 0 <= i < |s| => NormalChar(s[i]))
  }

  /** Groups of four characters, the last one padded; None for anything else. */
  function Decoded(s: string): Option<Bytes> {
    if s == "" then Some([])
    else if |s| < 4 then None
    else
      match (SixBits(s[0]), SixBits(s[1]))
      case (Some(p), Some(q)) =>
        if !(p < 64 && q < 64) then None
        else if |s| == 4 && s[2] == '=' && s[3] == '=' then Some([p * 4 + q / 16])
        else (
          match SixBits(s[2])
          case None => None
          case Some(r) =>
            if r >= 64 then None
            else if |s| == 4 && s[3] == '=' then Some([p * 4 + q / 16, q % 16 * 16 + r / 4])
            else (
              match (SixBits(s[3]), Decoded(s[4..]))
              case (Some(t), Some(rest)) =>
                if t >= 64 then None else Some([p * 4 + q / 16, q % 16 * 16 + r / 4, r % 4 * 64 + t] + rest)
              case _ => None
            )
        )
      case _ => None
  }

  lemma SymbolReads(i: nat, a: Alphabet)
    requires i < 64 && a in {URL_SAFE, STANDARD, MANGLED}
    ensures SixBits(NormalChar(Symbol(i, a))) == Some(i) && NormalChar(Symbol(i, a)) != '='
  {
  }

  lemma ThreeBytes(x: Byte, y: Byte, z: Byte)
    ensures var p, q, r, t := x / 4, x % 4 * 16 + y / 16, y % 16 * 4 + z / 64, z % 64;
            && p < 64 && q < 64 && r < 64
            && p * 4 + q / 16 == x && q % 16 * 16 + r / 4 == y && r % 4 * 64 + t == z
  {
  }

  /** The last group, of one or two bytes. */
  lemma LastGroup(b: Bytes, a: Alphabet)
    requires a in {URL_SAFE, STANDARD, MANGLED} && 1 <= |b| <= 2
    ensures Decoded(Normalised(Encoded(b, a))) == Some(b)
  {
    hide Symbol, SixBits, NormalChar;
    PadIsNormal();
    var y := if |b| == 2 then b[1] else 0;
    ThreeBytes(b[0], y, 0);
    SymbolReads(b[0] / 4, a);
    if |b| == 1 {
      SymbolReads(b[0] % 4 * 16, a);
      assert b == [b[0]];
    } else {
      SymbolReads(b[0] % 4 * 16 + b[1] / 16, a);
      SymbolReads(b[1] % 16 * 4, a);
      assert b == [b[0], b[1]];
    }
  }

  lemma FullGroup(x: Byte, y: Byte, z: Byte, a: Alphabet, tail: string)
    requires a in {URL_SAFE, STANDARD, MANGLED}
    ensures var group := [Symbol(x / 4, a), Symbol(x % 4 * 16 + y / 16, a), Symbol(y % 16 * 4 + z / 64, a), Symbol(z % 64, a)];
            && Decoded(Normalised(group) + tail)
               == match Decoded(tail) case None => None case Some(rest) => Some([x, y, z] + rest)
  {
    hide Symbol, SixBits, NormalChar;
    ThreeBytes(x, y, z);
    var p, q, r, t := x / 4, x % 4 * 16 + y / 16, y % 16 * 4 + z / 64, z % 64;
    SymbolReads(p, a);
    SymbolReads(q, a);
    SymbolReads(r, a);
    SymbolReads(t, a);
    var s := Normalised([Symbol(p, a), Symbol(q, a), Symbol(r, a), Symbol(t, a)]) + tail;
    assert s[4..] == tail;
  }

  /** Cursors of both alphabets read back, also after a query string mangled the plus sign. */
  lemma {:induction false} CursorRoundTrip(b: Bytes, a: Alphabet)
    requires a in {URL_SAFE, STANDARD, MANGLED}
    ensures Decoded(Normalised(Encoded(b, a))) == Some(b)
    decreases |b|
  {
    hide Symbol, SixBits, NormalChar, Decoded;
    if |b| == 0 {
      DecodedNothing();
    } else if |b| <= 2 {
      LastGroup(b, a);
    } else {
      CursorRoundTrip(b[3..], a);
      var group := [Symbol(b[0] / 4, a), Symbol(b[0] % 4 * 16 + b[1] / 16, a), Symbol(b[1] % 16 * 4 + b[2] / 64, a),
                    Symbol(b[2] % 64, a)];
      FullGroup(b[0], b[1], b[2], a, Normalised(Encoded(b[3..], a)));
      assert Normalised(group + Encoded(b[3..], a)) == Normalised(group) + Normalised(Encoded(b[3..], a));
      assert b == [b[0], b[1], b[2]] + b[3..];
    }
  }

  lemma DecodedNothing()
    ensures Decoded(Normalised("")) == Some([])
  {
  }

  lemma PadIsNormal()
    ensures NormalChar('=') == '='
  {
  }

  function EncodeCursor(rawKey: Bytes): string {
    Encoded(rawKey, URL_SAFE)
  }

  /** No cursor, an empty one and one that does not decode all start from the beginning. */
  function DecodeCursor(cursor: Option<string>): Option<Bytes> {
    if cursor == None || cursor.value == "" then None else Decoded(Normalised(cursor.value))
  }

  lemma CursorReads(rawKey: Bytes)
    ensures DecodeCursor(Some(EncodeCursor(rawKey))) == if rawKey == [] then None else Some(rawKey)
  {
    CursorRoundTrip(rawKey, URL_SAFE);
  }

  // ----- Pages -----

  /** Rows that hydrate to a token passing the filter, and the cursor to the next row. */
  datatype Page = Page(rows: seq<Bytes>, nextCursor: Option<string>)

  function Accepted(rows: seq<Bytes>, accept: Bytes -> bool): seq<Bytes> {
    if rows == [] then [] else (if accept(rows[0]) then [rows[0]] else []) + Accepted(rows[1..], accept)
  }

  /** How many rows a page goes through: until `limit` are accepted. */
  function Consumed(rows: seq<Bytes>, limit: int, accept: Bytes -> bool): (n: nat)
    ensures n <= |rows| && (limit >= 1 && rows != [] ==> n >= 1)
  {
    if rows == [] || limit <= 0 then 0
    else 1 + Consumed(rows[1..], if accept(rows[0]) then limit - 1 else limit, accept)
  }

  lemma {:induction false} AcceptedConcat(a: seq<Bytes>, b: seq<Bytes>, accept: Bytes -> bool)
    ensures Accepted(a + b, accept) == Accepted(a, accept) + Accepted(b, accept)
  {
    if a == [] {
      assert a + b == b;
    } else {
      assert (a + b)[1..] == a[1..] + b;
      AcceptedConcat(a[1..], b, accept);
    }
  }

  lemma {:induction false} AcceptedIs(rows: seq<Bytes>, accept: Bytes -> bool)
    requires Sorted(rows)
    ensures Sorted(Accepted(rows, accept)) && forall k :: k in Accepted(rows, accept) <==> k in rows && accept(k)
  {
    hide Lt;
    if rows != [] {
      var rest := rows[1..];
      assert forall i :: 0 <= i < |rest| ==> rest[i] == rows[i + 1];
      assert rows == [rows[0]] + rest;
      AcceptedIs(rest, accept);
      var tail := Accepted(rest, accept);
      forall i | 0 <= i < |tail|
        ensures Lt(rows[0], tail[i])
      {
        assert tail[i] in rest;
      }
    }
  }

  function SeekFor(prefix: Bytes, cursor: Option<string>): Bytes {
    match DecodeCursor(cursor)
    case None => prefix
    case Some(k) => if k == [] then prefix else k
  }

  /** One page: up to `limit` accepted rows from the cursor on. */
  method PaginateHydrated(keys: seq<Bytes>, prefix: Bytes, limit: int, cursor: Option<string>, accept: Bytes -> bool)
    returns (page: Page)
    requires Sorted(keys)
    ensures var rows := ScanUp(keys, prefix, SeekFor(prefix, cursor));
            var n := Consumed(rows, limit, accept);
            && page.rows == Accepted(rows[..n], accept)
            && page.nextCursor == if n < |rows| then Some(EncodeCursor(rows[n])) else None
  {
    hide Sorted, ScanUp, IsScan, NoStray, Encoded, SeekFor, Consumed, Accepted;
    var seek := SeekFor(prefix, cursor);
    var rows := RocksDbRows(keys, prefix, false, seek, true);
    var results: seq<Bytes> := [];
    var i := 0;
    assert rows[0..] == rows && rows[..0] == [];
    AcceptedNone(accept);
    while i < |rows|
      invariant 0 <= i <= |rows| && results == Accepted(rows[..i], accept)
      invariant Consumed(rows, limit, accept) == i + Consumed(rows[i..], limit - |results|, accept)
    {
      ConsumedStep(rows, i, limit - |results|, accept);
      if |results| >= limit {
        return Page(results, Some(EncodeCursor(rows[i])));
      }
      assert rows[i..][1..] == rows[i + 1..] && rows[..i + 1] == rows[..i] + [rows[i]];
      AcceptedConcat(rows[..i], [rows[i]], accept);
      AcceptedOne(rows[i], accept);
      if accept(rows[i]) {
        results := results + [rows[i]];
      }
      i := i + 1;
    }
    ConsumedAll(rows, i, limit - |results|, accept);
    assert rows[..|rows|] == rows;
    return Page(results, None);
  }

  lemma AcceptedNone(accept: Bytes -> bool)
    ensures Accepted([], accept) == []
  {
  }

  lemma ConsumedStep(rows: seq<Bytes>, i: nat, limit: int, accept: Bytes -> bool)
    requires i < |rows|
    ensures Consumed(rows[i..], limit, accept)
            == if limit <= 0 then 0 else 1 + Consumed(rows[i + 1..], if accept(rows[i]) then limit - 1 else limit, accept)
  {
    assert rows[i..][1..] == rows[i + 1..];
  }

  lemma ConsumedAll(rows: seq<Bytes>, i: nat, limit: int, accept: Bytes -> bool)
    requires i == |rows|
    ensures Consumed(rows[i..], limit, accept) == 0
  {
  }

  lemma AcceptedOne(k: Bytes, accept: Bytes -> bool)
    ensures Accepted([k], accept) == if accept(k) then [k] else []
  {
  }

  lemma {:induction false} RunUpTail(keys: seq<Bytes>, p: nat, prefix: Bytes, n: nat)
    requires n <= |RunUp(keys, p, prefix)|
    ensures RunUp(keys, p + n, prefix) == RunUp(keys, p, prefix)[n..]
    decreases n
  {
    hide StartsWith;
    if n > 0 {
      RunUpTail(keys, p + 1, prefix, n - 1);
    }
  }

  /** The scan from one of its rows is the rest of the scan. */
  lemma ScanFrom(keys: seq<Bytes>, prefix: Bytes, seek: Bytes, n: nat)
    requires Sorted(keys) && prefix != [] && n < |ScanUp(keys, prefix, seek)|
    ensures ScanUp(keys, prefix, ScanUp(keys, prefix, seek)[n]) == ScanUp(keys, prefix, seek)[n..]
  {
    hide Lt, StartsWith, LowerBound, RunUp;
    var p := ParkUp(keys, prefix, seek);
    RunUpSlice(keys, p, prefix);
    RunUpTail(keys, p, prefix, n);
    var row := keys[p + n];
    assert StartsWith(row, prefix);
    PrefixLe(row, prefix);
    NotEmpty(row, prefix);
    LowerAt(keys, p + n);
  }

  lemma NotEmpty(k: Bytes, prefix: Bytes)
    requires StartsWith(k, prefix) && prefix != []
    ensures k != []
  {
  }

  lemma LowerAt(keys: seq<Bytes>, i: nat)
    requires Sorted(keys) && i < |keys|
    ensures LowerBound(keys, keys[i]) == i
  {
    hide Lt, LowerBound;
    var n := LowerBound(keys, keys[i]);
    LtIrreflexive(keys[i]);
    if n < i {
      SortedAt(keys, i, n);
    }
  }

  /** Following the cursor until there is none ends, and returns every accepted row under the
      prefix exactly once and in order, whatever the limits are, as long as each is positive. */
  method AllPages(keys: seq<Bytes>, prefix: Bytes, limit: nat -> int, accept: Bytes -> bool) returns (all: seq<Bytes>)
    requires Sorted(keys) && prefix != [] && forall i :: limit(i) >= 1
    ensures Sorted(all) && forall k :: k in all <==> k in keys && StartsWith(k, prefix) && accept(k)
  {
    hide Lt, StartsWith, ScanUp, Wanted, Sorted, Accepted, Consumed, SeekFor, Encoded;
    all := [];
    var cursor: Option<string> := None;
    ghost var rows := ScanUp(keys, prefix, prefix);
    ghost var done := 0;
    var i := 0;
    assert rows[..0] == [] && rows[0..] == rows;
    FirstSeek(prefix);
    AcceptedNone(accept);
    while true
      invariant 0 <= done <= |rows| && all == Accepted(rows[..done], accept)
      invariant ScanUp(keys, prefix, SeekFor(prefix, cursor)) == rows[done..]
      decreases |rows| - done
    {
      var page := PaginateHydrated(keys, prefix, limit(i), cursor, accept);
      ghost var left := rows[done..];
      ghost var n := Consumed(left, limit(i), accept);
      AcceptedConcat(rows[..done], left[..n], accept);
      assert rows[..done + n] == rows[..done] + left[..n];
      all := all + page.rows;
      done := done + n;
      i := i + 1;
      if page.nextCursor == None {
        assert rows[..done] == rows;
        break;
      }
      ScanFrom(keys, prefix, prefix, done);
      RowsUnder(keys, prefix, rows, done);
      NextSeek(prefix, rows[done]);
      cursor := page.nextCursor;
    }
    AllRows(keys, prefix, accept);
  }

  lemma FirstSeek(prefix: Bytes)
    ensures SeekFor(prefix, None) == prefix
  {
  }

  lemma NextSeek(prefix: Bytes, k: Bytes)
    requires k != []
    ensures SeekFor(prefix, Some(EncodeCursor(k))) == k
  {
    hide Encoded, Decoded;
    CursorReads(k);
  }

  lemma RowsUnder(keys: seq<Bytes>, prefix: Bytes, rows: seq<Bytes>, n: nat)
    requires Sorted(keys) && prefix != [] && rows == ScanUp(keys, prefix, prefix) && n < |rows|
    ensures rows[n] != []
  {
    hide Lt, LowerBound, RunUp;
    RunUpSlice(keys, ParkUp(keys, prefix, prefix), prefix);
  }

  lemma AllRows(keys: seq<Bytes>, prefix: Bytes, accept: Bytes -> bool)
    requires Sorted(keys) && prefix != []
    ensures var all := Accepted(ScanUp(keys, prefix, prefix), accept);
            Sorted(all) && forall k :: k in all <==> k in keys && StartsWith(k, prefix) && accept(k)
  {
    hide Lt, StartsWith, RunUp, ParkUp, Accepted;
    UpIsScan(keys, prefix, prefix);
    var rows := ScanUp(keys, prefix, prefix);
    AcceptedIs(rows, accept);
    forall k
      ensures Wanted(k, prefix, prefix, false) <==> StartsWith(k, prefix)
    {
      if StartsWith(k, prefix) {
        PrefixLe(k, prefix);
      }
    }
  }

  // ----- Newest first -----

  /** In a recency index the rows come by non-increasing deploy height. */
  lemma NewestFirst(prefix: Bytes, h: int, ref: Bytes, h': int, ref': Bytes)
    requires 0 <= h <= Discovery.INV_HEIGHT_MAX && 0 <= h' <= Discovery.INV_HEIGHT_MAX
    requires Lt(prefix + Discovery.InvHeight(h) + ref, prefix + Discovery.InvHeight(h') + ref')
    ensures h >= h'
  {
    hide Lt, BE, FromBE, Range;
    var a, b := Discovery.InvHeight(h), Discovery.InvHeight(h');
    assert prefix + a + ref == prefix + (a + ref) && prefix + b + ref' == prefix + (b + ref');
    LtPrefix(prefix, a + ref, b + ref');
    UndoCodec.Ranges();
    if a != b {
      LtHead(a, b, ref, ref');
      BeOrder(Discovery.INV_HEIGHT_MAX - h, Discovery.INV_HEIGHT_MAX - h', 4);
    } else {
      FromBeOfBe(Discovery.INV_HEIGHT_MAX - h, 4);
      FromBeOfBe(Discovery.INV_HEIGHT_MAX - h', 4);
    }
  }
}
