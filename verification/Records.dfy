/** A serialisation of token records that does what is asked of the one in the source: it round
    trips, and keeps the records of new refs short.  So what is proved of the Glyph index is proved
    of an index that exists. */
module Records {
  import opened ByteStrings
  import opened UndoCodec
  import opened Overlay
  import opened Discovery

  // ----- Numbers, seven bits to a byte -----

  function PutNat(n: nat): (b: Bytes)
    ensures 1 <= |b| <= 1 + n / 128
  {
    if n < 128 then [n] else [128 + n % 128] + PutNat(n / 128)
  }

  function GetNat(b: Bytes): Option<(nat, Bytes)> {
    if b == [] then None
    else if b[0] < 128 then Some((b[0], b[1..]))
    else
      match GetNat(b[1..])
      case None => None
      case Some(r) => Some((b[0] - 128 + 128 * r.0, r.1))
  }

  lemma {:induction false} NatReadsBack(n: nat, tail: Bytes)
    ensures GetNat(PutNat(n) + tail) == Some((n, tail))
  {
    var b := PutNat(n) + tail;
    if n < 128 {
      assert b[1..] == tail;
    } else {
      NatReadsBack(n / 128, tail);
      assert b[1..] == PutNat(n / 128) + tail;
    }
  }

  /** The sign first. */
  function PutInt(i: int): Bytes {
    if i >= 0 then [0] + PutNat(i) else [1] + PutNat(-i)
  }

  function GetInt(b: Bytes): Option<(int, Bytes)> {
    if b == [] then None
    else
      match GetNat(b[1..])
      case None => None
      case Some(r) =>
        var n: int := r.0;
        Some((if b[0] == 0 then n else -n, r.1))
  }

  lemma IntReadsBack(i: int, tail: Bytes)
    ensures GetInt(PutInt(i) + tail) == Some((i, tail))
  {
    hide PutNat, GetNat;
    var n := if i >= 0 then i else -i;
    NatReadsBack(n, tail);
    assert (PutInt(i) + tail)[1..] == PutNat(n) + tail;
  }

  // ----- Strings and lists -----

  function PutBytes(s: Bytes): Bytes {
    PutNat(|s|) + s
  }

  function GetBytes(b: Bytes): Option<(Bytes, Bytes)> {
    match GetNat(b)
    case None => None
    case Some(r) => if r.0 <= |r.1| then Some((r.1[..r.0], r.1[r.0..])) else None
  }

  lemma BytesReadBack(s: Bytes, tail: Bytes)
    ensures GetBytes(PutBytes(s) + tail) == Some((s, tail))
  {
    hide PutNat, GetNat;
    NatReadsBack(|s|, s + tail);
    assert PutBytes(s) + tail == PutNat(|s|) + (s + tail);
  }

  function PutOption(o: Option<Bytes>): Bytes {
    match o
    case None => [0]
    case Some(s) => [1] + PutBytes(s)
  }

  function GetOption(b: Bytes): Option<(Option<Bytes>, Bytes)> {
    if b == [] then None
    else if b[0] == 0 then Some((None, b[1..]))
    else
      match GetBytes(b[1..])
      case None => None
      case Some(r) => Some((Some(r.0), r.1))
  }

  lemma OptionReadsBack(o: Option<Bytes>, tail: Bytes)
    ensures GetOption(PutOption(o) + tail) == Some((o, tail))
  {
    hide PutBytes, GetBytes;
    var b := PutOption(o) + tail;
    if o.None? {
      assert b[1..] == tail;
    } else {
      BytesReadBack(o.value, tail);
      assert b[1..] == PutBytes(o.value) + tail;
    }
  }

  function PutAllInts(s: seq<int>): Bytes {
    if s == [] then [] else PutInt(s[0]) + PutAllInts(s[1..])
  }

  function GetSomeInts(b: Bytes, n: nat): Option<(seq<int>, Bytes)>
    decreases n
  {
    if n == 0 then Some(([], b))
    else
      match GetInt(b)
      case None => None
      case Some(first) =>
        match GetSomeInts(first.1, n - 1)
        case None => None
        case Some(r) => Some(([first.0] + r.0, r.1))
  }

  lemma {:induction false} SomeIntsReadBack(s: seq<int>, tail: Bytes)
    ensures GetSomeInts(PutAllInts(s) + tail, |s|) == Some((s, tail))
  {
    hide PutInt, GetInt;
    if s == [] {
      assert PutAllInts(s) + tail == tail;
    } else {
      SomeIntsReadBack(s[1..], tail);
      IntReadsBack(s[0], PutAllInts(s[1..]) + tail);
      assert PutAllInts(s) + tail == PutInt(s[0]) + (PutAllInts(s[1..]) + tail);
      assert [s[0]] + s[1..] == s;
    }
  }

  function PutInts(s: seq<int>): Bytes {
    PutNat(|s|) + PutAllInts(s)
  }

  function GetInts(b: Bytes): Option<(seq<int>, Bytes)> {
    match GetNat(b)
    case None => None
    case Some(n) => GetSomeInts(n.1, n.0)
  }

  lemma IntsReadBack(s: seq<int>, tail: Bytes)
    ensures GetInts(PutInts(s) + tail) == Some((s, tail))
  {
    hide PutNat, GetNat, PutAllInts, GetSomeInts;
    NatReadsBack(|s|, PutAllInts(s) + tail);
    assert PutInts(s) + tail == PutNat(|s|) + (PutAllInts(s) + tail);
    SomeIntsReadBack(s, tail);
  }

  // ----- Token records -----

  function Dumps(t: Token): Bytes {
    [t.tokenType, if t.isCompanion then 1 else 0] + (PutInt(t.deployHeight) + (PutInts(t.protocols)
    + (PutOption(t.nameHash) + (PutOption(t.ticker) + PutBytes(t.rest)))))
  }

  function Loads(b: Bytes): Option<Token> {
    if |b| < 2 then None
    else
      match GetInt(b[2..])
      case None => None
      case Some(height) =>
        match GetInts(height.1)
        case None => None
        case Some(protocols) =>
          match GetOption(protocols.1)
          case None => None
          case Some(nameHash) =>
            match GetOption(nameHash.1)
            case None => None
            case Some(ticker) =>
              match GetBytes(ticker.1)
              case None => None
              case Some(rest) => Some(Token(b[0], height.0, protocols.0, b[1] == 1, nameHash.0, ticker.0, rest.0))
  }

  lemma TokenReadsBack(t: Token)
    ensures Loads(Dumps(t)) == Some(t)
  {
    hide PutInt, GetInt, PutInts, GetInts, PutOption, GetOption, PutBytes, GetBytes;
    var e := PutBytes(t.rest);
    var d := PutOption(t.ticker) + e;
    var c := PutOption(t.nameHash) + d;
    var b := PutInts(t.protocols) + c;
    var a := PutInt(t.deployHeight) + b;
    assert Dumps(t)[2..] == a;
    IntReadsBack(t.deployHeight, b);
    IntsReadBack(t.protocols, c);
    OptionReadsBack(t.nameHash, d);
    OptionReadsBack(t.ticker, e);
    BytesReadBack(t.rest, []);
    assert e + [] == e;
  }

  lemma NewIsShort(height: nat, singleton: bool)
    requires Height(height)
    ensures |Dumps(NewToken(height, singleton))| < SENTINEL
  {
    hide PutNat;
    var t := NewToken(height, singleton);
    assert t.protocols[1..] == [] && PutAllInts([]) == [];
    assert PutAllInts(t.protocols) == PutInt(t.protocols[0]) + [];
  }

  const PLAIN := Cbor(Dumps, Loads)

  /** What is asked of the serialisation can be met. */
  lemma PlainIsUsable()
    ensures PLAIN.Usable()
  {
    hide Dumps, Loads;
    forall t
      ensures PLAIN.loads(PLAIN.dumps(t)) == Some(t)
    {
      TokenReadsBack(t);
    }
    forall h: nat, s | Height(h)
      ensures |PLAIN.dumps(NewToken(h, s))| < SENTINEL
    {
      NewIsShort(h, s);
    }
  }
}
