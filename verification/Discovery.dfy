/** The discovery rows of the Glyph tables: recency-ordered lists of tokens by type (GZ), by
    protocol (GP) and of all tokens (GQ), each derived from the token row (GT) of its ref
    (electrumx/server/glyph_index.py). */
module Discovery {
  import opened ByteStrings
  import opened UndoCodec
  import opened Overlay

  const TOKEN: Bytes := [71, 84]          // GT
  const TYPE_RECENT: Bytes := [71, 90]    // GZ
  const PROTO: Bytes := [71, 80]          // GP
  const GLOBAL_RECENT: Bytes := [71, 81]  // GQ
  const UNKNOWN_TYPE := 0
  const INV_HEIGHT_MAX := 0xFFFF_FFFF

  /** What the discovery rows depend on, the keys of the name and ticker rows, and the rest. */
  datatype Token = Token(
    tokenType: Byte, deployHeight: int, protocols: seq<int>, isCompanion: bool,
    nameHash: Option<Bytes>, ticker: Option<Bytes>, rest: Bytes)

  /** The record of a ref first seen in an output script. */
  function NewToken(height: nat, singleton: bool): (t: Token)
    ensures t.nameHash.None?
  {
    Token(if singleton then 2 else 1, height, [if singleton then 2 else 1], false, None, None, [])
  }

  /** The serialisation of token records, taken to round trip. */
  datatype Cbor = Cbor(dumps: Token -> Bytes, loads: Bytes -> Option<Token>) {
    ghost predicate RoundTrips() {
      forall t :: loads(dumps(t)) == Some(t)
    }

    /** And the records that the index makes of refs are short enough for the undo log. */
    ghost predicate Usable() {
      RoundTrips() && forall h: nat, s :: Height(h) ==> |dumps(NewToken(h, s))| < SENTINEL
    }

    /** The discovery rows that the token row of `ref` accounts for. */
    function RowsOf(db: Table, ref: Bytes): Table {
      if TokenKey(ref) !in db then map[]
      else
        match loads(db[TokenKey(ref)])
        case None => map[]
        case Some(t) => DiscoveryRows(ref, t)
    }

    /** There is a discovery row if and only if a token row accounts for it. */
    ghost predicate Derived(db: Table) {
      forall k :: IsDiscovery(k) ==> Get(db, k) == Get(RowsOf(db, RefOf(k)), k)
    }
  }

  // ----- Keys -----

  /** The second byte of a Glyph key tells its table. */
  function Kind(k: Bytes): int {
    if |k| >= 2 && k[0] == 71 then k[1] else -1
  }

  predicate IsDiscovery(k: Bytes) {
    Kind(k) == 90 || Kind(k) == 80 || Kind(k) == 81
  }

  /** Discovery keys end with the ref. */
  function RefOf(k: Bytes): Bytes {
    if |k| >= REF_LEN then k[|k| - REF_LEN..] else k
  }

  function TokenKey(ref: Bytes): Bytes {
    TOKEN + ref
  }

  /** Newest first: the complement of the height. */
  function InvHeight(deployHeight: int): (b: Bytes)
    ensures |b| == 4
  {
    BE(INV_HEIGHT_MAX - (if 0 <= deployHeight <= INV_HEIGHT_MAX then deployHeight else 0), 4)
  }

  function TypeRecentKey(tokenType: Byte, deployHeight: int, ref: Bytes): Bytes {
    TYPE_RECENT + [tokenType] + InvHeight(deployHeight) + ref
  }

  function ProtoKey(proto: int, deployHeight: int, ref: Bytes): Bytes {
    PROTO + [proto % 256] + InvHeight(deployHeight) + ref
  }

  function GlobalRecentKey(deployHeight: int, ref: Bytes): Bytes {
    GLOBAL_RECENT + InvHeight(deployHeight) + ref
  }

  function ProtoRows(ref: Bytes, t: Token): Table {
    map p | p in t.protocols :: ProtoKey(p, t.deployHeight, ref) := []
  }

  /** Companions of another token are listed by protocol only, and tokens of unknown type are
      left out of the list of all tokens. */
  function DiscoveryRows(ref: Bytes, t: Token): Table {
    if t.isCompanion then ProtoRows(ref, t)
    else
      (if t.tokenType != UNKNOWN_TYPE then map[GlobalRecentKey(t.deployHeight, ref) := [t.tokenType]] else map[])
      + map[TypeRecentKey(t.tokenType, t.deployHeight, ref) := []]
      + ProtoRows(ref, t)
  }

  lemma TokenKeyFacts(ref: Bytes)
    ensures Kind(TokenKey(ref)) == 84 && Tracked(TokenKey(ref)) && |TokenKey(ref)| == 2 + |ref|
    ensures TokenKey(ref)[2..] == ref
  {
    assert TokenKey(ref)[..2] == TOKEN;
  }

  lemma KindTracked(k: Bytes)
    requires Kind(k) != -1 && Kind(k) !in {88, 79, 83, 86}
    ensures Tracked(k)
  {
  }

  lemma DiscoveryKeyFacts(ref: Bytes, t: Token, k: Bytes)
    requires k in DiscoveryRows(ref, t)
    ensures IsDiscovery(k) && Tracked(k) && |k| <= 7 + |ref| && |DiscoveryRows(ref, t)[k]| <= 1
    ensures |ref| == REF_LEN ==> RefOf(k) == ref
  {
    hide Tracked, InvHeight;
    if p :| p in t.protocols && k == ProtoKey(p, t.deployHeight, ref) {
    } else if k == TypeRecentKey(t.tokenType, t.deployHeight, ref) {
    } else {
      assert k == GlobalRecentKey(t.deployHeight, ref);
    }
    KindTracked(k);
  }

  /** Rows are found under their own ref only. */
  lemma RowsUnderRef(cbor: Cbor, db: Table, ref: Bytes, k: Bytes)
    requires |ref| == REF_LEN && Get(cbor.RowsOf(db, ref), k).Some?
    ensures IsDiscovery(k) && RefOf(k) == ref
  {
    var t := cbor.loads(db[TokenKey(ref)]).value;
    DiscoveryKeyFacts(ref, t, k);
  }

  // ----- Unwinding keeps the rows derived, also inside a window -----

  predicate At(undo: Undo, h: nat, k: Bytes) {
    h in undo && HasKey(undo[h], k)
  }

  /** A token and its discovery rows are written, and so recorded, at one height of a window. */
  ghost predicate Together(undo: Undo) {
    && (forall h: nat, k :: IsDiscovery(k) && At(undo, h, k) ==> At(undo, h, TokenKey(RefOf(k))))
    && (forall h: nat, h': nat, ref :: At(undo, h, TokenKey(ref)) && At(undo, h', TokenKey(ref)) ==> h == h')
  }

  lemma DiscoveryTracked(k: Bytes)
    requires IsDiscovery(k)
    ensures Tracked(k)
  {
    hide Tracked;
    KindTracked(k);
  }

  lemma SameRowsOf(cbor: Cbor, a: Table, b: Table, ref: Bytes)
    requires Get(a, TokenKey(ref)) == Get(b, TokenKey(ref))
    ensures cbor.RowsOf(a, ref) == cbor.RowsOf(b, ref)
  {
  }

  /** At every height inside a window the rows are derived. */
  lemma DerivedBetween(cbor: Cbor, db: Table, db': Table, undo: Undo, lo: int, j: int, hi: int, floor: int, t: Table)
    requires FlushedOnto(db, db', undo, lo, hi, floor) && Between(db, db', undo, j, hi, t)
    requires cbor.Derived(db) && cbor.Derived(db') && Together(undo) && -1 <= j
    ensures cbor.Derived(t)
  {
    hide HasKey, Tracked, UndoKey, GoodUndo, Kind, Cbor.RowsOf, DiscoveryRows;
    forall k | IsDiscovery(k)
      ensures Get(t, k) == Get(cbor.RowsOf(t, RefOf(k)), k)
    {
      DerivedAt(cbor, db, db', undo, lo, j, hi, floor, t, k);
    }
  }

  lemma DerivedAt(cbor: Cbor, db: Table, db': Table, undo: Undo, lo: int, j: int, hi: int, floor: int, t: Table, k: Bytes)
    requires FlushedOnto(db, db', undo, lo, hi, floor) && Between(db, db', undo, j, hi, t)
    requires cbor.Derived(db) && cbor.Derived(db') && Together(undo) && IsDiscovery(k) && -1 <= j
    ensures Get(t, k) == Get(cbor.RowsOf(t, RefOf(k)), k)
  {
    hide HasKey, Tracked, UndoKey, GoodUndo, Kind, Cbor.RowsOf, DiscoveryRows, IsDiscovery, RefOf, TokenKey;
    var ref := RefOf(k);
    DiscoveryTracked(k);
    TokenKeyFacts(ref);
    var gt := TokenKey(ref);
    FamilyRecorded(undo, j, k);
    SameRowsOf(cbor, t, if RecordedAbove(undo, j, gt) then db else db', ref);
  }

  /** Within a window, a discovery row is recorded above a height if and only if it is recorded
      at all and its token row is recorded above that height. */
  lemma FamilyRecorded(undo: Undo, j: int, k: Bytes)
    requires Together(undo) && IsDiscovery(k) && -1 <= j
    ensures RecordedAbove(undo, j, k) <==> Recorded(undo, k) && RecordedAbove(undo, j, TokenKey(RefOf(k)))
  {
    hide HasKey, IsDiscovery, RefOf, TokenKey;
    var gt := TokenKey(RefOf(k));
    if Recorded(undo, k) {
      var h :| h in undo && h > -1 && HasKey(undo[h], k);
      assert At(undo, h, k);
      if RecordedAbove(undo, j, gt) {
        var h' :| h' in undo && h' > j && HasKey(undo[h'], gt);
        assert At(undo, h, gt) && At(undo, h', gt);
        assert h == h';
      }
      if RecordedAbove(undo, j, k) {
        var h'' :| h'' in undo && h'' > j && HasKey(undo[h''], k);
        assert At(undo, h'', k) && At(undo, h'', gt);
      }
    }
  }

  lemma DerivedSame(cbor: Cbor, a: Table, b: Table)
    requires SameTracked(a, b) && cbor.Derived(a)
    ensures cbor.Derived(b)
  {
    hide Tracked, Kind, Cbor.RowsOf, TokenKey;
    forall k | IsDiscovery(k)
      ensures Get(b, k) == Get(cbor.RowsOf(b, RefOf(k)), k)
    {
      DiscoveryTracked(k);
      TokenKeyFacts(RefOf(k));
      SameRowsOf(cbor, a, b, RefOf(k));
    }
  }

  lemma SameTrackedSym(a: Table, b: Table)
    requires SameTracked(a, b)
    ensures SameTracked(b, a)
  {
  }
}
