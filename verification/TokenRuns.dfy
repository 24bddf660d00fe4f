/** Runs of the block processor with the Glyph index, from an empty database: a token is minted and
    read back, and a reorganisation into a window that was committed long ago misses its balance. */
module TokenRuns {
  import opened ByteStrings
  import opened Utxos
  import opened RefRows
  import opened Balances
  import opened GlyphLedger
  import opened RefTables
  import opened TokenIndexers
  import BlockProcessors
  import Discovery
  import GlyphIndexes
  import Overlay
  import Records
  import Scripts
  import Transactions

  // ----- Transactions that spend all there is into one output -----

  /** The first transaction: a plain output out of nothing. */
  function Coinbase(hash: Bytes, value: nat): BlockTx {
    var input := Transactions.TxInput(Zeros(32), 0xFFFF_FFFF, [], 0);
    BlockTx(Transactions.Tx(1, [input], [Transactions.TxOutput(value, [])], 0), hash)
  }

  predicate IntoOne(u: UtxoMap, t: BlockTx) {
    && |t.hash| == 32 && |t.tx.inputs| == 1 == |t.tx.outputs|
    && Scripts.OutputIndexable(t.tx.outputs[0].script) && 0 <= t.tx.outputs[0].value < Range(8)
    && (if t.tx.inputs[0].IsGeneration() then u == map[] else u.Keys == {PrevOut(t.tx.inputs[0])})
    && forall o :: o in u ==> o.hash != t.hash
  }

  lemma OneLeft(coin: Coin, u: UtxoMap, t: BlockTx, num: nat)
    requires IntoOne(u, t)
    ensures ValidTx(u, t)
    ensures AdvanceTx(coin, u, t, num) == map[Outpoint(t.hash, 0) := coin.Entry(t.tx.outputs[0], num)]
  {
    hide Range, Scripts.OutputIndexable, Coin.Entry, Transactions.TxInput.IsGeneration;
    var ins, rest := t.tx.inputs, t.tx.inputs[1..];
    assert rest == [] && InputsLive(u - {PrevOut(ins[0])}, rest) && InputsLive(u, rest);
    assert SpendInputs(u, ins) == map[];
    var after := map[Outpoint(t.hash, 0) := coin.Entry(t.tx.outputs[0], num)];
    assert AddOutputs(coin, map[], t, num, 0) == AddOutputs(coin, after, t, num, 1);
  }

  lemma SupplyOfOne(o: Outpoint, v: Bytes)
    ensures Supply(map[o := v]) == EntryValue(v) && Supply(map[]) == 0
  {
    hide EntryValue;
    var u := map[o := v];
    assert u - {o} == map[];
  }

  lemma SupplyOfEntry(coin: Coin, t: BlockTx, num: nat)
    requires |t.tx.outputs| == 1 && 0 <= t.tx.outputs[0].value < Range(8) && num < Range(5)
    ensures Supply(map[Outpoint(t.hash, 0) := coin.Entry(t.tx.outputs[0], num)]) < Range(8)
  {
    hide Range, Coin.Entry, ValueBytes, FromLE;
    SupplyOfOne(Outpoint(t.hash, 0), coin.Entry(t.tx.outputs[0], num));
    EntryParts(coin, t.tx.outputs[0], num);
  }

  lemma OneBlock(coin: Coin, u: UtxoMap, t: BlockTx, num: nat)
    requires IntoOne(u, t) && Supply(u) < Range(8) && num < Range(5)
    ensures ValidTxs(coin, u, [t], num) && SupplyOk(coin, u, [t], num)
    ensures AdvanceTxs(coin, u, [t], num) == AdvanceTx(coin, u, t, num)
    ensures Supply(AdvanceTx(coin, u, t, num)) < Range(8)
  {
    hide Range, IntoOne, Supply, AdvanceTx, ValidTx, Coin.Entry;
    OneLeft(coin, u, t, num);
    assert Supply(AdvanceTx(coin, u, t, num)) < Range(8) by {
      hide AdvanceTx, Supply;
      OutputFits(u, t);
      SupplyOfEntry(coin, t, num);
    }
    assert [t][0] == t && [t][1..] == [];
  }

  lemma OutputFits(u: UtxoMap, t: BlockTx)
    requires IntoOne(u, t)
    ensures |t.tx.outputs| == 1 && 0 <= t.tx.outputs[0].value < Range(8)
  {
  }

  lemma UtxosStep(coin: Coin, chain: seq<Block>, t: BlockTx)
    requires IntoOne(UtxosAt(coin, chain), t)
    ensures UtxosAt(coin, chain + [[t]]) == map[Outpoint(t.hash, 0) := coin.Entry(t.tx.outputs[0], |Txids(chain)|)]
    ensures |Txids(chain + [[t]])| == |Txids(chain)| + 1
  {
    hide IntoOne, AdvanceTx, Coin.Entry;
    var all := chain + [[t]];
    assert all[..|all| - 1] == chain && all[|all| - 1] == [t] && [t][1..] == [];
    OneLeft(coin, UtxosAt(coin, chain), t, |Txids(chain)|);
    var u, num := UtxosAt(coin, chain), |Txids(chain)|;
    assert AdvanceTxs(coin, u, [t], num) == AdvanceTx(coin, u, t, num);
  }

  /** The one output is the one that is live, if it carries refs. */
  lemma LiveStep(coin: Coin, base: Bytes -> Bytes, chain: seq<Block>, t: BlockTx)
    requires IntoOne(UtxosAt(coin, chain), t) && OutputRefs(t.tx.outputs[0].script) != []
    ensures LiveAt(coin, base, chain + [[t]]) == map[Outpoint(t.hash, 0) := HoldingOf(base, t.tx.outputs[0])]
  {
    hide UtxosAt, OutputRefs, HoldingOf, Coin.Entry, Range, Scripts.OutputIndexable;
    var all, o := chain + [[t]], Outpoint(t.hash, 0);
    UtxosStep(coin, chain, t);
    HeldStep(base, chain, t);
    HoldingsAre(base, t, 1, o);
    assert o in HeldAt(base, all) && HeldAt(base, all)[o] == HoldingOf(base, t.tx.outputs[0]);
  }

  lemma HeldStep(base: Bytes -> Bytes, chain: seq<Block>, t: BlockTx)
    ensures HeldAt(base, chain + [[t]]) == HeldTx(base, HeldAt(base, chain), t)
  {
    hide HeldTx;
    var all := chain + [[t]];
    assert all[..|all| - 1] == chain && all[|all| - 1] == [t] && [t][1..] == [];
    assert HeldBlock(base, HeldAt(base, chain), [t]) == HeldTx(base, HeldAt(base, chain), t);
  }

  lemma SumOfOne(o: Outpoint, hashX: Bytes, value: nat, ref: Bytes)
    ensures Total(map[o := Holding(hashX, value, {ref})], hashX, ref) == value
  {
    var live: Live := map[o := Holding(hashX, value, {ref})];
    TotalWithout(live, o, hashX, ref);
    assert live - {o} == map[];
  }

  // ----- The chain of a token -----

  /** The ref that names the first output of `origin`. */
  function TokenRef(origin: Bytes): Bytes {
    PackedOutpoint(origin, 0)
  }

  function TokenScript(origin: Bytes): Bytes {
    [Scripts.OP_PUSHINPUTREFSINGLETON] + TokenRef(origin)
  }

  /** All money lies in the first output of `h`, which carries the ref unless `h` is the origin; the
      txids so far are among `used`. */
  ghost predicate Carrying(coin: Coin, base: Bytes -> Bytes, chain: seq<Block>, origin: Bytes, h: Bytes, used: set<Bytes>) {
    && UtxosAt(coin, chain).Keys == {Outpoint(h, 0)} && Supply(UtxosAt(coin, chain)) < Range(8)
    && origin in used && h in used && (forall g :: g in used ==> |g| == 32)
    && (forall k :: Ri(k) in RowsAt(base, chain) || Rb(k) in RowsAt(base, chain) ==>
          exists g :: g in used && k == PackedOutpoint(g, 0))
    && MintedAt(chain) == Minted(if h == origin then {} else {TokenRef(origin)}, {})
    && |Txids(chain)| == |chain| > 0
  }

  lemma StartCarrying(coin: Coin, base: Bytes -> Bytes, origin: Bytes, value: nat)
    requires |origin| == 32 && value < Range(8)
    ensures ValidTxs(coin, UtxosAt(coin, []), [Coinbase(origin, value)], 0)
    ensures SupplyOk(coin, UtxosAt(coin, []), [Coinbase(origin, value)], 0)
    ensures ValidRefs(base, RowsAt(base, []), MintedAt([]), [Coinbase(origin, value)])
    ensures Carrying(coin, base, [[Coinbase(origin, value)]], origin, origin, {origin})
  {
    hide Range, Supply, Coin.Entry, RowsTx, Minted.With, ValidRefsTx, IntoOne, AdvanceTx, AdvanceTxs, ValidTxs, SupplyOk, ValidRefs,
      OutputRefs;
    var t := Coinbase(origin, value);
    PlainInto(origin, value);
    SupplyOfOne(Outpoint(origin, 0), []);
    ZeroFits();
    OneBlock(coin, map[], t, 0);
    UtxosStep(coin, [], t);
    OneLeft(coin, map[], t, 0);
    PlainRows(base, origin, value);
    OneTx(base, [], t);
    EmptyChain(base);
    assert [] + [[t]] == [[t]];
  }

  lemma ZeroFits()
    ensures 0 < Range(5) && 0 < Range(8)
  {
  }

  lemma PlainInto(origin: Bytes, value: nat)
    requires |origin| == 32 && value < Range(8)
    ensures IntoOne(map[], Coinbase(origin, value))
  {
    assert Scripts.Walk([], 0) == Some([]);
  }

  lemma PlainRows(base: Bytes -> Bytes, origin: Bytes, value: nat)
    requires |origin| == 32
    ensures var t := Coinbase(origin, value);
            && ValidRefsTx(map[], Minted({}, {}), t) && RowsTx(base, map[], t) == map[]
            && Minted({}, {}).With(t) == Minted({}, {})
  {
    var t := Coinbase(origin, value);
    assert Scripts.PushedRefs([], 0) == [] && OutputRefs([]) == [];
    assert OfKind([], true) == {} && OfKind([], false) == {};
    assert RowsTo(base, map[], t, 0) == map[];
    assert KindTo(t, true, 0) == {} && KindTo(t, false, 0) == {};
  }

  lemma CarrierInto(u: UtxoMap, to: Bytes, h: Bytes, ref: Bytes, value: nat)
    requires u.Keys == {Outpoint(h, 0)} && h != to && |to| == 32 && |ref| == REF_LEN && value < Range(8)
    ensures IntoOne(u, Carrier(to, h, ref, value))
  {
    hide Range;
    CarrierScript(ref);
  }

  /** The next transaction that carries the ref is valid, and carries it on. */
  lemma CarryOn(
      coin: Coin, base: Bytes -> Bytes, chain: seq<Block>, origin: Bytes, h: Bytes, used: set<Bytes>, to: Bytes, value: nat)
    requires Carrying(coin, base, chain, origin, h, used) && to !in used && |to| == 32 && value < Range(8)
    requires |chain| < Range(5)
    ensures var t := Carrier(to, h, TokenRef(origin), value);
            && ValidTxs(coin, UtxosAt(coin, chain), [t], |Txids(chain)|)
            && SupplyOk(coin, UtxosAt(coin, chain), [t], |Txids(chain)|)
            && ValidRefs(base, RowsAt(base, chain), MintedAt(chain), [t])
            && Carrying(coin, base, chain + [[t]], origin, to, used + {to})
            && Total(LiveAt(coin, base, chain + [[t]]), base(TokenScript(origin)), TokenRef(origin)) == value
  {
    hide Range, Supply, UtxosAt, RowsAt, MintedAt, Txids, ValidTxs, SupplyOk, ValidRefs, LiveAt, IntoOne, AdvanceTx, AdvanceTxs,
      Coin.Entry, Carrier, ValidRefsTx, RowsTx, Minted.With, PackedOutpoint;
    var ref := TokenRef(origin);
    RefLength(origin);
    var t, u := Carrier(to, h, ref, value), UtxosAt(coin, chain);
    CarrierInto(u, to, h, ref, value);
    CarrierOutput(base, to, h, ref, value);
    OneBlock(coin, u, t, |Txids(chain)|);
    UtxosStep(coin, chain, t);
    OneLeft(coin, u, t, |Txids(chain)|);
    LiveStep(coin, base, chain, t);
    SumOfOne(Outpoint(to, 0), base(TokenScript(origin)), value, ref);
    RefsStep(base, chain, origin, h, used, to, value);
    OneTx(base, chain, t);
  }

  lemma RefLength(origin: Bytes)
    requires |origin| == 32
    ensures |TokenRef(origin)| == REF_LEN
  {
  }

  lemma CarrierOutput(base: Bytes -> Bytes, to: Bytes, h: Bytes, ref: Bytes, value: nat)
    requires |ref| == REF_LEN
    ensures var t := Carrier(to, h, ref, value);
            && t.hash == to && |t.tx.outputs| == 1
            && t.tx.outputs[0] == Transactions.TxOutput(value, [Scripts.OP_PUSHINPUTREFSINGLETON] + ref)
            && OutputRefs(t.tx.outputs[0].script) != []
            && HoldingOf(base, t.tx.outputs[0]) == Holding(base([Scripts.OP_PUSHINPUTREFSINGLETON] + ref), value, {ref})
  {
    hide OutputRefs;
    CarrierScript(ref);
  }

  /** Its refs: the first one mints, the others move. */
  lemma RefsStep(base: Bytes -> Bytes, chain: seq<Block>, origin: Bytes, h: Bytes, used: set<Bytes>, to: Bytes, value: nat)
    requires origin in used && h in used && to !in used && |to| == 32 && forall g :: g in used ==> |g| == 32
    requires forall k :: Ri(k) in RowsAt(base, chain) || Rb(k) in RowsAt(base, chain) ==>
               exists g :: g in used && k == PackedOutpoint(g, 0)
    requires MintedAt(chain) == Minted(if h == origin then {} else {TokenRef(origin)}, {})
    ensures var t := Carrier(to, h, TokenRef(origin), value);
            && ValidRefsTx(RowsAt(base, chain), MintedAt(chain), t)
            && MintedAt(chain).With(t) == Minted({TokenRef(origin)}, {})
            && forall k :: Ri(k) in RowsTx(base, RowsAt(base, chain), t) || Rb(k) in RowsTx(base, RowsAt(base, chain), t) ==>
                 exists g :: g in used + {to} && k == PackedOutpoint(g, 0)
  {
    hide RowsAt, MintedAt, PackedOutpoint, Carrier, RowsTx, Singles, Normals, Spends, Range;
    var ref, rows := TokenRef(origin), RowsAt(base, chain);
    var t := Carrier(to, h, ref, value);
    RefLength(origin);
    CarrierRefs(to, h, ref, value);
    CarrierShape(to, h, ref, value);
    if h != origin {
      PackedHashes(h, origin);
    }
    forall g | g in used
      ensures PackedOutpoint(g, 0) != PackedOutpoint(to, 0)
    {
      PackedHashes(g, to);
    }
    forall k | Ri(k) in RowsTx(base, rows, t) || Rb(k) in RowsTx(base, rows, t)
      ensures exists g :: g in used + {to} && k == PackedOutpoint(g, 0)
    {
      if k == PackedOutpoint(to, 0) {
        assert to in used + {to};
      } else if Ri(k) !in rows && Rb(k) !in rows {
        CarrierRows(base, rows, to, h, ref, value, k);
      } else {
        var g :| g in used && k == PackedOutpoint(g, 0);
        assert g in used + {to};
      }
    }
  }

  lemma CarrierShape(to: Bytes, h: Bytes, ref: Bytes, value: nat)
    ensures var t := Carrier(to, h, ref, value); t.hash == to && |t.tx.outputs| == 1 <= Range(4)
  {
  }

  // ----- The runs -----

  /** The indexer has the chain of a token, all of it booked. */
  ghost predicate Holds(t: TokenIndexer, origin: Bytes, h: Bytes, used: set<Bytes>)
    reads t, t.blocks, t.refs, t.glyphs
  {
    && t.Valid() && t.Ledgered() && Carrying(t.blocks.coin, t.refs.base, t.blocks.chain, origin, h, used)
    && forall i :: 0 <= i < |t.blocks.chain| ==> i in t.blocks.recorded
  }

  /** What the holder of the token has after the blocks of `chain`. */
  ghost function Sum(t: TokenIndexer, chain: seq<Block>, origin: Bytes): nat {
    Total(LiveAt(t.blocks.coin, t.refs.base, chain), t.refs.base(TokenScript(origin)), TokenRef(origin))
  }

  method Start(coin: Coin, base: Bytes -> Bytes, cbor: Discovery.Cbor, origin: Bytes, value: nat) returns (t: TokenIndexer)
    requires cbor.Usable() && GoodBase(base) && BaseIs(coin, base) && |origin| == 32 && value < Range(8)
    ensures fresh(t) && fresh(t.blocks) && fresh(t.refs) && fresh(t.glyphs) && Holds(t, origin, origin, {origin})
    ensures t.blocks.chain == [[Coinbase(origin, value)]] && t.refs.base == base && t.past == []
    ensures t.blocks.dbHeight == -1 && t.blocks.height == 0 && t.blocks.reorgLimit == t.glyphs.reorgLimit == 100
    ensures t.glyphs.floor <= 0
  {
    hide TokenIndexer.Valid, TokenIndexer.Ledgered, Discovery.Cbor.Usable, GoodBase, BaseIs, ValidTxs, SupplyOk, ValidRefs, Carrying,
      Coinbase, Range;
    t := new TokenIndexer(coin, base, 100, cbor);
    StartCarrying(coin, base, origin, value);
    Fits(t, [Coinbase(origin, value)]);
    t.AdvanceBlock([Coinbase(origin, value)], 0);
    assert [] + [[Coinbase(origin, value)]] == [[Coinbase(origin, value)]];
  }

  /** What is left to see of a valid block. */
  lemma Fits(t: TokenIndexer, block: Block)
    requires t.Valid() && |block| == 1 && |t.blocks.chain| < 0x1_0000_0000 && |Txids(t.blocks.chain)| == |t.blocks.chain|
    requires ValidTxs(t.blocks.coin, UtxosAt(t.blocks.coin, t.blocks.chain), block, |Txids(t.blocks.chain)|)
    requires SupplyOk(t.blocks.coin, UtxosAt(t.blocks.coin, t.blocks.chain), block, |Txids(t.blocks.chain)|)
    requires ValidRefs(t.refs.base, RowsAt(t.refs.base, t.blocks.chain), MintedAt(t.blocks.chain), block)
    ensures t.ValidNext(block)
  {
    hide ValidTxs, SupplyOk, ValidRefs, UtxosAt, RowsAt, MintedAt, Txids, Range, MarksBooked, Recalled, GoodBase, BaseIs,
      RefProcessor.Valid, GlyphIndexes.GlyphIndex.Valid, BlockProcessors.BlockProcessor.Rep, BlockProcessors.UndoKept, ValidChain;
    FiveBytes();
  }

  lemma FiveBytes()
    ensures 0x1_0000_0000 < Range(5)
  {
    assert Range(5) == 256 * Range(4) && Range(4) == 256 * Range(3) && Range(3) == 256 * Range(2);
    assert Range(2) == 256 * Range(1) && Range(1) == 256 * Range(0);
  }

  /** The token moves, or is minted, in the next block. */
  method Move(t: TokenIndexer, ghost origin: Bytes, from: Bytes, to: Bytes, ref: Bytes, value: nat, ghost used: set<Bytes>)
    requires Holds(t, origin, from, used) && to !in used && |to| == 32 && value < Range(8) && ref == TokenRef(origin)
    requires |t.blocks.chain| < 0x1_0000_0000
    modifies t.blocks, t.refs, t.glyphs
    ensures Holds(t, origin, to, used + {to})
    ensures t.blocks.chain == old(t.blocks.chain) + [[Carrier(to, from, ref, value)]]
    ensures Sum(t, t.blocks.chain, origin) == value
    ensures t.blocks.dbHeight == old(t.blocks.dbHeight) && t.blocks.height == old(t.blocks.height) + 1
    ensures t.glyphs.floor == old(t.glyphs.floor) && t.glyphs.marks == old(t.glyphs.marks)
  {
    hide TokenIndexer.Valid, TokenIndexer.Ledgered, TokenIndexer.ValidNext, ValidTxs, SupplyOk, ValidRefs, Carrying, Carrier, Range,
      TokenRef, Sum, Holds, UtxosAt, RowsAt, MintedAt, Txids, LiveAt;
    Numbers(t, origin, from, used);
    MoveOn(t, t.blocks.chain, origin, from, used, to, value);
    var block := [Carrier(to, from, ref, value)];
    Fits(t, block);
    t.AdvanceBlock(block, 0);
    HoldsIf(t, origin, to, used + {to});
  }

  lemma MoveOn(t: TokenIndexer, chain: seq<Block>, origin: Bytes, h: Bytes, used: set<Bytes>, to: Bytes, value: nat)
    requires Carrying(t.blocks.coin, t.refs.base, chain, origin, h, used) && to !in used && |to| == 32 && value < Range(8)
    requires |chain| < Range(5)
    ensures var b, coin := [Carrier(to, h, TokenRef(origin), value)], t.blocks.coin;
            && ValidTxs(coin, UtxosAt(coin, chain), b, |Txids(chain)|)
            && SupplyOk(coin, UtxosAt(coin, chain), b, |Txids(chain)|)
            && ValidRefs(t.refs.base, RowsAt(t.refs.base, chain), MintedAt(chain), b)
            && Carrying(coin, t.refs.base, chain + [b], origin, to, used + {to}) && Sum(t, chain + [b], origin) == value
  {
    hide Range, Supply, UtxosAt, RowsAt, MintedAt, Txids, ValidTxs, SupplyOk, ValidRefs, LiveAt, Carrier, TokenRef, Carrying;
    CarryOn(t.blocks.coin, t.refs.base, chain, origin, h, used, to, value);
  }

  lemma HoldsIf(t: TokenIndexer, origin: Bytes, h: Bytes, used: set<Bytes>)
    requires t.Valid() && t.Ledgered() && Carrying(t.blocks.coin, t.refs.base, t.blocks.chain, origin, h, used)
    requires forall i :: 0 <= i < |t.blocks.chain| ==> i in t.blocks.recorded
    ensures Holds(t, origin, h, used)
  {
    hide TokenIndexer.Valid, TokenIndexer.Ledgered, Carrying;
  }

  lemma Numbers(t: TokenIndexer, origin: Bytes, h: Bytes, used: set<Bytes>)
    requires Holds(t, origin, h, used) && |t.blocks.chain| < 0x1_0000_0000
    ensures 0 < |t.blocks.chain| < Range(5) && |Txids(t.blocks.chain)| == |t.blocks.chain|
    ensures t.Valid() && t.Ledgered() && Carrying(t.blocks.coin, t.refs.base, t.blocks.chain, origin, h, used)
    ensures forall i :: 0 <= i < |t.blocks.chain| ==> i in t.blocks.recorded
  {
    hide TokenIndexer.Valid, TokenIndexer.Ledgered, Range;
    FiveBytes();
  }

  /** The balance of the one holder. */
  ghost function BalanceOf(t: TokenIndexer, origin: Bytes): nat
    reads t.glyphs`balanceCache, t.glyphs`balanceDeletes, t.glyphs`db
  {
    t.glyphs.Balance(t.refs.base(TokenScript(origin)), TokenRef(origin))
  }

  ghost function HolderKey(t: TokenIndexer, origin: Bytes): Bytes {
    BalanceKey(t.refs.base(TokenScript(origin)), TokenRef(origin))
  }

  lemma Sizes(t: TokenIndexer, origin: Bytes)
    requires t.Valid() && |origin| == 32
    ensures |t.refs.base(TokenScript(origin))| == HASHX_LEN && |TokenRef(origin)| == REF_LEN
    ensures t.blocks.height == |t.blocks.chain| - 1 >= t.blocks.dbHeight >= -1 && |t.past| == t.blocks.dbHeight + 1
    ensures t.glyphs.Valid()
  {
    hide BlockProcessors.BlockProcessor.Valid, RefProcessor.Valid, GlyphIndexes.GlyphIndex.Valid, MarksBooked, BaseIs, Recalled;
    Heights(t.blocks, t.refs);
    PastLength(t.blocks.coin, t.refs.base, t.blocks.chain, t.glyphs.db, t.blocks.dbHeight, t.glyphs.floor, t.past);
  }

  lemma BalanceIsSum(t: TokenIndexer, origin: Bytes)
    requires t.Valid() && t.Ledgered() && |origin| == 32
    ensures BalanceOf(t, origin) == Sum(t, t.blocks.chain, origin)
  {
    hide TokenIndexer.Valid, Windowed, Carried, GlyphIndexes.GlyphIndex.Known, GlyphIndexes.GlyphIndex.Balance, LiveAt;
    Sizes(t, origin);
  }

  /** A balance that is not what it was at a height of the open window moved since. */
  lemma MovedSince(t: TokenIndexer, origin: Bytes, j: nat)
    requires t.Valid() && t.Ledgered() && |origin| == 32 && t.blocks.dbHeight <= j < |t.blocks.chain|
    requires Sum(t, t.blocks.chain[..j + 1], origin) != Sum(t, t.blocks.chain, origin)
    ensures Window(t.blocks.dbHeight, t.blocks.height, t.glyphs.Now()).Moved(j, HolderKey(t, origin))
  {
    hide TokenIndexer.Valid, Booked, LiveAt, TokenIndexer.Balanced, Overlay.RecordedAbove, GlyphIndexes.GlyphIndex.Balance;
    Sizes(t, origin);
    BalanceIsSum(t, origin);
    BalanceNow(t.glyphs, t.refs.base(TokenScript(origin)), TokenRef(origin));
  }

  /** What the server answers once everything is flushed. */
  method Read(t: TokenIndexer, base: Bytes -> Bytes, origin: Bytes) returns (n: nat)
    requires t.Valid() && t.glyphs.CachesEmpty() && |origin| == 32 && base == t.refs.base
    ensures n == BalanceOf(t, origin)
  {
    hide TokenIndexer.Valid, GlyphIndexes.GlyphIndex.Valid;
    Sizes(t, origin);
    n := t.glyphs.GetBalance(base(TokenScript(origin)), TokenRef(origin));
  }

  method FlushAll(t: TokenIndexer, ghost origin: Bytes, ghost h: Bytes, ghost used: set<Bytes>)
    requires Holds(t, origin, h, used) && |origin| == 32
    modifies t, t.blocks, t.refs, t.glyphs
    ensures Holds(t, origin, h, used) && t.glyphs.CachesEmpty() && t.blocks.chain == old(t.blocks.chain)
    ensures t.blocks.dbHeight == t.blocks.height == old(t.blocks.height) == |t.blocks.chain| - 1
    ensures |t.past| == |t.blocks.chain| && forall i: nat :: i < |t.past| ==> t.past[i] == old(t.WindowOf(i))
    ensures || t.glyphs.floor <= 0 || t.glyphs.floor == old(t.glyphs.floor)
            || t.glyphs.floor == |t.blocks.chain| - t.glyphs.reorgLimit
  {
    hide TokenIndexer.Valid, TokenIndexer.Ledgered, Carrying, Booked, TokenIndexer.WindowOf;
    Sizes(t, origin);
    t.Flush();
  }

  /** A token is minted in the second block, and its balance read. */
  method FirstToken(coin: Coin, base: Bytes -> Bytes, cbor: Discovery.Cbor, origin: Bytes, to: Bytes, value: nat)
    returns (n: nat)
    requires cbor.Usable() && GoodBase(base) && BaseIs(coin, base)
    requires |origin| == |to| == 32 && origin != to && value < Range(8)
    ensures n == value
  {
    hide TokenIndexer.Valid, TokenIndexer.Ledgered, Discovery.Cbor.Usable, GoodBase, BaseIs, Carrying, Carrier, Range, TokenRef,
      TokenScript, TokenIndexer.WindowOf, BalanceOf, Sum;
    var t := Start(coin, base, cbor, origin, value);
    Move(t, origin, origin, to, TokenRef(origin), value, {origin});
    FlushAll(t, origin, to, {origin} + {to});
    BalanceIsSum(t, origin);
    n := Read(t, base, origin);
  }

  /** The token moves in two blocks, which are committed at once.  Its balance moved above the first. */
  method TwoMoves(
      t: TokenIndexer, origin: Bytes, h1: Bytes, h2: Bytes, h3: Bytes, ref: Bytes, v2: nat, v3: nat, ghost used: set<Bytes>)
    returns (ghost w: Window)
    requires Holds(t, origin, h1, used) && |h2| == |h3| == 32 && h2 !in used && h3 !in used + {h2} && ref == TokenRef(origin)
    requires v2 < Range(8) && v3 < Range(8) && v2 != v3 && |origin| == 32
    requires t.blocks.dbHeight == t.blocks.height && |t.blocks.chain| < 1000 && t.glyphs.floor <= 0 && t.glyphs.reorgLimit == 100
    modifies t, t.blocks, t.refs, t.glyphs
    ensures Holds(t, origin, h3, used + {h2} + {h3})
    ensures var c := old(t.blocks.chain) + [[Carrier(h2, h1, ref, v2)]];
            t.blocks.chain == c + [[Carrier(h3, h2, ref, v3)]] && Sum(t, c, origin) == v2
    ensures var n := |old(t.blocks.chain)|;
            |t.past| == n + 2 && t.past[n] == w && w.lo == n - 1 && w.Moved(n, HolderKey(t, origin))
    ensures t.blocks.dbHeight == t.blocks.height
    ensures t.glyphs.floor <= 0 || t.glyphs.floor == |t.blocks.chain| - 100
  {
    hide TokenIndexer.Valid, TokenIndexer.Ledgered, Carrying, Carrier, Range, TokenRef, Sum, Window.Moved, Holds;
    Numbers(t, origin, h1, used);
    Sizes(t, origin);
    Move(t, origin, h1, h2, ref, v2, used);
    ghost var c := t.blocks.chain;
    Move(t, origin, h2, h3, ref, v3, used + {h2});
    ghost var n := |c| - 1;
    assert t.blocks.chain[..n + 1] == c;
    Numbers(t, origin, h3, used + {h2} + {h3});
    Sizes(t, origin);
    MovedSince(t, origin, n);
    w := t.WindowOf(n);
    FlushAll(t, origin, h3, used + {h2} + {h3});
  }

  /** A window of two blocks, in which the balance is `v2` and then `v3`, is committed after one in
      which it was `v1`, and so is another block.  A reorganisation that ends inside the older window
      leaves `v1` where the sum over the live outputs is `v2`. */
  method LateReorg(
      coin: Coin, base: Bytes -> Bytes, cbor: Discovery.Cbor, h0: Bytes, h1: Bytes, h2: Bytes, h3: Bytes, h4: Bytes,
      v1: nat, v2: nat, v3: nat, v4: nat)
    returns (n: nat, ghost sum: nat)
    requires cbor.Usable() && GoodBase(base) && BaseIs(coin, base)
    requires |h0| == |h1| == |h2| == |h3| == |h4| == 32 && h1 !in {h0} && h2 !in {h0} + {h1}
    requires h3 !in {h0} + {h1} + {h2} && h4 !in {h0} + {h1} + {h2} + {h3}
    requires v1 < Range(8) && v2 < Range(8) && v3 < Range(8) && v4 < Range(8) && v2 != v1 && v2 != v3
    ensures sum == v2 && n == v1
  {
    hide TokenIndexer.Valid, TokenIndexer.Ledgered, Discovery.Cbor.Usable, GoodBase, BaseIs, Carrying, Carrier, Range, TokenRef,
      TokenScript, BalanceOf, TokenIndexer.RightIff, Window.Moved, LiveAt, Coinbase, Sum;
    var t := Start(coin, base, cbor, h0, v1);
    var ref := TokenRef(h0);
    Move(t, h0, h0, h1, ref, v1, {h0});
    ghost var c2 := t.blocks.chain;
    FlushAll(t, h0, h1, {h0} + {h1});
    ghost var w := TwoMoves(t, h0, h1, h2, h3, ref, v2, v3, {h0} + {h1});
    Move(t, h0, h3, h4, ref, v4, {h0} + {h1} + {h2} + {h3});
    FlushAll(t, h0, h4, {h0} + {h1} + {h2} + {h3} + {h4});
    var replaced := [[Carrier(h3, h2, ref, v3)], [Carrier(h4, h3, ref, v4)]];
    ghost var c3 := c2 + [[Carrier(h2, h1, ref, v2)]];
    assert t.blocks.chain == c3 + replaced && c3[..2] == c2;
    n := BackInto(t, base, h0, replaced, c3, w);
    sum := Sum(t, t.blocks.chain, h0);
  }

  /** Backed up to height 2, of a window that begins after height 1 and in which the balance moved
      later. */
  method BackInto(
      t: TokenIndexer, base: Bytes -> Bytes, origin: Bytes, replaced: seq<Block>, ghost c: seq<Block>, ghost w: Window)
    returns (n: nat)
    requires t.Valid() && t.Ledgered() && t.blocks.chain == c + replaced && |c| == 3 && |replaced| == 2 && |origin| == 32
    requires forall i :: 0 <= i < |t.blocks.chain| ==> i in t.blocks.recorded
    requires |t.past| > 2 && t.past[2] == w && w.lo == 1 && w.Moved(2, HolderKey(t, origin)) && base == t.refs.base
    requires t.glyphs.floor <= 0 && t.glyphs.reorgLimit == 100
    modifies t, t.blocks, t.refs, t.glyphs
    ensures t.blocks.chain == c && n == Sum(t, c[..2], origin)
  {
    hide TokenIndexer.Valid, TokenIndexer.Ledgered, Window.Moved, TokenRef, TokenScript, BalanceOf, TokenIndexer.RightIff, Sum;
    assert t.blocks.chain[3..] == replaced && t.blocks.chain[..3] == c;
    t.ReorgTo(2, replaced);
    MissedBalance(t, origin, w);
    n := Read(t, base, origin);
  }

  lemma MissedBalance(t: TokenIndexer, origin: Bytes, w: Window)
    requires t.Valid() && |origin| == 32 && t.RightIff(w, 2) && w.Moved(2, HolderKey(t, origin))
    ensures -1 <= w.lo < |t.blocks.chain| && BalanceOf(t, origin) == Sum(t, t.blocks.chain[..w.lo + 1], origin)
  {
    hide TokenIndexer.Valid, Window.Moved, TokenRef, TokenScript, LiveAt, GlyphIndexes.GlyphIndex.Balance;
    Sizes(t, origin);
  }

  /** Nothing is left to assume: these inputs do it. */
  method LateReorgOnce() returns (n: nat, ghost sum: nat)
    ensures sum == 7 && n == 5
  {
    hide Discovery.Cbor.Usable, Range, Records.PLAIN;
    Records.PlainIsUsable();
    var coin, base := Coin(_ => Zeros(32)), (_: Bytes) => Zeros(HASHX_LEN);
    ConstantBase(coin, base);
    SmallAmounts();
    n, sum := LateReorg(coin, base, Records.PLAIN, Txid(0), Txid(1), Txid(2), Txid(3), Txid(4), 5, 7, 3, 1);
  }

  /** Nor here: the three runs of the Glyph index alone. */
  method IndexRunsOnce() returns (twice: (nat, nat), zeroed: (nat, nat), unseen: (nat, nat))
    ensures twice == (7, 5) && zeroed == (0, 5) && unseen == (0, 5)
  {
    hide Discovery.Cbor.Usable, Range, Records.PLAIN;
    Records.PlainIsUsable();
    SmallAmounts();
    var cbor, hashX, ref := Records.PLAIN, Zeros(HASHX_LEN), Zeros(REF_LEN);
    var a, b := GlyphIndexes.MovedTwice(cbor, hashX, ref, 5, 2, -3);
    var c, d := GlyphIndexes.ZeroedOnce(cbor, hashX, ref, 5);
    var e, f := GlyphIndexes.SpentUnseen(cbor, hashX, ref, 5);
    return (a, b), (c, d), (e, f);
  }

  lemma ConstantBase(coin: Coin, base: Bytes -> Bytes)
    requires forall s: Bytes :: coin.sha256(s) == Zeros(32) && base(s) == Zeros(HASHX_LEN)
    ensures GoodBase(base) && BaseIs(coin, base)
  {
    hide Scripts.IsBaseScript;
    assert Zeros(32)[..HASHX_LEN] == Zeros(HASHX_LEN);
  }

  lemma SmallAmounts()
    ensures 7 < Range(8)
  {
    assert Range(8) == 256 * Range(7) && Range(7) >= 1;
  }

  function Txid(n: Byte): (h: Bytes)
    ensures |h| == 32 && h[0] == n
  {
    [n] + Zeros(31)
  }
}
