/** The live outputs of the Glyph ledger, and how a transaction moves them.

    Live outputs are the UTXO set restricted to the outputs that carry refs.  The block processor
    knows them only through its tables: refs from the `ri` row of a spent outpoint, its holder
    from the `rb` row, its value from the UTXO entry (electrumx/server/block_processor.py).
    Here these are shown to agree before every transaction of every block, outputs of the same
    block included, so that what a spent output is debited with is what it was credited with. */
module GlyphLedger {
  import opened ByteStrings
  import opened Utxos
  import opened RefRows
  import opened Balances
  import opened GlyphIndexes
  import opened LedgerRows
  import opened Overlay
  import opened Discovery
  import Scripts
  import Transactions

  function Packed(o: Outpoint): Bytes {
    PackedOutpoint(o.hash, o.idx)
  }

  // ----- Live outputs -----

  /** What an output with refs holds, by the hashX of its base script. */
  function HoldingOf(base: Bytes -> Bytes, out: Transactions.TxOutput): Holding {
    Holding(base(out.script), if out.value >= 0 then out.value else 0, set p | p in OutputRefs(out.script) :: p.ref)
  }

  /** The outputs with refs among the first `n` of a transaction. */
  function HoldingsTo(base: Bytes -> Bytes, t: BlockTx, n: nat): Live
    requires n <= |t.tx.outputs|
  {
    if n == 0 then map[]
    else if OutputRefs(t.tx.outputs[n - 1].script) == [] then HoldingsTo(base, t, n - 1)
    else HoldingsTo(base, t, n - 1)[Outpoint(t.hash, n - 1) := HoldingOf(base, t.tx.outputs[n - 1])]
  }

  lemma {:induction false} HoldingsAre(base: Bytes -> Bytes, t: BlockTx, n: nat, o: Outpoint)
    requires n <= |t.tx.outputs|
    ensures o in HoldingsTo(base, t, n) <==> o.hash == t.hash && o.idx < n && OutputRefs(t.tx.outputs[o.idx].script) != []
    ensures o in HoldingsTo(base, t, n) ==> HoldingsTo(base, t, n)[o] == HoldingOf(base, t.tx.outputs[o.idx])
  {
    hide OutputRefs, HoldingOf;
    if n > 0 {
      HoldingsAre(base, t, n - 1, o);
    }
  }

  function HeldTx(base: Bytes -> Bytes, held: Live, t: BlockTx): Live {
    held + HoldingsTo(base, t, |t.tx.outputs|)
  }

  function HeldBlock(base: Bytes -> Bytes, held: Live, txs: Block): Live
    decreases |txs|
  {
    if txs == [] then held else HeldBlock(base, HeldTx(base, held, txs[0]), txs[1..])
  }

  /** All outputs with refs that the chain ever made. */
  function HeldAt(base: Bytes -> Bytes, chain: seq<Block>): Live {
    if chain == [] then map[] else HeldBlock(base, HeldAt(base, chain[..|chain| - 1]), chain[|chain| - 1])
  }

  /** Those that are unspent. */
  function LiveOf(u: UtxoMap, held: Live): Live {
    map o | o in u && o in held :: held[o]
  }

  function LiveAt(coin: Coin, base: Bytes -> Bytes, chain: seq<Block>): Live {
    LiveOf(UtxosAt(coin, chain), HeldAt(base, chain))
  }

  // ----- The tables agree with the live outputs -----

  /** A live output has its rows exactly if it carries refs, and they and its entry tell what it
      holds. */
  predicate RowsAgree(rows: Rows, held: Live, o: Outpoint, v: Bytes) {
    var ri, rb := Ri(Packed(o)), Rb(Packed(o));
    && |o.hash| == 32 && o.idx < Range(4) && |v| == ENTRY_LEN
    && (o in held <==> ri in rows)
    && (o in held ==>
          && rb in rows && rows[rb] == held[o].hashX && |held[o].hashX| == HASHX_LEN
          && FromLE(ValueBytes(v)) == held[o].value
          && rows[ri] != [] && GoodRefs(RefsIn(rows[ri])) && (set r | r in RefsIn(rows[ri])) == held[o].refs)
  }

  predicate Agree(u: UtxoMap, rows: Rows, held: Live) {
    && (forall o :: o in u ==> RowsAgree(rows, held, o, u[o]))
    && (forall o :: o in held ==> HeldRow(rows, o))
  }

  predicate HeldRow(rows: Rows, o: Outpoint) {
    |o.hash| == 32 && o.idx < Range(4) && Ri(Packed(o)) in rows
  }

  /** The hashXs that own base scripts. */
  ghost predicate GoodBase(base: Bytes -> Bytes) {
    forall s :: |base(s)| == HASHX_LEN
  }

  lemma PackedSame(o: Outpoint, p: Outpoint)
    requires |o.hash| == 32 == |p.hash| && o.idx < Range(4) && p.idx < Range(4)
    ensures Packed(o) == Packed(p) <==> o == p
  {
    hide LE, Range;
    if Packed(o) == Packed(p) {
      assert Packed(o)[..32] == o.hash && Packed(p)[..32] == p.hash;
      PackedDiffer(o.hash, o.idx, p.idx);
    }
  }

  /** The rows of an outpoint of another transaction are not written. */
  lemma RowsElsewhere(base: Bytes -> Bytes, rows: Rows, t: BlockTx, o: Outpoint)
    requires |t.hash| == 32 == |o.hash| && o.idx < Range(4) && |t.tx.outputs| <= Range(4) && o.hash != t.hash
    ensures SameAt(rows, RowsTx(base, rows, t), Packed(o))
  {
    hide Range, RowsTo;
    NotDeleted(t, o, |t.tx.outputs|);
    RefRows.RowsWritten(base, rows, t, |t.tx.outputs|, Ri(Packed(o)));
    RefRows.RowsWritten(base, rows, t, |t.tx.outputs|, Rb(Packed(o)));
  }

  predicate SameAt(rows: Rows, rows': Rows, k: Bytes) {
    && (Ri(k) in rows' <==> Ri(k) in rows) && (Ri(k) in rows ==> rows'[Ri(k)] == rows[Ri(k)])
    && (Rb(k) in rows' <==> Rb(k) in rows) && (Rb(k) in rows ==> rows'[Rb(k)] == rows[Rb(k)])
  }

  lemma NotDeleted(t: BlockTx, o: Outpoint, n: nat)
    requires |t.hash| == 32 == |o.hash| && o.idx < Range(4) && n <= |t.tx.outputs| <= Range(4) && o.hash != t.hash
    ensures Ri(Packed(o)) !in DeletedRowsTo(t, n) && Rb(Packed(o)) !in DeletedRowsTo(t, n)
  {
    hide PackedOutpoint, Range, KindTo, Spends, Scripts.OutputIndexable;
    forall i | 0 <= i < n
      ensures PackedOutpoint(t.hash, i) != Packed(o)
    {
      PackedSame(Outpoint(t.hash, i), o);
    }
  }

  /** An output without refs gets no row. */
  lemma {:induction false} NoRow(base: Bytes -> Bytes, rows: Rows, t: BlockTx, n: nat, i: nat)
    requires n <= |t.tx.outputs| <= Range(4) && i < |t.tx.outputs| && OutputRefs(t.tx.outputs[i].script) == []
    ensures Ri(PackedOutpoint(t.hash, i)) in RowsTo(base, rows, t, n) ==> Ri(PackedOutpoint(t.hash, i)) in rows
  {
    hide PackedOutpoint, RiValue, OutputRefs, OfKind, Spends, Range;
    if n > 0 {
      NoRow(base, rows, t, n - 1, i);
      PackedDiffer(t.hash, i, n - 1);
    }
  }

  lemma AgreeOld(base: Bytes -> Bytes, rows: Rows, held: Live, t: BlockTx, o: Outpoint, v: Bytes)
    requires RowsAgree(rows, held, o, v) && o.hash != t.hash && |t.hash| == 32 && |t.tx.outputs| <= Range(4)
    ensures RowsAgree(RowsTx(base, rows, t), HeldTx(base, held, t), o, v)
  {
    hide Range, RowsTx, GoodRefs, RefsIn, OutputRefs, PackedOutpoint, HoldingOf, ValueBytes, FromLE, HoldingsTo;
    RowsElsewhere(base, rows, t, o);
    HoldingsAre(base, t, |t.tx.outputs|, o);
  }

  lemma AgreeNew(coin: Coin, base: Bytes -> Bytes, rows: Rows, m: Minted, held: Live, t: BlockTx, num: nat, i: nat)
    requires ValidRefsTx(rows, m, t) && i < |t.tx.outputs| && num < Range(5) && GoodBase(base)
    requires 0 <= t.tx.outputs[i].value < Range(8)
    requires forall o :: o in held ==> HeldRow(rows, o)
    ensures RowsAgree(RowsTx(base, rows, t), HeldTx(base, held, t), Outpoint(t.hash, i), coin.Entry(t.tx.outputs[i], num))
  {
    hide Range, RowsTo, GoodRefs, RefsIn, OutputRefs, PackedOutpoint, ValueBytes, FromLE, Coin.Entry, RiValue, Singles, Normals,
      Spends, HoldingsTo;
    var out, o := t.tx.outputs[i], Outpoint(t.hash, i);
    HoldingsAre(base, t, |t.tx.outputs|, o);
    EntryParts(coin, out, num);
    if OutputRefs(out.script) == [] {
      NoRow(base, rows, t, |t.tx.outputs|, i);
      assert o !in held by {
        assert o in held ==> HeldRow(rows, o);
      }
    } else {
      OutputRows(base, rows, t, |t.tx.outputs|, i);
      RowRefs(out.script);
    }
  }

  /** The row of an output with refs tells exactly these. */
  lemma RowRefs(script: Bytes)
    requires OutputRefs(script) != []
    ensures RiValue(script) != [] && GoodRefs(RefsIn(RiValue(script)))
    ensures (set r | r in RefsIn(RiValue(script))) == set p | p in OutputRefs(script) :: p.ref
  {
    hide RefsIn, OutputRefs, RefsValue, GoodRefs;
    RiRowReads(script);
    var rs := OutputRefs(script);
    forall x
      ensures x in Scripts.AllRefs(rs) <==> exists p :: p in rs && p.ref == x
    {
      AllRefsAre(rs, x);
    }
    assert rs[0].ref in Dedup(Scripts.AllRefs(rs));
    NoRefs(RiValue(script));
  }

  lemma HeldRowsTx(base: Bytes -> Bytes, rows: Rows, m: Minted, held: Live, t: BlockTx, o: Outpoint)
    requires ValidRefsTx(rows, m, t) && MintRows(rows, m) && o in HeldTx(base, held, t)
    requires forall p :: p in held ==> HeldRow(rows, p)
    ensures HeldRow(RowsTx(base, rows, t), o)
  {
    hide Range, RowsTo, OutputRefs, PackedOutpoint, ValidRefsTx, MintRows, DeletedRows, RiValue, HoldingsTo;
    HoldingsAre(base, t, |t.tx.outputs|, o);
    if o in HoldingsTo(base, t, |t.tx.outputs|) {
      assert |t.hash| == 32 && |t.tx.outputs| <= Range(4) by {
        ValidSizes(rows, m, t);
      }
      OutputRows(base, rows, t, |t.tx.outputs|, o.idx);
    } else {
      assert HeldRow(rows, o);
      NewRows(rows, m, t, Ri(Packed(o)));
      RefRows.RowsWritten(base, rows, t, |t.tx.outputs|, Ri(Packed(o)));
    }
  }

  lemma ValidSizes(rows: Rows, m: Minted, t: BlockTx)
    requires ValidRefsTx(rows, m, t)
    ensures |t.hash| == 32 && |t.tx.outputs| <= Range(4)
  {
  }

  /** The agreement holds after every transaction. */
  lemma AgreeTx(coin: Coin, base: Bytes -> Bytes, u: UtxoMap, rows: Rows, m: Minted, held: Live, t: BlockTx, num: nat)
    requires Agree(u, rows, held) && ValidTx(u, t) && ValidRefsTx(rows, m, t) && MintRows(rows, m)
    requires num < Range(5) && GoodBase(base)
    ensures Agree(AdvanceTx(coin, u, t, num), RowsTx(base, rows, t), HeldTx(base, held, t))
  {
    hide Range, RowsTx, RowsAgree, HeldRow, HeldTx, Coin.Entry, SpendInputs, AddOutputs, ValidRefsTx, MintRows, GoodBase,
      InputsLive, Scripts.OutputIndexable;
    var s, after := SpendInputs(u, t.tx.inputs), AdvanceTx(coin, u, t, num);
    SpendOnlyRemoves(u, t.tx.inputs);
    AddedOutputs(coin, s, t, num, 0);
    assert Created(t, 0) == {};
    ValidSizes(rows, m, t);
    forall o | o in after
      ensures RowsAgree(RowsTx(base, rows, t), HeldTx(base, held, t), o, after[o])
    {
      if o in Created(t, |t.tx.outputs|) {
        AgreeNew(coin, base, rows, m, held, t, num, o.idx);
      } else {
        AgreeOld(base, rows, held, t, o, u[o]);
      }
    }
    forall o | o in HeldTx(base, held, t)
      ensures HeldRow(RowsTx(base, rows, t), o)
    {
      HeldRowsTx(base, rows, m, held, t, o);
    }
  }

  // ----- What the inputs debit -----

  predicate Carries(rows: Rows, k: Bytes) {
    Ri(k) in rows && rows[Ri(k)] != []
  }

  /** The debit of a spent outpoint with entry `v`, read from the tables; an outpoint without `rb`
      row would be debited to its own hashX. */
  function DebitOf(rows: Rows, k: Bytes, v: Bytes): Debit
    requires Carries(rows, k) && |v| == ENTRY_LEN
  {
    Debit(if Rb(k) in rows && rows[Rb(k)] != [] then rows[Rb(k)] else HashXOf(v), FromLE(ValueBytes(v)), rows[Ri(k)])
  }

  /** The debits of the inputs whose spent entries are `entries`. */
  function DebitsOf(rows: Rows, ins: seq<Transactions.TxInput>, entries: seq<Bytes>): seq<Debit> {
    if ins == [] then []
    else if ins[0].IsGeneration() then DebitsOf(rows, ins[1..], entries)
    else if entries == [] then []
    else
      var k := Packed(PrevOut(ins[0]));
      (if Carries(rows, k) && |entries[0]| == ENTRY_LEN then [DebitOf(rows, k, entries[0])] else [])
      + DebitsOf(rows, ins[1..], entries[1..])
  }

  /** The outpoints they are for. */
  function DebitedOuts(rows: Rows, ins: seq<Transactions.TxInput>): seq<Outpoint> {
    if ins == [] then []
    else if ins[0].IsGeneration() then DebitedOuts(rows, ins[1..])
    else (if Carries(rows, Packed(PrevOut(ins[0]))) then [PrevOut(ins[0])] else []) + DebitedOuts(rows, ins[1..])
  }

  /** A live outpoint is debited with what it holds, and one without refs is not debited. */
  lemma DebitIsHeld(u: UtxoMap, rows: Rows, held: Live, o: Outpoint)
    requires Agree(u, rows, held) && o in u
    ensures |u[o]| == ENTRY_LEN && (Carries(rows, Packed(o)) <==> o in LiveOf(u, held))
    ensures Carries(rows, Packed(o)) ==>
              var d := DebitOf(rows, Packed(o), u[o]);
              d.Held() == LiveOf(u, held)[o] && |d.hashX| == HASHX_LEN && GoodRefs(RefsIn(d.refsData))
  {
    hide Range, RefsIn, GoodRefs, ValueBytes, FromLE, PackedOutpoint, HeldRow;
    assert RowsAgree(rows, held, o, u[o]);
  }

  lemma AgreeLess(u: UtxoMap, rows: Rows, held: Live, o: Outpoint)
    requires Agree(u, rows, held)
    ensures Agree(u - {o}, rows, held)
    ensures LiveOf(u - {o}, held) == LiveOf(u, held) - {o}
  {
    hide RowsAgree, HeldRow;
  }

  lemma BoundedLess(live: Live, o: Outpoint)
    requires Bounded(live)
    ensures Bounded(live - {o})
  {
    hide Range;
    if o in live {
      forall hx, r
        ensures Total(live - {o}, hx, r) <= Total(live, hx, r)
      {
        TotalBelow(live, o, hx, r);
      }
    } else {
      assert live - {o} == live;
    }
  }

  lemma DebitFirst(live: Live, d: Debit, o: Outpoint, debits: seq<Debit>, spent: seq<Outpoint>)
    requires |debits| == |spent| && GoodDebits(live - {o}, debits, spent)
    requires o in live && live[o] == d.Held() && |d.hashX| == HASHX_LEN && GoodRefs(RefsIn(d.refsData))
    requires Bounded(live - {o})
    ensures GoodDebits(live, [d] + debits, [o] + spent)
    ensures Spent(live, [o] + spent) == Spent(live - {o}, spent)
  {
    hide RefsIn, GoodRefs, Bounded, Debit.Held;
    assert ([d] + debits)[1..] == debits && ([o] + spent)[1..] == spent;
  }

  /** What a transaction debits is what its spent outputs hold, and they leave the ledger. */
  lemma {:induction false} DebitsAreHeld(u: UtxoMap, rows: Rows, held: Live, ins: seq<Transactions.TxInput>)
    requires Agree(u, rows, held) && InputsLive(u, ins) && Bounded(LiveOf(u, held))
    ensures var debits, outs := DebitsOf(rows, ins, SpentEntries(u, ins)), DebitedOuts(rows, ins);
            && |debits| == |outs| && GoodDebits(LiveOf(u, held), debits, outs)
            && Spent(LiveOf(u, held), outs) == LiveOf(SpendInputs(u, ins), held)
    decreases |ins|
  {
    hide Agree, LiveOf, Bounded, Carries, DebitOf, Debit.Held, GoodRefs, RefsIn, Transactions.TxInput.IsGeneration;
    if ins != [] {
      if ins[0].IsGeneration() {
        DebitsAreHeld(u, rows, held, ins[1..]);
      } else {
        var o := PrevOut(ins[0]);
        DebitIsHeld(u, rows, held, o);
        AgreeLess(u, rows, held, o);
        BoundedLess(LiveOf(u, held), o);
        DebitsAreHeld(u - {o}, rows, held, ins[1..]);
        var entries := SpentEntries(u - {o}, ins[1..]);
        assert ([u[o]] + entries)[1..] == entries;
        if Carries(rows, Packed(o)) {
          DebitFirst(LiveOf(u, held), DebitOf(rows, Packed(o), u[o]), o, DebitsOf(rows, ins[1..], entries),
            DebitedOuts(rows, ins[1..]));
        } else {
          assert LiveOf(u, held) - {o} == LiveOf(u, held);
          assert [] + DebitsOf(rows, ins[1..], entries) == DebitsOf(rows, ins[1..], entries);
          assert [] + DebitedOuts(rows, ins[1..]) == DebitedOuts(rows, ins[1..]);
        }
      }
    }
  }

  /** A ref that some live output carries. */
  predicate Carried(live: Live, r: Bytes) {
    exists o :: o in live && r in live[o].refs
  }

  lemma CarriedBy(live: Live, o: Outpoint, r: Bytes)
    requires o in live && r in live[o].refs
    ensures Carried(live, r)
  {
  }

  lemma CarriedMore(live: Live, o: Outpoint, r: Bytes)
    ensures Carried(live - {o}, r) ==> Carried(live, r)
  {
    if p :| p in live - {o} && r in (live - {o})[p].refs {
      assert r in live[p].refs;
    }
  }

  lemma {:induction false} DebitedRefs(live: Live, debits: seq<Debit>, spent: seq<Outpoint>)
    requires |debits| == |spent| && GoodDebits(live, debits, spent)
    ensures forall i, r :: 0 <= i < |debits| && r in RefsIn(debits[i].refsData) ==> Carried(live, r)
    decreases |debits|
  {
    hide RefsIn, GoodRefs, Bounded, Carried;
    if debits != [] {
      var rest := live - {spent[0]};
      DebitedRefs(rest, debits[1..], spent[1..]);
      forall i, r | 0 <= i < |debits| && r in RefsIn(debits[i].refsData)
        ensures Carried(live, r)
      {
        if i == 0 {
          CarriedBy(live, spent[0], r);
        } else {
          assert debits[i] == debits[1..][i - 1];
          var j := i - 1;
          assert r in RefsIn(debits[1..][j].refsData);
          CarriedMore(live, spent[0], r);
        }
      }
    }
  }

  // ----- What the outputs credit -----

  /** The credits of the first `n` outputs, each for the outpoint it makes. */
  predicate CreditsTo(base: Bytes -> Bytes, t: BlockTx, n: nat, credits: seq<Credit>, made: seq<Outpoint>)
    requires n <= |t.tx.outputs|
  {
    if n == 0 then credits == [] && made == []
    else if OutputRefs(t.tx.outputs[n - 1].script) == [] then CreditsTo(base, t, n - 1, credits, made)
    else
      && credits != [] && made != [] && made[|made| - 1] == Outpoint(t.hash, n - 1)
      && credits[|credits| - 1].Held() == HoldingOf(base, t.tx.outputs[n - 1])
      && GoodRefs(credits[|credits| - 1].refs)
      && CreditsTo(base, t, n - 1, credits[..|credits| - 1], made[..|made| - 1])
  }

  lemma {:induction false} CreditedSnoc(live: Live, credits: seq<Credit>, made: seq<Outpoint>)
    requires |credits| == |made| && made != []
    ensures var c, m, n := credits[..|made| - 1], made[..|made| - 1], |made| - 1;
            && Credited(live, credits, made) == Credited(live, c, m)[made[n] := credits[n].Held()]
            && (GoodCredits(live, credits, made) <==>
                  && GoodCredits(live, c, m) && made[n] !in Credited(live, c, m) && |credits[n].hashX| == HASHX_LEN
                  && GoodRefs(credits[n].refs) && Bounded(Credited(live, credits, made)))
    decreases |made|
  {
    hide GoodRefs, Bounded, Credit.Held;
    var c, m, n := credits[..|made| - 1], made[..|made| - 1], |made| - 1;
    if n == 0 {
      assert credits[1..] == [] && made[1..] == [] && c == [] && m == [];
    } else {
      var next := live[made[0] := credits[0].Held()];
      assert credits[1..][..n - 1] == c[1..] && made[1..][..n - 1] == m[1..];
      CreditedSnoc(next, credits[1..], made[1..]);
    }
  }

  /** What a transaction credits is what its outputs hold, and they enter the ledger. */
  lemma {:induction false} CreditsAreHeld(
      base: Bytes -> Bytes, live: Live, t: BlockTx, n: nat, credits: seq<Credit>, made: seq<Outpoint>)
    requires n <= |t.tx.outputs| && CreditsTo(base, t, n, credits, made) && GoodBase(base)
    requires forall i :: Outpoint(t.hash, i) !in live
    requires Bounded(live + HoldingsTo(base, t, n))
    ensures |credits| == |made| && GoodCredits(live, credits, made)
    ensures Credited(live, credits, made) == live + HoldingsTo(base, t, n)
  {
    hide GoodRefs, Bounded, Credit.Held, HoldingOf, OutputRefs, GoodBase, GoodCredits, Credited, HoldingsTo;
    HoldingsStep(base, t, n, live);
    if n == 0 {
      NothingCredited(live);
    } else {
      var after := live + HoldingsTo(base, t, n);
      if OutputRefs(t.tx.outputs[n - 1].script) == [] {
        CreditsAreHeld(base, live, t, n - 1, credits, made);
      } else {
        var o, k := Outpoint(t.hash, n - 1), |credits| - 1;
        BoundedLess(after, o);
        CreditsAreHeld(base, live, t, n - 1, credits[..k], made[..|made| - 1]);
        CreditHashX(base, t, n, credits[k]);
        CreditedSnoc(live, credits, made);
      }
    }
  }

  lemma HoldingsStep(base: Bytes -> Bytes, t: BlockTx, n: nat, live: Live)
    requires n <= |t.tx.outputs| && forall i :: Outpoint(t.hash, i) !in live
    ensures n == 0 ==> live + HoldingsTo(base, t, n) == live
    ensures n > 0 && OutputRefs(t.tx.outputs[n - 1].script) == [] ==> HoldingsTo(base, t, n) == HoldingsTo(base, t, n - 1)
    ensures n > 0 && OutputRefs(t.tx.outputs[n - 1].script) != [] ==>
              var o, before := Outpoint(t.hash, n - 1), live + HoldingsTo(base, t, n - 1);
              && o !in before && live + HoldingsTo(base, t, n) == before[o := HoldingOf(base, t.tx.outputs[n - 1])]
              && (live + HoldingsTo(base, t, n)) - {o} == before
  {
    hide OutputRefs, HoldingOf;
    if n > 0 {
      HoldingsAre(base, t, n - 1, Outpoint(t.hash, n - 1));
    }
  }

  lemma NothingCredited(live: Live)
    ensures GoodCredits(live, [], []) && Credited(live, [], []) == live
  {
  }

  lemma CreditHashX(base: Bytes -> Bytes, t: BlockTx, n: nat, c: Credit)
    requires 0 < n <= |t.tx.outputs| && c.Held() == HoldingOf(base, t.tx.outputs[n - 1]) && GoodBase(base)
    ensures |c.hashX| == HASHX_LEN
  {
    hide OutputRefs;
    assert c.Held().hashX == base(t.tx.outputs[n - 1].script);
  }

  /** A transaction moves the live outputs as it moves the UTXO set. */
  lemma LiveTx(coin: Coin, base: Bytes -> Bytes, u: UtxoMap, held: Live, t: BlockTx, num: nat)
    requires forall o :: o in u ==> o.hash != t.hash
    requires forall i :: 0 <= i < |t.tx.outputs| ==> Outpoint(t.hash, i) !in held
    ensures LiveOf(SpendInputs(u, t.tx.inputs), held) + HoldingsTo(base, t, |t.tx.outputs|)
            == LiveOf(AdvanceTx(coin, u, t, num), HeldTx(base, held, t))
    ensures forall i :: Outpoint(t.hash, i) !in LiveOf(SpendInputs(u, t.tx.inputs), held)
  {
    hide SpendInputs, AddOutputs, Coin.Entry, HoldingOf, Scripts.PushedRefs, Scripts.OutputIndexable, HoldingsTo;
    var s, made := SpendInputs(u, t.tx.inputs), HoldingsTo(base, t, |t.tx.outputs|);
    var before, after := LiveOf(s, held) + made, LiveOf(AdvanceTx(coin, u, t, num), HeldTx(base, held, t));
    SpendOnlyRemoves(u, t.tx.inputs);
    AddedOutputs(coin, s, t, num, 0);
    assert Created(t, 0) == {};
    forall o
      ensures o in before <==> o in after
      ensures o in before ==> before[o] == after[o]
    {
      HoldingsAre(base, t, |t.tx.outputs|, o);
    }
  }

  lemma NewOutputs(rows: Rows, m: Minted, held: Live, t: BlockTx)
    requires ValidRefsTx(rows, m, t) && forall o :: o in held ==> HeldRow(rows, o)
    ensures forall i :: 0 <= i < |t.tx.outputs| ==> Outpoint(t.hash, i) !in held
  {
    hide PackedOutpoint, Range, Singles, Normals, Spends;
    forall i | 0 <= i < |t.tx.outputs|
      ensures Outpoint(t.hash, i) !in held
    {
      assert Outpoint(t.hash, i) in held ==> HeldRow(rows, Outpoint(t.hash, i));
    }
  }

  // ----- The money supply -----

  function EntryValue(v: Bytes): nat {
    if |v| == ENTRY_LEN then FromLE(ValueBytes(v)) else 0
  }

  /** The value of all unspent outputs. */
  ghost function Supply(u: UtxoMap): nat
    decreases |u|
  {
    if u == map[] then 0
    else
      var o :| o in u;
      Supply(u - {o}) + EntryValue(u[o])
  }

  /** Money fits eight bytes before and after every transaction. */
  ghost predicate SupplyOk(coin: Coin, u: UtxoMap, txs: Block, num: nat)
    decreases |txs|
  {
    Supply(u) < Range(8) && (txs == [] || SupplyOk(coin, AdvanceTx(coin, u, txs[0], num), txs[1..], num + 1))
  }

  lemma {:induction false} TotalOfSupply(u: UtxoMap, rows: Rows, held: Live, hashX: Bytes, ref: Bytes)
    requires Agree(u, rows, held)
    ensures Total(LiveOf(u, held), hashX, ref) <= Supply(u)
    decreases |u|
  {
    hide LiveOf, Agree, EntryValue, Holding.Amount;
    if u == map[] {
      assert LiveOf(u, held) == map[] by {
        NoneLive(held);
      }
    } else {
      var o :| o in u && Supply(u) == Supply(u - {o}) + EntryValue(u[o]);
      AgreeLess(u, rows, held, o);
      TotalOfSupply(u - {o}, rows, held, hashX, ref);
      AmountOfEntry(u, rows, held, o, hashX, ref);
      LiveStep(LiveOf(u, held), o, hashX, ref, EntryValue(u[o]));
    }
  }

  lemma LiveStep(live: Live, o: Outpoint, hashX: Bytes, ref: Bytes, value: nat)
    requires o in live ==> live[o].Amount(hashX, ref) <= value
    ensures Total(live, hashX, ref) <= Total(live - {o}, hashX, ref) + value
  {
    hide Holding.Amount;
    if o in live {
      TotalWithout(live, o, hashX, ref);
    } else {
      assert live - {o} == live;
    }
  }

  lemma NoneLive(held: Live)
    ensures LiveOf(map[], held) == map[]
  {
  }

  lemma AmountOfEntry(u: UtxoMap, rows: Rows, held: Live, o: Outpoint, hashX: Bytes, ref: Bytes)
    requires Agree(u, rows, held) && o in u
    ensures o in LiveOf(u, held) ==> LiveOf(u, held)[o].Amount(hashX, ref) <= EntryValue(u[o])
  {
    hide Range, RefsIn, GoodRefs, ValueBytes, FromLE, PackedOutpoint, HeldRow;
    assert RowsAgree(rows, held, o, u[o]);
  }

  lemma SupplyBounds(u: UtxoMap, rows: Rows, held: Live)
    requires Agree(u, rows, held) && Supply(u) < Range(8)
    ensures Bounded(LiveOf(u, held))
  {
    hide Agree, LiveOf, Range;
    forall hx, r
      ensures Total(LiveOf(u, held), hx, r) <= Supply(u)
    {
      TotalOfSupply(u, rows, held, hx, r);
    }
  }

  // ----- One transaction -----

  /** What a transaction debits and credits, read from the tables as they are before it, takes the
      live outputs before it to those after it, and no amount leaves eight bytes. */
  lemma TxMoves(
      coin: Coin, base: Bytes -> Bytes, u: UtxoMap, rows: Rows, m: Minted, held: Live, t: BlockTx, num: nat,
      credits: seq<Credit>, made: seq<Outpoint>)
    requires Agree(u, rows, held) && ValidTx(u, t) && ValidRefsTx(rows, m, t) && MintRows(rows, m)
    requires num < Range(5) && GoodBase(base)
    requires Supply(u) < Range(8) && Supply(AdvanceTx(coin, u, t, num)) < Range(8)
    requires CreditsTo(base, t, |t.tx.outputs|, credits, made)
    ensures InputsLive(u, t.tx.inputs)
    ensures var live, live' := LiveOf(u, held), LiveOf(AdvanceTx(coin, u, t, num), HeldTx(base, held, t));
            var debits, spent := DebitsOf(rows, t.tx.inputs, SpentEntries(u, t.tx.inputs)), DebitedOuts(rows, t.tx.inputs);
            && |debits| == |spent| && |credits| == |made|
            && GoodDebits(live, debits, spent) && GoodCredits(Spent(live, spent), credits, made)
            && Credited(Spent(live, spent), credits, made) == live'
            && (forall i, r :: 0 <= i < |debits| && r in RefsIn(debits[i].refsData) ==> Carried(live, r))
  {
    hide Range, Agree, ValidRefsTx, MintRows, GoodBase, AdvanceTx, SpendInputs, InputsLive, SpentEntries, DebitsOf, DebitedOuts,
      GoodDebits, GoodCredits, Spent, Credited, Bounded, CreditsTo, LiveOf, HeldTx, HoldingsTo, RefsIn, Carried, Supply;
    var u', held', rows' := AdvanceTx(coin, u, t, num), HeldTx(base, held, t), RowsTx(base, rows, t);
    AgreeTx(coin, base, u, rows, m, held, t, num);
    SupplyBounds(u, rows, held);
    SupplyBounds(u', rows', held');
    DebitsAreHeld(u, rows, held, t.tx.inputs);
    AgreeParts(u, rows, held);
    NewOutputs(rows, m, held, t);
    LiveTx(coin, base, u, held, t, num);
    CreditsAreHeld(base, LiveOf(SpendInputs(u, t.tx.inputs), held), t, |t.tx.outputs|, credits, made);
    DebitedRefs(LiveOf(u, held), DebitsOf(rows, t.tx.inputs, SpentEntries(u, t.tx.inputs)), DebitedOuts(rows, t.tx.inputs));
  }

  lemma AgreeParts(u: UtxoMap, rows: Rows, held: Live)
    requires Agree(u, rows, held)
    ensures forall o :: o in held ==> HeldRow(rows, o)
  {
  }

  lemma {:induction false} CarriedAfter(
      live: Live, spent: seq<Outpoint>, credits: seq<Credit>, made: seq<Outpoint>, r: Bytes)
    requires |credits| == |made|
    requires Carried(Credited(Spent(live, spent), credits, made), r)
    ensures Carried(live, r) || exists i :: 0 <= i < |credits| && r in credits[i].refs
    decreases |spent| + |made|
  {
    hide Carried, Credit.Held;
    if spent != [] {
      CarriedAfter(live - {spent[0]}, spent[1..], credits, made, r);
      CarriedMore(live, spent[0], r);
    } else if made != [] {
      var next := live[made[0] := credits[0].Held()];
      assert Spent(live, []) == live && Spent(next, []) == next;
      CarriedAfter(next, [], credits[1..], made[1..], r);
      if Carried(next, r) {
        CarriedOrNew(live, made[0], credits[0], r);
      } else {
        var i :| 0 <= i < |credits[1..]| && r in credits[1..][i].refs;
        assert r in credits[i + 1].refs;
      }
    }
  }

  lemma CarriedOrNew(live: Live, o: Outpoint, c: Credit, r: Bytes)
    requires Carried(live[o := c.Held()], r)
    ensures Carried(live, r) || r in c.refs
  {
    var p :| p in live[o := c.Held()] && r in live[o := c.Held()][p].refs;
    if p != o {
      assert r in live[p].refs;
    }
  }

  // ----- Whole blocks -----

  lemma {:induction false} AgreeBlock(coin: Coin, base: Bytes -> Bytes, u: UtxoMap, rows: Rows, m: Minted, held: Live, txs: Block, num: nat)
    requires Agree(u, rows, held) && ValidTxs(coin, u, txs, num) && ValidRefs(base, rows, m, txs) && MintRows(rows, m)
    requires num + |txs| <= Range(5) && GoodBase(base)
    ensures Agree(AdvanceTxs(coin, u, txs, num), RowsBlock(base, rows, txs), HeldBlock(base, held, txs))
    decreases |txs|
  {
    hide Range, Agree, ValidTx, ValidRefsTx, MintRows, GoodBase, AdvanceTx, RowsTx, HeldTx, Minted.With;
    if txs != [] {
      AgreeTx(coin, base, u, rows, m, held, txs[0], num);
      MintRowsTx(base, rows, m, txs[0]);
      AgreeBlock(coin, base, AdvanceTx(coin, u, txs[0], num), RowsTx(base, rows, txs[0]), m.With(txs[0]),
        HeldTx(base, held, txs[0]), txs[1..], num + 1);
    }
  }

  /** The tables and the live outputs agree after every block of the chain. */
  lemma {:induction false} AgreeChain(coin: Coin, base: Bytes -> Bytes, chain: seq<Block>)
    requires ValidChain(coin, chain) && ValidRefsChain(base, chain) && GoodBase(base)
    ensures Agree(UtxosAt(coin, chain), RowsAt(base, chain), HeldAt(base, chain))
    decreases |chain|
  {
    hide Range, Agree, ValidTxs, ValidRefs, MintRows, GoodBase, AdvanceTxs, RowsBlock, HeldBlock, MintedAt, Hashes;
    if chain == [] {
      AgreeNone();
    } else {
      var before := chain[..|chain| - 1];
      AgreeChain(coin, base, before);
      MintRowsChain(base, before);
      AgreeBlock(coin, base, UtxosAt(coin, before), RowsAt(base, before), MintedAt(before), HeldAt(base, before),
        chain[|chain| - 1], |Txids(before)|);
    }
  }

  lemma AgreeNone()
    ensures Agree(map[], map[], map[])
  {
  }

  // ----- The ledger in the database -----

  /** The balances stored are the sums over the live outputs, and every ref these carry is known. */
  ghost predicate Booked(db: Table, live: Live) {
    && (forall hx, r :: |hx| == HASHX_LEN && |r| == REF_LEN ==> Stored(db, BalanceKey(hx, r)) == Total(live, hx, r))
    && (forall r {:trigger Carried(live, r)} :: Carried(live, r) ==> TokenKey(r) in db)
  }

  /** A balance row and its holder row hold the sum in eight bytes if it is positive, and there is
      neither row otherwise. */
  lemma BookedRows(cbor: Cbor, db: Table, live: Live, hashX: Bytes, ref: Bytes)
    requires Sound(cbor, db) && Booked(db, live) && |hashX| == HASHX_LEN && |ref| == REF_LEN
    ensures var n := Total(live, hashX, ref);
            && Get(db, BalanceKey(hashX, ref)) == (if n > 0 then Some(LE(n, 8)) else None)
            && Get(db, HolderKey(ref, hashX)) == (if n > 0 then Some(LE(n, 8)) else None)
  {
    hide Cbor.Derived, LE, FromLE, BalanceKey, HolderKey, Mirror, IsBalanceKey, Carried, TokenKey;
    BalanceKeyFacts(hashX, ref);
    var k := BalanceKey(hashX, ref);
    assert Get(db, Mirror(k)) == Get(db, k) && Stored(db, k) == Total(live, hashX, ref);
    if k in db {
      assert IsAmount(db[k]);
      LeOfFromLe(db[k]);
    }
  }

  lemma BookedSame(db: Table, mark: Table, live: Live)
    requires SameTracked(db, mark) && Booked(mark, live)
    ensures Booked(db, live)
  {
    hide BalanceKey, Stored, TokenKey, Carried, Tracked;
    BalancesBack(db, mark);
    forall r | Carried(live, r)
      ensures TokenKey(r) in db
    {
      TokenKeyFacts(r);
      assert Get(db, TokenKey(r)) == Get(mark, TokenKey(r));
    }
  }
}
