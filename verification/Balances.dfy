/** Glyph balances: the keys of the balance rows (GB) and of their mirror by holder (GR), and
    the sums they stand for (electrumx/server/glyph_index.py). */
module Balances {
  import opened ByteStrings
  import opened UndoCodec
  import opened Overlay
  import opened Discovery
  import Utxos

  const BALANCE: Bytes := [71, 66]   // GB
  const HOLDER: Bytes := [71, 82]    // GR
  const BALANCE_KEY_LEN := 49

  function BalanceKey(hashX: Bytes, ref: Bytes): Bytes {
    BALANCE + hashX + ref
  }

  function HolderKey(ref: Bytes, hashX: Bytes): Bytes {
    HOLDER + ref + hashX
  }

  predicate IsBalanceKey(k: Bytes) {
    |k| == BALANCE_KEY_LEN && k[..2] == BALANCE
  }

  /** The holder row of a balance row. */
  function Mirror(k: Bytes): Bytes
    requires IsBalanceKey(k)
  {
    HolderKey(k[2 + HASHX_LEN..], k[2..2 + HASHX_LEN])
  }

  lemma BalanceKeyFacts(hashX: Bytes, ref: Bytes)
    requires |hashX| == HASHX_LEN && |ref| == REF_LEN
    ensures IsBalanceKey(BalanceKey(hashX, ref)) && Mirror(BalanceKey(hashX, ref)) == HolderKey(ref, hashX)
  {
    var k := BalanceKey(hashX, ref);
    assert k[..2] == BALANCE && k[2..13] == hashX && k[13..] == ref;
  }

  lemma BalanceKeysDiffer(hashX: Bytes, ref: Bytes, hashX': Bytes, ref': Bytes)
    requires |hashX| == HASHX_LEN == |hashX'|
    ensures BalanceKey(hashX, ref) == BalanceKey(hashX', ref') <==> hashX == hashX' && ref == ref'
  {
    var k, k' := BalanceKey(hashX, ref), BalanceKey(hashX', ref');
    assert k[2..13] == hashX && k[13..] == ref;
    assert k'[2..13] == hashX' && k'[13..] == ref';
  }

  lemma KeyOfBalance(k: Bytes)
    requires IsBalanceKey(k)
    ensures |k| == BALANCE_KEY_LEN && k == BalanceKey(k[2..13], k[13..]) && Kind(k) == 66 && Tracked(k)
    ensures Kind(Mirror(k)) == 82 && Tracked(Mirror(k)) && |Mirror(k)| == BALANCE_KEY_LEN
  {
    assert k[..2][0] == k[0] && k[..2][1] == k[1];
    KindTracked(k);
    KindTracked(Mirror(k));
  }

  lemma MirrorsDiffer(a: Bytes, b: Bytes)
    requires IsBalanceKey(a) && IsBalanceKey(b)
    ensures Mirror(a) == Mirror(b) <==> a == b
  {
    var m, n := Mirror(a), Mirror(b);
    assert m[2..38] == a[13..] && m[38..] == a[2..13];
    assert n[2..38] == b[13..] && n[38..] == b[2..13];
    assert a == a[..2] + a[2..13] + a[13..];
    assert b == b[..2] + b[2..13] + b[13..];
  }

  // ----- The rows -----

  /** Every holder row mirrors its balance row. */
  ghost predicate Mirrored(db: Table) {
    forall k :: IsBalanceKey(k) ==> Get(db, Mirror(k)) == Get(db, k)
  }

  /** A row holds a positive amount in eight bytes. */
  predicate IsAmount(v: Bytes) {
    |v| == 8 && FromLE(v) > 0
  }

  ghost predicate Positive(db: Table) {
    forall k :: IsBalanceKey(k) && k in db ==> IsAmount(db[k])
  }

  /** What the rows keep at all times. */
  ghost predicate Sound(cbor: Cbor, db: Table) {
    cbor.Derived(db) && Mirrored(db) && Positive(db)
  }

  /** Balance rows are recorded together with their mirrors. */
  ghost predicate Paired(undo: Undo) {
    forall h: nat, k {:trigger At(undo, h, k)} :: IsBalanceKey(k) ==> (At(undo, h, k) <==> At(undo, h, Mirror(k)))
  }

  lemma PairedAbove(undo: Undo, j: int, k: Bytes)
    requires Paired(undo) && IsBalanceKey(k)
    ensures RecordedAbove(undo, j, k) <==> RecordedAbove(undo, j, Mirror(k))
  {
    hide HasKey;
    if RecordedAbove(undo, j, k) {
      var h :| h in undo && h > j && HasKey(undo[h], k);
      assert At(undo, h, k);
    }
    if RecordedAbove(undo, j, Mirror(k)) {
      var h :| h in undo && h > j && HasKey(undo[h], Mirror(k));
      assert At(undo, h, Mirror(k)) && (At(undo, h, k) <==> At(undo, h, Mirror(k)));
    }
  }

  lemma MirroredBetween(db: Table, db': Table, undo: Undo, j: int, hi: int, t: Table)
    requires Between(db, db', undo, j, hi, t) && Paired(undo)
    requires Mirrored(db) && Mirrored(db') && Positive(db) && Positive(db')
    ensures Mirrored(t) && Positive(t)
  {
    hide IsBalanceKey, Mirror, Tracked, RecordedAbove, IsAmount, Paired;
    forall k | IsBalanceKey(k)
      ensures Get(t, Mirror(k)) == Get(t, k) && (k in t ==> IsAmount(t[k]))
    {
      KeyOfBalance(k);
      PairedAbove(undo, j, k);
      assert Get(db, Mirror(k)) == Get(db, k) && Get(db', Mirror(k)) == Get(db', k);
      assert Get(t, k) == Get(db, k) || Get(t, k) == Get(db', k);
      assert k in db ==> IsAmount(db[k]);
      assert k in db' ==> IsAmount(db'[k]);
    }
  }

  lemma SoundSame(cbor: Cbor, a: Table, b: Table)
    requires SameTracked(a, b) && Sound(cbor, a)
    ensures Sound(cbor, b)
  {
    hide IsBalanceKey, Mirror, Tracked, IsAmount, Cbor.Derived;
    DerivedSame(cbor, a, b);
    forall k | IsBalanceKey(k)
      ensures Get(b, Mirror(k)) == Get(b, k) && (k in b ==> IsAmount(b[k]))
    {
      KeyOfBalance(k);
      assert Get(a, Mirror(k)) == Get(a, k);
      assert Get(a, k) == Get(b, k);
      assert k in a ==> IsAmount(a[k]);
    }
  }

  /** All the states that unwinding reaches are sound, those inside a window too. */
  ghost predicate SoundBelow(cbor: Cbor, db: Table, height: int, floor: int) {
    forall b :: -1 <= b <= height && floor - 1 <= b ==> Sound(cbor, Unwind(db, height, b))
  }

  lemma SoundAfterFlush(cbor: Cbor, db: Table, db': Table, undo: Undo, lo: int, hi: int, floor: int, floor': int)
    requires SoundBelow(cbor, db, lo, floor) && floor <= floor' && -1 <= lo <= hi && Height(hi)
    requires FlushedOnto(db, db', undo, lo, hi, floor') && Together(undo) && Paired(undo)
    requires Sound(cbor, db) && Sound(cbor, db')
    ensures SoundBelow(cbor, db', hi, floor')
  {
    hide FlushedOnto, Unwind, SameTracked, SameUndoRows, Cbor.Derived, Together, Paired, Between, Mirrored, Positive;
    forall b | -1 <= b <= hi && floor' - 1 <= b
      ensures Sound(cbor, Unwind(db', hi, b))
    {
      if b >= lo {
        BetweenTop(db, db', undo, lo, hi, floor');
        UnwindBetween(db, db', undo, lo, b, hi, hi, floor', db');
        DerivedBetween(cbor, db, db', undo, lo, b, hi, floor', Unwind(db', hi, b));
        MirroredBetween(db, db', undo, b, hi, Unwind(db', hi, b));
      } else {
        UnwindWindow(db, db', undo, lo, hi, floor');
        UnwindSplit(db', hi, lo, b);
        UnwindSame(Unwind(db', hi, lo), db, lo, b, floor');
        SameTrackedSym(Unwind(Unwind(db', hi, lo), lo, b), Unwind(db, lo, b));
        assert Sound(cbor, Unwind(db, lo, b));
        SoundSame(cbor, Unwind(db, lo, b), Unwind(db', hi, b));
      }
    }
  }

  lemma SoundAfterBackup(cbor: Cbor, db: Table, height: nat, floor: int)
    requires SoundBelow(cbor, db, height, floor)
    ensures SoundBelow(cbor, BackedUp(db, height), height - 1, floor)
  {
    hide BackedUp, Sound;
    var after, top := BackedUp(db, height), height - 1;
    forall b | -1 <= b <= top && floor - 1 <= b
      ensures Sound(cbor, Unwind(after, top, b))
    {
      assert Unwind(db, height, b) == Unwind(after, top, b);
    }
  }

  // ----- Amounts over cache, pending deletes and database -----

  function Stored(db: Table, k: Bytes): nat {
    if k in db && |db[k]| == 8 then FromLE(db[k]) else 0
  }

  /** The balance as an update sees it. */
  function View(cache: map<Bytes, nat>, deletes: set<Bytes>, db: Table, k: Bytes): nat {
    if k in cache then cache[k] else if k in deletes then 0 else Stored(db, k)
  }

  // ----- Live outputs -----

  /** A live output that carries refs: its base hashX, value and refs. */
  datatype Holding = Holding(hashX: Bytes, value: nat, refs: set<Bytes>) {
    function Amount(hashX: Bytes, ref: Bytes): nat {
      if this.hashX == hashX && ref in refs then value else 0
    }
  }

  type Live = map<Utxos.Outpoint, Holding>

  /** The sum of the values of the live outputs of `hashX` carrying `ref`. */
  ghost function Total(live: Live, hashX: Bytes, ref: Bytes): nat
    decreases |live|
  {
    if live == map[] then 0
    else
      var o :| o in live;
      Total(live - {o}, hashX, ref) + live[o].Amount(hashX, ref)
  }

  /** The order in which the outputs are summed does not matter. */
  lemma {:induction false} TotalWithout(live: Live, o: Utxos.Outpoint, hashX: Bytes, ref: Bytes)
    requires o in live
    ensures Total(live, hashX, ref) == Total(live - {o}, hashX, ref) + live[o].Amount(hashX, ref)
    decreases |live|
  {
    hide Holding.Amount;
    var p :| p in live && Total(live, hashX, ref) == Total(live - {p}, hashX, ref) + live[p].Amount(hashX, ref);
    if p != o {
      TotalWithout(live - {p}, o, hashX, ref);
      TotalWithout(live - {o}, p, hashX, ref);
      assert live - {p} - {o} == live - {o} - {p};
    }
  }

  lemma TotalWith(live: Live, o: Utxos.Outpoint, h: Holding, hashX: Bytes, ref: Bytes)
    requires o !in live
    ensures Total(live[o := h], hashX, ref) == Total(live, hashX, ref) + h.Amount(hashX, ref)
  {
    TotalWithout(live[o := h], o, hashX, ref);
    assert live[o := h] - {o} == live;
  }

  lemma TotalBelow(live: Live, o: Utxos.Outpoint, hashX: Bytes, ref: Bytes)
    requires o in live
    ensures live[o].Amount(hashX, ref) <= Total(live, hashX, ref)
    ensures Total(live - {o}, hashX, ref) <= Total(live, hashX, ref)
  {
    TotalWithout(live, o, hashX, ref);
  }
}
