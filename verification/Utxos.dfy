/** The UTXO set as one map from outpoints to entries, and what blocks do to it.

    This is the abstract side of electrumx/server/block_processor.py: `AdvanceTxs` and
    `BackupTxs` say what the two loops of the source do to the map, `UndoOf` what undo
    information the first leaves for the second.  The main result is that backing up undoes
    advancing and uses up the undo information exactly. */
module Utxos {
  import opened ByteStrings
  import Transactions
  import Scripts

  const ENTRY_LEN := 56   // hashX (11), code script hash (32), tx number (5), value (8)

  datatype Outpoint = Outpoint(hash: Bytes, idx: nat)

  type UtxoMap = map<Outpoint, Bytes>

  /** A transaction of a block with its txid. */
  datatype BlockTx = BlockTx(tx: Transactions.Tx, hash: Bytes)

  /** The hash function by which the coin derives hashXs from scripts. */
  datatype Coin = Coin(sha256: Bytes -> Digest) {
    function HashX(script: Bytes): (h: Bytes)
      ensures |h| == HASHX_LEN
    {
      sha256(script)[..HASHX_LEN]
    }

    function CodeScriptHash(script: Bytes): (h: Bytes)
      ensures |h| == 32
    {
      match Scripts.FirstSeparator(script, 0)
      case Ok(Some(k)) => if k <= |script| then sha256(script[k..]) else sha256(script)
      case _ => sha256(script)
    }

    /** The hashX an indexable output is filed under: refs are zeroed first. */
    function OutputHashX(script: Bytes): (h: Bytes)
      ensures |h| == HASHX_LEN
    {
      HashX(if Scripts.HasCheckSig(script, 0) then Scripts.Zeroed(script, 0) else script)
    }

    function Entry(out: Transactions.TxOutput, num: nat): (v: Bytes)
      ensures |v| == ENTRY_LEN
    {
      OutputHashX(out.script) + CodeScriptHash(out.script)
      + LE(num, 8)[..5] + LE(if out.value >= 0 then out.value else 0, 8)
    }
  }

  // ----- The parts of an entry -----

  function HashXOf(v: Bytes): Bytes {
    if HASHX_LEN <= |v| then v[..HASHX_LEN] else v
  }

  function NumBytes(v: Bytes): Bytes
    requires |v| == ENTRY_LEN
  {
    v[43..48]
  }

  function NumOf(v: Bytes): nat
    requires |v| == ENTRY_LEN
  {
    FromLE(NumBytes(v))
  }

  function ValueBytes(v: Bytes): Bytes
    requires |v| == ENTRY_LEN
  {
    v[48..]
  }

  lemma EntryParts(coin: Coin, out: Transactions.TxOutput, num: nat)
    requires num < Range(5)
    ensures var v := coin.Entry(out, num);
            HashXOf(v) == coin.OutputHashX(out.script) && NumOf(v) == num
    ensures 0 <= out.value < Range(8) ==> FromLE(ValueBytes(coin.Entry(out, num))) == out.value
  {
    var h, c := coin.OutputHashX(out.script), coin.CodeScriptHash(out.script);
    var n, w := LE(num, 8)[..5], LE(if out.value >= 0 then out.value else 0, 8);
    var v := coin.Entry(out, num);
    assert v == h + c + n + w;
    assert NumBytes(v) == n && ValueBytes(v) == w;
    LeTake(num, 5, 8);
    FromLeOfLe(num, 5);
    if 0 <= out.value < Range(8) {
      FromLeOfLe(out.value, 8);
    }
  }

  // ----- Advancing -----

  function PrevOut(i: Transactions.TxInput): Outpoint {
    Outpoint(i.prevHash, i.prevIdx)
  }

  /** Every spent output is there to be spent, and is spent once. */
  predicate InputsLive(u: UtxoMap, ins: seq<Transactions.TxInput>) {
    ins == [] ||
    if ins[0].IsGeneration() then InputsLive(u, ins[1..])
    else PrevOut(ins[0]) in u && InputsLive(u - {PrevOut(ins[0])}, ins[1..])
  }

  function SpendInputs(u: UtxoMap, ins: seq<Transactions.TxInput>): UtxoMap {
    if ins == [] then u
    else if ins[0].IsGeneration() then SpendInputs(u, ins[1..])
    else SpendInputs(u - {PrevOut(ins[0])}, ins[1..])
  }

  /** The entries spent, in input order. */
  function SpentEntries(u: UtxoMap, ins: seq<Transactions.TxInput>): seq<Bytes>
    requires InputsLive(u, ins)
  {
    if ins == [] then []
    else if ins[0].IsGeneration() then SpentEntries(u, ins[1..])
    else [u[PrevOut(ins[0])]] + SpentEntries(u - {PrevOut(ins[0])}, ins[1..])
  }

  /** Adds the indexable outputs from position `i` on. */
  function AddOutputs(coin: Coin, u: UtxoMap, t: BlockTx, num: nat, i: nat): UtxoMap
    requires i <= |t.tx.outputs|
    decreases |t.tx.outputs| - i
  {
    if i == |t.tx.outputs| then u
    else if !Scripts.OutputIndexable(t.tx.outputs[i].script) then AddOutputs(coin, u, t, num, i + 1)
    else AddOutputs(coin, u[Outpoint(t.hash, i) := coin.Entry(t.tx.outputs[i], num)], t, num, i + 1)
  }

  function AdvanceTx(coin: Coin, u: UtxoMap, t: BlockTx, num: nat): UtxoMap {
    AddOutputs(coin, SpendInputs(u, t.tx.inputs), t, num, 0)
  }

  function AdvanceTxs(coin: Coin, u: UtxoMap, txs: seq<BlockTx>, num: nat): UtxoMap
    decreases |txs|
  {
    if txs == [] then u else AdvanceTxs(coin, AdvanceTx(coin, u, txs[0], num), txs[1..], num + 1)
  }

  /** A consensus-valid block on top of `u`: inputs are live when spent, and no transaction
      reuses a txid that still has an output in the set. */
  predicate ValidTx(u: UtxoMap, t: BlockTx) {
    && |t.hash| == 32
    && InputsLive(u, t.tx.inputs)
    && (forall o :: o in u ==> o.hash != t.hash)
    && (forall i :: 0 <= i < |t.tx.outputs| ==> 0 <= t.tx.outputs[i].value < Range(8))
  }

  predicate ValidTxs(coin: Coin, u: UtxoMap, txs: seq<BlockTx>, num: nat)
    decreases |txs|
  {
    txs == [] || (ValidTx(u, txs[0]) && ValidTxs(coin, AdvanceTx(coin, u, txs[0], num), txs[1..], num + 1))
  }

  /** The undo information of a block: the spent entries, in block order. */
  function UndoOf(coin: Coin, u: UtxoMap, txs: seq<BlockTx>, num: nat): seq<Bytes>
    requires ValidTxs(coin, u, txs, num)
    decreases |txs|
  {
    if txs == [] then []
    else SpentEntries(u, txs[0].tx.inputs) + UndoOf(coin, AdvanceTx(coin, u, txs[0], num), txs[1..], num + 1)
  }

  // ----- Backing up -----

  /** The map and the undo entries not used yet. */
  datatype Backed = Backed(utxos: UtxoMap, undo: seq<Bytes>)

  /** The indexable outpoints of a transaction among its first `n` outputs. */
  function Created(t: BlockTx, n: nat): set<Outpoint>
    requires n <= |t.tx.outputs|
  {
    set i | 0 <= i < n && Scripts.OutputIndexable(t.tx.outputs[i].script) :: Outpoint(t.hash, i)
  }

  /** Puts the last input's entry back first, taking entries from the end of the undo list. */
  function RestoreInputs(b: Backed, ins: seq<Transactions.TxInput>): Backed {
    if ins == [] then b else RestoreInput(RestoreInputs(b, ins[1..]), ins[0])
  }

  function RestoreInput(b: Backed, i: Transactions.TxInput): Backed {
    if i.IsGeneration() || b.undo == [] then b
    else Backed(b.utxos[PrevOut(i) := b.undo[|b.undo| - 1]], b.undo[..|b.undo| - 1])
  }

  function BackupTx(b: Backed, t: BlockTx): Backed {
    RestoreInputs(Backed(b.utxos - Created(t, |t.tx.outputs|), b.undo), t.tx.inputs)
  }

  /** The transactions in reverse block order. */
  function BackupTxs(b: Backed, txs: seq<BlockTx>): Backed {
    if txs == [] then b else BackupTx(BackupTxs(b, txs[1..]), txs[0])
  }

  // ----- Backing up undoes advancing -----

  lemma {:induction false} RestoreUndoesSpend(u: UtxoMap, ins: seq<Transactions.TxInput>, pre: seq<Bytes>)
    requires InputsLive(u, ins)
    ensures RestoreInputs(Backed(SpendInputs(u, ins), pre + SpentEntries(u, ins)), ins) == Backed(u, pre)
    decreases |ins|
  {
    hide Transactions.TxInput.IsGeneration;
    if ins == [] {
      assert pre + [] == pre;
    } else if ins[0].IsGeneration() {
      RestoreUndoesSpend(u, ins[1..], pre);
    } else {
      var o := PrevOut(ins[0]);
      var rest := SpentEntries(u - {o}, ins[1..]);
      RestoreUndoesSpend(u - {o}, ins[1..], pre + [u[o]]);
      assert pre + ([u[o]] + rest) == pre + [u[o]] + rest;
      assert (pre + [u[o]])[..|pre|] == pre;
      assert (u - {o})[o := u[o]] == u;
    }
  }

  lemma {:induction false} AddedOutputs(coin: Coin, u: UtxoMap, t: BlockTx, num: nat, i: nat)
    requires i <= |t.tx.outputs|
    ensures var a := AddOutputs(coin, u, t, num, i);
            && a.Keys == u.Keys + (Created(t, |t.tx.outputs|) - Created(t, i))
            && (forall o :: o in u && o !in Created(t, |t.tx.outputs|) - Created(t, i) ==> a[o] == u[o])
            && (forall k :: i <= k < |t.tx.outputs| && Outpoint(t.hash, k) in Created(t, |t.tx.outputs|) ==>
                  Outpoint(t.hash, k) in a && a[Outpoint(t.hash, k)] == coin.Entry(t.tx.outputs[k], num))
    decreases |t.tx.outputs| - i
  {
    hide Scripts.OutputIndexable, Coin.Entry;
    if i < |t.tx.outputs| {
      var o := Outpoint(t.hash, i);
      if Scripts.OutputIndexable(t.tx.outputs[i].script) {
        var u' := u[o := coin.Entry(t.tx.outputs[i], num)];
        AddedOutputs(coin, u', t, num, i + 1);
        assert Created(t, i + 1) == Created(t, i) + {o};
      } else {
        AddedOutputs(coin, u, t, num, i + 1);
        assert Created(t, i + 1) == Created(t, i);
      }
    }
  }

  lemma RemoveUndoesAdd(coin: Coin, u: UtxoMap, t: BlockTx, num: nat)
    requires forall o :: o in u ==> o.hash != t.hash
    ensures AddOutputs(coin, u, t, num, 0) - Created(t, |t.tx.outputs|) == u
  {
    AddedOutputs(coin, u, t, num, 0);
    assert Created(t, 0) == {};
  }

  lemma {:induction false} SpendOnlyRemoves(u: UtxoMap, ins: seq<Transactions.TxInput>)
    ensures SpendInputs(u, ins).Keys <= u.Keys
    ensures forall o :: o in SpendInputs(u, ins) ==> SpendInputs(u, ins)[o] == u[o]
    decreases |ins|
  {
    hide Transactions.TxInput.IsGeneration;
    if ins != [] {
      SpendOnlyRemoves(if ins[0].IsGeneration() then u else u - {PrevOut(ins[0])}, ins[1..]);
    }
  }

  lemma BackupUndoesTx(coin: Coin, u: UtxoMap, t: BlockTx, num: nat, pre: seq<Bytes>)
    requires ValidTx(u, t)
    ensures BackupTx(Backed(AdvanceTx(coin, u, t, num), pre + SpentEntries(u, t.tx.inputs)), t) == Backed(u, pre)
  {
    hide AddOutputs, SpendInputs, SpentEntries, Created, RestoreInputs;
    SpendOnlyRemoves(u, t.tx.inputs);
    RemoveUndoesAdd(coin, SpendInputs(u, t.tx.inputs), t, num);
    RestoreUndoesSpend(u, t.tx.inputs, pre);
  }

  /** Backing up a block right after advancing it gives the map back, outputs spent inside the
      block included, and uses exactly the entries the block had left. */
  lemma {:induction false} BackupUndoesAdvance(coin: Coin, u: UtxoMap, txs: seq<BlockTx>, num: nat, pre: seq<Bytes>)
    requires ValidTxs(coin, u, txs, num)
    ensures BackupTxs(Backed(AdvanceTxs(coin, u, txs, num), pre + UndoOf(coin, u, txs, num)), txs) == Backed(u, pre)
    decreases |txs|
  {
    hide AdvanceTx, SpentEntries, BackupTx, ValidTx;
    if txs == [] {
      assert pre + [] == pre;
    } else {
      var u1 := AdvanceTx(coin, u, txs[0], num);
      ValidInputs(u, txs[0]);
      var spent, rest := SpentEntries(u, txs[0].tx.inputs), UndoOf(coin, u1, txs[1..], num + 1);
      BackupUndoesAdvance(coin, u1, txs[1..], num + 1, pre + spent);
      assert pre + (spent + rest) == pre + spent + rest;
      BackupUndoesTx(coin, u, txs[0], num, pre);
    }
  }

  lemma ValidInputs(u: UtxoMap, t: BlockTx)
    requires ValidTx(u, t)
    ensures InputsLive(u, t.tx.inputs)
  {
  }

  // ----- The whole chain -----

  type Block = seq<BlockTx>

  function Hashes(txs: Block): (h: seq<Bytes>)
    ensures |h| == |txs|
  {
    seq(|txs|, i requires 0 <= i < |txs| => txs[i].hash)
  }

  /** The txids of the chain in order: the transaction numbers index this list. */
  function Txids(chain: seq<Block>): seq<Bytes> {
    if chain == [] then [] else Txids(chain[..|chain| - 1]) + Hashes(chain[|chain| - 1])
  }

  /** The UTXO set after all blocks of the chain. */
  function UtxosAt(coin: Coin, chain: seq<Block>): UtxoMap {
    if chain == [] then map[]
    else
      var before := chain[..|chain| - 1];
      AdvanceTxs(coin, UtxosAt(coin, before), chain[|chain| - 1], |Txids(before)|)
  }

  /** Transaction numbers are stored in five bytes. */
  predicate ValidChain(coin: Coin, chain: seq<Block>) {
    chain == [] ||
    var before := chain[..|chain| - 1];
    && ValidChain(coin, before)
    && |Txids(chain)| <= Range(5)
    && ValidTxs(coin, UtxosAt(coin, before), chain[|chain| - 1], |Txids(before)|)
  }

  lemma {:induction false} ValidPrefix(coin: Coin, chain: seq<Block>, n: nat)
    requires ValidChain(coin, chain) && n <= |chain|
    ensures ValidChain(coin, chain[..n])
    decreases |chain|
  {
    if n < |chain| {
      ValidPrefix(coin, chain[..|chain| - 1], n);
      assert chain[..|chain| - 1][..n] == chain[..n];
    } else {
      assert chain[..n] == chain;
    }
  }

  /** An entry names the transaction that made it. */
  predicate EntryOk(o: Outpoint, v: Bytes, hashes: seq<Bytes>) {
    |o.hash| == 32 && |v| == ENTRY_LEN && NumOf(v) < |hashes| && hashes[NumOf(v)] == o.hash
  }

  predicate EntriesOk(u: UtxoMap, hashes: seq<Bytes>) {
    forall o :: o in u ==> EntryOk(o, u[o], hashes)
  }

  lemma EntriesOkTx(coin: Coin, u: UtxoMap, t: BlockTx, hashes: seq<Bytes>)
    requires EntriesOk(u, hashes) && |t.hash| == 32 && |hashes| < Range(5)
    ensures EntriesOk(AdvanceTx(coin, u, t, |hashes|), hashes + [t.hash])
  {
    hide Coin.Entry, NumOf, AddOutputs, Range;
    var s := SpendInputs(u, t.tx.inputs);
    var a := AdvanceTx(coin, u, t, |hashes|);
    SpendOnlyRemoves(u, t.tx.inputs);
    AddedOutputs(coin, s, t, |hashes|, 0);
    forall o | o in a
      ensures EntryOk(o, a[o], hashes + [t.hash])
    {
      if o in Created(t, |t.tx.outputs|) {
        EntryParts(coin, t.tx.outputs[o.idx], |hashes|);
      } else {
        assert EntryOk(o, u[o], hashes);
      }
    }
  }

  lemma {:induction false} EntriesOkTxs(coin: Coin, u: UtxoMap, txs: Block, hashes: seq<Bytes>)
    requires EntriesOk(u, hashes) && ValidTxs(coin, u, txs, |hashes|) && |hashes| + |txs| <= Range(5)
    ensures EntriesOk(AdvanceTxs(coin, u, txs, |hashes|), hashes + Hashes(txs))
    decreases |txs|
  {
    hide AdvanceTx, EntriesOk, Range;
    if txs == [] {
      assert hashes + Hashes(txs) == hashes;
    } else {
      EntriesOkTx(coin, u, txs[0], hashes);
      EntriesOkTxs(coin, AdvanceTx(coin, u, txs[0], |hashes|), txs[1..], hashes + [txs[0].hash]);
      assert hashes + [txs[0].hash] + Hashes(txs[1..]) == hashes + Hashes(txs);
    }
  }

  lemma {:induction false} EntriesOkChain(coin: Coin, chain: seq<Block>)
    requires ValidChain(coin, chain)
    ensures EntriesOk(UtxosAt(coin, chain), Txids(chain))
  {
    hide EntriesOk, Range, ValidTxs;
    if chain == [] {
      NoEntries();
    } else {
      var before := chain[..|chain| - 1];
      EntriesOkChain(coin, before);
      EntriesOkTxs(coin, UtxosAt(coin, before), chain[|chain| - 1], Txids(before));
    }
  }

  lemma NoEntries()
    ensures EntriesOk(map[], [])
  {
  }

  // ----- Which hashXs a transaction touches -----

  /** The hashXs filed in the history for a transaction. */
  function TxHashXs(coin: Coin, u: UtxoMap, t: BlockTx): set<Bytes>
    requires InputsLive(u, t.tx.inputs)
  {
    (set v | v in SpentEntries(u, t.tx.inputs) :: HashXOf(v))
    + (set i | 0 <= i < |t.tx.outputs| && Scripts.OutputIndexable(t.tx.outputs[i].script)
         :: coin.OutputHashX(t.tx.outputs[i].script))
  }

  /** The same for each transaction of a block. */
  function HashXsByTx(coin: Coin, u: UtxoMap, txs: Block, num: nat): (r: seq<set<Bytes>>)
    requires ValidTxs(coin, u, txs, num)
    ensures |r| == |txs|
    decreases |txs|
  {
    if txs == [] then []
    else [TxHashXs(coin, u, txs[0])] + HashXsByTx(coin, AdvanceTx(coin, u, txs[0], num), txs[1..], num + 1)
  }

  /** The hashXs marked as touched while backing up: of the outputs removed and of the undo
      entries put back. */
  function BackupTouched(b: Backed, t: BlockTx): set<Bytes> {
    (set o | o in Created(t, |t.tx.outputs|) && o in b.utxos :: HashXOf(b.utxos[o]))
    + (var rest := |BackupTx(b, t).undo|;
       if rest <= |b.undo| then (set v | v in b.undo[rest..] :: HashXOf(v)) else {})
  }

  function BackupTouchedAll(b: Backed, txs: Block): set<Bytes> {
    if txs == [] then {} else BackupTouchedAll(b, txs[1..]) + BackupTouched(BackupTxs(b, txs[1..]), txs[0])
  }

  function UnionAll(ss: seq<set<Bytes>>): set<Bytes> {
    if ss == [] then {} else ss[0] + UnionAll(ss[1..])
  }

  lemma BackupTouchesTx(coin: Coin, u: UtxoMap, t: BlockTx, num: nat, pre: seq<Bytes>)
    requires ValidTx(u, t) && num < Range(5)
    ensures BackupTouched(Backed(AdvanceTx(coin, u, t, num), pre + SpentEntries(u, t.tx.inputs)), t)
            == TxHashXs(coin, u, t)
  {
    hide BackupTx, AddOutputs, Coin.Entry, SpendInputs, SpentEntries, ValidTx, Scripts.OutputIndexable, Range;
    ValidInputs(u, t);
    var spent := SpentEntries(u, t.tx.inputs);
    var b := Backed(AdvanceTx(coin, u, t, num), pre + spent);
    BackupUndoesTx(coin, u, t, num, pre);
    assert b.undo[|pre|..] == spent;
    AddedOutputs(coin, SpendInputs(u, t.tx.inputs), t, num, 0);
    assert Created(t, 0) == {};
    forall i | 0 <= i < |t.tx.outputs| && Scripts.OutputIndexable(t.tx.outputs[i].script)
      ensures Outpoint(t.hash, i) in Created(t, |t.tx.outputs|)
      ensures HashXOf(b.utxos[Outpoint(t.hash, i)]) == coin.OutputHashX(t.tx.outputs[i].script)
    {
      EntryParts(coin, t.tx.outputs[i], num);
    }
  }

  /** Every hashX that advancing put in the history of a block is touched by backing the block
      up, and no other. */
  lemma {:induction false} BackupTouchesHistory(coin: Coin, u: UtxoMap, txs: Block, num: nat, pre: seq<Bytes>)
    requires ValidTxs(coin, u, txs, num) && num + |txs| <= Range(5)
    ensures BackupTouchedAll(Backed(AdvanceTxs(coin, u, txs, num), pre + UndoOf(coin, u, txs, num)), txs)
            == UnionAll(HashXsByTx(coin, u, txs, num))
    decreases |txs|
  {
    hide AdvanceTx, SpentEntries, BackupTx, ValidTx, BackupTouched, TxHashXs, Range;
    if txs != [] {
      var u1 := AdvanceTx(coin, u, txs[0], num);
      ValidInputs(u, txs[0]);
      var spent, rest := SpentEntries(u, txs[0].tx.inputs), UndoOf(coin, u1, txs[1..], num + 1);
      BackupTouchesHistory(coin, u1, txs[1..], num + 1, pre + spent);
      BackupUndoesAdvance(coin, u1, txs[1..], num + 1, pre + spent);
      assert pre + (spent + rest) == pre + spent + rest;
      BackupTouchesTx(coin, u, txs[0], num, pre);
      var all := HashXsByTx(coin, u, txs, num);
      assert all[1..] == HashXsByTx(coin, u1, txs[1..], num + 1);
    }
  }

  // ----- In the middle of a transaction and of a block -----

  lemma {:induction false} SplitSpend(u: UtxoMap, ins: seq<Transactions.TxInput>, j: nat)
    requires InputsLive(u, ins) && j <= |ins|
    ensures InputsLive(u, ins[..j])
    ensures var m := SpendInputs(u, ins[..j]);
            && InputsLive(m, ins[j..])
            && SpendInputs(u, ins) == SpendInputs(m, ins[j..])
            && SpentEntries(u, ins) == SpentEntries(u, ins[..j]) + SpentEntries(m, ins[j..])
    decreases |ins|
  {
    hide Transactions.TxInput.IsGeneration;
    if j == 0 {
      assert ins[..0] == [] && ins[0..] == ins;
    } else {
      assert ins[..j][1..] == ins[1..][..j - 1] && ins[j..] == ins[1..][j - 1..];
      SplitSpend(if ins[0].IsGeneration() then u else u - {PrevOut(ins[0])}, ins[1..], j - 1);
    }
  }

  lemma {:induction false} SplitAdvance(coin: Coin, u: UtxoMap, txs: Block, num: nat, j: nat)
    requires ValidTxs(coin, u, txs, num) && j <= |txs|
    ensures ValidTxs(coin, u, txs[..j], num)
    ensures var m := AdvanceTxs(coin, u, txs[..j], num);
            && ValidTxs(coin, m, txs[j..], num + j)
            && AdvanceTxs(coin, u, txs, num) == AdvanceTxs(coin, m, txs[j..], num + j)
            && UndoOf(coin, u, txs, num) == UndoOf(coin, u, txs[..j], num) + UndoOf(coin, m, txs[j..], num + j)
    decreases |txs|
  {
    hide AdvanceTx, SpentEntries, ValidTx;
    if j == 0 {
      assert txs[..0] == [] && txs[0..] == txs;
    } else {
      assert txs[..j][1..] == txs[1..][..j - 1] && txs[j..] == txs[1..][j - 1..];
      ValidInputs(u, txs[0]);
      SplitAdvance(coin, AdvanceTx(coin, u, txs[0], num), txs[1..], num + 1, j - 1);
    }
  }

  /** The undo information of the last block of a valid chain. */
  function LastUndo(coin: Coin, chain: seq<Block>): seq<Bytes> {
    if chain == [] || !ValidChain(coin, chain) then []
    else
      var before := chain[..|chain| - 1];
      UndoOf(coin, UtxosAt(coin, before), chain[|chain| - 1], |Txids(before)|)
  }
}
