/** What the mempool keeps of its transactions besides themselves (electrumx/server/mempool.py): the
    transactions of each hashX, those of each tracked ref in the order of their arrival, and the
    refs of each unconfirmed output.  All three are functions of the transactions alone. */
module MempoolIndex {
  import opened ByteStrings
  import RefRows
  import Scripts
  import Utxos

  type Outpoint = Utxos.Outpoint

  function Flat(lists: seq<seq<Bytes>>): set<Bytes> {
    set s, x | s in lists && x in s :: x
  }

  /** A hashX and a value. */
  datatype Pair = Pair(hashX: Bytes, value: int)

  /** Prevouts exclude generation-like inputs; `outSrefs` are the hashXs of the tracked refs of each
      output, and `scripts` the output scripts. */
  datatype MemPoolTx = MemPoolTx(
    prevouts: seq<Outpoint>, inPairs: seq<Pair>, outPairs: seq<Pair>, fee: int, outSrefs: seq<seq<Bytes>>, scripts: seq<Bytes>)
  {
    function RefHashXs(): set<Bytes> {
      Flat(outSrefs)
    }

    /** Scripts without a walk are refused when a transaction is fetched. */
    predicate Walkable() {
      forall s :: s in scripts ==> Scripts.Walk(s, 0).Some?
    }

    /** The keys the transaction is filed under. */
    function Touches(): set<Bytes> {
      (set p | p in inPairs :: p.hashX) + (set p | p in outPairs :: p.hashX) + RefHashXs()
    }
  }

  type Txs = map<Bytes, MemPoolTx>

  // ----- The index by hashX -----

  /** Each key lists exactly the transactions that touch it, and no key is empty. */
  ghost predicate Indexed(hashXs: map<Bytes, set<Bytes>>, txs: Txs) {
    && (forall x :: x in hashXs ==> hashXs[x] != {})
    && (forall x, h :: x in hashXs && h in hashXs[x] ==> h in txs && x in txs[h].Touches())
    && (forall x, h :: h in txs && x in txs[h].Touches() ==> x in hashXs && h in hashXs[x])
  }

  function At(hashXs: map<Bytes, set<Bytes>>, x: Bytes): set<Bytes> {
    if x in hashXs then hashXs[x] else {}
  }

  predicate NoEmpty(hashXs: map<Bytes, set<Bytes>>) {
    forall x :: x in hashXs ==> hashXs[x] != {}
  }

  lemma IndexedParts(hashXs: map<Bytes, set<Bytes>>, txs: Txs)
    requires Indexed(hashXs, txs)
    ensures NoEmpty(hashXs)
    ensures forall x, h :: h in txs && x in txs[h].Touches() ==> h in At(hashXs, x)
    ensures forall x, h :: h in At(hashXs, x) ==> h in txs && x in txs[h].Touches()
  {
    hide MemPoolTx.Touches;
  }

  lemma IndexedIf(hashXs: map<Bytes, set<Bytes>>, txs: Txs)
    requires NoEmpty(hashXs)
    requires forall x, h :: h in At(hashXs, x) <==> h in txs && x in txs[h].Touches()
    ensures Indexed(hashXs, txs)
  {
    hide MemPoolTx.Touches;
    forall x, h | x in hashXs && h in hashXs[x]
      ensures h in txs && x in txs[h].Touches()
    {
      assert h in At(hashXs, x);
    }
    forall x, h | h in txs && x in txs[h].Touches()
      ensures x in hashXs && h in hashXs[x]
    {
      assert h in At(hashXs, x);
    }
  }

  lemma IndexedWith(before: map<Bytes, set<Bytes>>, after: map<Bytes, set<Bytes>>, txs: Txs, h: Bytes, tx: MemPoolTx)
    requires Indexed(before, txs) && h !in txs && NoEmpty(after)
    requires forall x :: At(after, x) == At(before, x) + if x in tx.Touches() then {h} else {}
    ensures Indexed(after, txs[h := tx])
  {
    hide MemPoolTx.Touches, At;
    IndexedParts(before, txs);
    IndexedIf(after, txs[h := tx]);
  }

  /** `h` has been taken out of the sets of the keys in `seen`. */
  ghost predicate Dropped(after: map<Bytes, set<Bytes>>, before: map<Bytes, set<Bytes>>, h: Bytes, seen: set<Bytes>) {
    NoEmpty(after) && forall x :: At(after, x) == At(before, x) - if x in seen then {h} else {}
  }

  method DropKey(
      hashXs: map<Bytes, set<Bytes>>, h: Bytes, x: Bytes, ghost before: map<Bytes, set<Bytes>>, ghost seen: set<Bytes>)
    returns (after: map<Bytes, set<Bytes>>)
    requires Dropped(hashXs, before, h, seen) && x !in seen && h in At(before, x)
    ensures Dropped(after, before, h, seen + {x})
  {
    assert At(hashXs, x) == At(before, x);
    var left := hashXs[x] - {h};
    after := if left == {} then hashXs - {x} else hashXs[x := left];
    forall y
      ensures At(after, y) == At(before, y) - if y in seen + {x} then {h} else {}
    {
      assert y != x ==> At(after, y) == At(hashXs, y);
    }
  }

  lemma NothingDropped(before: map<Bytes, set<Bytes>>, h: Bytes)
    requires NoEmpty(before)
    ensures Dropped(before, before, h, {})
  {
  }

  lemma IndexedWithout(before: map<Bytes, set<Bytes>>, after: map<Bytes, set<Bytes>>, txs: Txs, h: Bytes)
    requires Indexed(before, txs) && h in txs && Dropped(after, before, h, txs[h].Touches())
    ensures Indexed(after, txs - {h})
  {
    hide MemPoolTx.Touches, At;
    IndexedParts(before, txs);
    IndexedIf(after, txs - {h});
  }

  // ----- The lists of refs -----

  type RefLists = map<Bytes, seq<Bytes>>

  function ListAt(srefs: RefLists, x: Bytes): seq<Bytes> {
    if x in srefs then srefs[x] else []
  }

  predicate NoEmptyList(srefs: RefLists) {
    forall x :: x in srefs ==> srefs[x] != []
  }

  predicate Distinct(s: seq<Bytes>) {
    forall i, j :: 0 <= i < j < |s| ==> s[i] != s[j]
  }

  /** Each ref lists exactly the transactions that push it, each once, and no list is empty. */
  ghost predicate Tracked(srefs: RefLists, txs: Txs) {
    && NoEmptyList(srefs) && (forall x {:trigger ListAt(srefs, x)} :: Distinct(ListAt(srefs, x)))
    && forall x, h :: h in ListAt(srefs, x) <==> h in txs && x in txs[h].RefHashXs()
  }

  /** `h` has been appended to the lists of the refs in `seen`. */
  ghost predicate Appended(after: RefLists, before: RefLists, h: Bytes, seen: set<Bytes>) {
    NoEmptyList(after) && forall x {:trigger ListAt(after, x)} :: ListAt(after, x) == ListAt(before, x) + if x in seen then [h] else []
  }

  method TrackRef(srefs: RefLists, h: Bytes, x: Bytes, ghost before: RefLists, ghost seen: set<Bytes>) returns (after: RefLists)
    requires Appended(srefs, before, h, seen) && h !in ListAt(before, x)
    ensures Appended(after, before, h, seen + {x})
  {
    after := srefs;
    if h !in ListAt(srefs, x) {
      assert ListAt(srefs, x) == ListAt(before, x);
      after := srefs[x := ListAt(srefs, x) + [h]];
    } else {
      assert x in seen;
    }
  }

  method TrackRefs(before: RefLists, h: Bytes, outSrefs: seq<seq<Bytes>>) returns (after: RefLists)
    requires NoEmptyList(before) && forall x {:trigger ListAt(before, x)} :: h !in ListAt(before, x)
    ensures Appended(after, before, h, Flat(outSrefs))
  {
    hide Appended, Flat, ListAt;
    NothingAppended(before, h);
    after := before;
    for i := 0 to |outSrefs|
      invariant Appended(after, before, h, Flat(outSrefs[..i]))
    {
      var refHashes := outSrefs[i];
      assert Flat(outSrefs[..i]) + Elements(refHashes[..0]) == Flat(outSrefs[..i]);
      for j := 0 to |refHashes|
        invariant Appended(after, before, h, Flat(outSrefs[..i]) + Elements(refHashes[..j]))
      {
        after := TrackRef(after, h, refHashes[j], before, Flat(outSrefs[..i]) + Elements(refHashes[..j]));
        OneMore(refHashes, j);
        assert Flat(outSrefs[..i]) + Elements(refHashes[..j]) + {refHashes[j]} == Flat(outSrefs[..i]) + Elements(refHashes[..j + 1]);
      }
      FlatMore(outSrefs, i);
    }
    assert outSrefs[..|outSrefs|] == outSrefs;
  }

  lemma NothingAppended(before: RefLists, h: Bytes)
    requires NoEmptyList(before)
    ensures forall none: seq<seq<Bytes>> :: none == [] ==> Appended(before, before, h, Flat(none))
  {
  }

  lemma OneMore(s: seq<Bytes>, j: nat)
    requires j < |s|
    ensures Elements(s[..j + 1]) == Elements(s[..j]) + {s[j]}
  {
    assert s[..j + 1] == s[..j] + [s[j]];
  }

  lemma FlatMore(lists: seq<seq<Bytes>>, i: nat)
    requires i < |lists|
    ensures Flat(lists[..i + 1]) == Flat(lists[..i]) + Elements(lists[i]) && lists[i][..|lists[i]|] == lists[i]
  {
    assert lists[..i + 1] == lists[..i] + [lists[i]];
  }

  lemma TrackedWith(before: RefLists, after: RefLists, txs: Txs, h: Bytes, tx: MemPoolTx)
    requires Tracked(before, txs) && h !in txs && Appended(after, before, h, tx.RefHashXs())
    ensures Tracked(after, txs[h := tx])
  {
    hide MemPoolTx.RefHashXs, ListAt;
    forall x
      ensures Distinct(ListAt(after, x))
      ensures forall g :: g in ListAt(after, x) <==> g in txs[h := tx] && x in txs[h := tx][g].RefHashXs()
    {
      assert h !in ListAt(before, x);
      assert Distinct(ListAt(before, x)) && ListAt(after, x) == ListAt(before, x) + if x in tx.RefHashXs() then [h] else [];
    }
  }

  /** The list without the first occurrence of `h`. */
  function Without(s: seq<Bytes>, h: Bytes): seq<Bytes> {
    if s == [] then [] else if s[0] == h then s[1..] else [s[0]] + Without(s[1..], h)
  }

  lemma {:induction false} WithoutIs(s: seq<Bytes>, h: Bytes)
    requires Distinct(s)
    ensures Distinct(Without(s, h)) && forall g :: g in Without(s, h) <==> g in s && g != h
    ensures h !in s ==> Without(s, h) == s
  {
    if s != [] {
      assert s == [s[0]] + s[1..] && s[0] !in s[1..] && Distinct(s[1..]);
      WithoutIs(s[1..], h);
      DistinctMore(s[0], Without(s[1..], h));
    }
  }

  lemma DistinctMore(x: Bytes, s: seq<Bytes>)
    requires Distinct(s) && x !in s
    ensures Distinct([x] + s)
  {
  }

  /** `h` has been taken out of the lists of the hashXs in `seen`, the order kept. */
  ghost predicate TakenOut(after: RefLists, before: RefLists, h: Bytes, seen: set<Bytes>) {
    NoEmptyList(after) && forall x {:trigger ListAt(after, x)} ::
      ListAt(after, x) == if x in seen then Without(ListAt(before, x), h) else ListAt(before, x)
  }

  method UntrackRef(srefs: RefLists, h: Bytes, x: Bytes, ghost before: RefLists, ghost seen: set<Bytes>) returns (after: RefLists)
    requires TakenOut(srefs, before, h, seen) && x !in seen && Distinct(ListAt(before, x))
    ensures TakenOut(after, before, h, seen + {x})
  {
    WithoutIs(ListAt(before, x), h);
    assert ListAt(srefs, x) == ListAt(before, x);
    after := srefs;
    if h in ListAt(srefs, x) {
      var left := Without(srefs[x], h);
      after := if left == [] then srefs - {x} else srefs[x := left];
    }
    forall y
      ensures ListAt(after, y) == if y in seen + {x} then Without(ListAt(before, y), h) else ListAt(before, y)
    {
      assert y != x ==> ListAt(after, y) == ListAt(srefs, y);
    }
  }

  lemma NothingTakenOut(before: RefLists, h: Bytes)
    requires NoEmptyList(before)
    ensures TakenOut(before, before, h, {})
  {
  }

  lemma ListsDistinct(srefs: RefLists, txs: Txs)
    requires Tracked(srefs, txs)
    ensures NoEmptyList(srefs) && forall x {:trigger ListAt(srefs, x)} :: Distinct(ListAt(srefs, x))
  {
  }

  /** A new transaction is in no list and has no output filed. */
  lemma NotThere(srefs: RefLists, filed: OutputRefs, txs: Txs, h: Bytes)
    requires Tracked(srefs, txs) && Filed(filed, txs) && h !in txs
    ensures NoEmptyList(srefs) && forall x {:trigger ListAt(srefs, x)} :: h !in ListAt(srefs, x)
    ensures forall o: Outpoint {:trigger FiledAt(filed, o)} :: o.hash == h ==> FiledAt(filed, o) == None
  {
    hide ListAt, FiledAt;
  }

  lemma TrackedWithout(before: RefLists, after: RefLists, txs: Txs, h: Bytes)
    requires Tracked(before, txs) && h in txs && TakenOut(after, before, h, txs[h].Touches())
    ensures Tracked(after, txs - {h})
  {
    hide MemPoolTx.RefHashXs, ListAt, Without, Distinct, Tracked;
    forall x
      ensures Distinct(ListAt(after, x))
      ensures forall g :: g in ListAt(after, x) <==> g in txs - {h} && x in (txs - {h})[g].RefHashXs()
    {
      var list := ListAt(before, x);
      TrackedAt(before, txs, h, x);
      WithoutIs(list, h);
      assert ListAt(after, x) == if x in txs[h].Touches() then Without(list, h) else list;
    }
    TrackedIf(after, txs - {h});
  }

  lemma TrackedAt(srefs: RefLists, txs: Txs, h: Bytes, x: Bytes)
    requires Tracked(srefs, txs) && h in txs
    ensures Distinct(ListAt(srefs, x)) && (h in ListAt(srefs, x) ==> x in txs[h].Touches())
    ensures forall g :: g in ListAt(srefs, x) <==> g in txs && x in txs[g].RefHashXs()
  {
    hide MemPoolTx.RefHashXs, ListAt, Distinct;
  }

  lemma TrackedIf(srefs: RefLists, txs: Txs)
    requires NoEmptyList(srefs)
    requires forall x {:trigger ListAt(srefs, x)} ::
               Distinct(ListAt(srefs, x)) && forall g :: g in ListAt(srefs, x) <==> g in txs && x in txs[g].RefHashXs()
    ensures Tracked(srefs, txs)
  {
    hide MemPoolTx.RefHashXs, ListAt, Distinct;
  }

  // ----- The refs of outputs -----

  type OutputRefs = map<Outpoint, Bytes>

  /** The value filed for an output: that of the `ri` row which a block would write, but also for
      outputs that are not spendable. */
  function RefsOf(script: Bytes): (v: Bytes)
    ensures Scripts.OutputIndexable(script) ==> v == RefRows.RiValue(script)
  {
    var refs := Scripts.PushedRefs(script, 0);
    var normals := set p | p in refs && !p.singleton :: p.ref;
    assert Scripts.OutputIndexable(script) ==> normals == RefRows.OfKind(script, false);
    RefRows.RefsValue(RefRows.Dedup(Scripts.AllRefs(refs)), normals)
  }

  function RefsAt(scripts: seq<Bytes>, idx: nat): Option<Bytes> {
    if idx < |scripts| && RefsOf(scripts[idx]) != [] then Some(RefsOf(scripts[idx])) else None
  }

  function FiledAt(filed: OutputRefs, o: Outpoint): Option<Bytes> {
    if o in filed then Some(filed[o]) else None
  }

  /** Exactly the outputs with refs are filed, with their refs. */
  ghost predicate Filed(filed: OutputRefs, txs: Txs) {
    forall o {:trigger FiledAt(filed, o)} :: FiledAt(filed, o) == if o.hash in txs then RefsAt(txs[o.hash].scripts, o.idx) else None
  }

  /** The first `n` outputs of `h` are filed. */
  ghost predicate FiledTo(after: OutputRefs, before: OutputRefs, h: Bytes, scripts: seq<Bytes>, n: nat) {
    forall o {:trigger FiledAt(after, o)} ::
      FiledAt(after, o) == if o.hash != h then FiledAt(before, o) else if o.idx < n then RefsAt(scripts, o.idx) else None
  }

  method EncodedRefs(script: Bytes) returns (value: Bytes)
    requires Scripts.Walk(script, 0).Some?
    ensures value == RefsOf(script)
  {
    hide Scripts.Walk, Scripts.PushedRefs, Scripts.AllRefs, Scripts.RefsOfKind;
    var found := Scripts.GetPushInputRefs(script);
    var all, normal := RefRows.Dedup(found.value.0), RefRows.Dedup(found.value.1);
    KindElements(Scripts.PushedRefs(script, 0));
    ghost var normals := set p | p in Scripts.PushedRefs(script, 0) && !p.singleton :: p.ref;
    value := [];
    assert all[..0] == [];
    for j := 0 to |all|
      invariant value == RefRows.RefsValue(all[..j], normals)
    {
      assert all[..j + 1][..j] == all[..j];
      value := value + all[j] + [if all[j] in normal then 0 else 1];
    }
    assert all[..|all|] == all;
  }

  lemma {:induction false} KindElements(refs: seq<Scripts.PushedRef>)
    ensures forall x :: x in Scripts.RefsOfKind(refs, false) <==> x in (set p | p in refs && !p.singleton :: p.ref)
  {
    if refs != [] {
      KindElements(refs[1..]);
      assert refs == [refs[0]] + refs[1..];
    }
  }

  method FileRefs(before: OutputRefs, h: Bytes, scripts: seq<Bytes>) returns (after: OutputRefs)
    requires forall s :: s in scripts ==> Scripts.Walk(s, 0).Some?
    requires forall o: Outpoint {:trigger FiledAt(before, o)} :: o.hash == h ==> FiledAt(before, o) == None
    ensures FiledTo(after, before, h, scripts, |scripts|)
  {
    hide RefsOf, Scripts.Walk;
    after := before;
    for i := 0 to |scripts|
      invariant FiledTo(after, before, h, scripts, i)
    {
      ghost var last := after;
      var value := EncodedRefs(scripts[i]);
      if value != [] {
        after := after[Utxos.Outpoint(h, i) := value];
      }
      FiledOne(last, after, before, h, scripts, i);
    }
  }

  lemma FiledOne(last: OutputRefs, after: OutputRefs, before: OutputRefs, h: Bytes, scripts: seq<Bytes>, i: nat)
    requires i < |scripts| && FiledTo(last, before, h, scripts, i)
    requires after == match RefsAt(scripts, i) case Some(v) => last[Utxos.Outpoint(h, i) := v] case None => last
    ensures FiledTo(after, before, h, scripts, i + 1)
  {
    hide RefsAt;
    forall o
      ensures FiledAt(after, o) == if o.hash != h then FiledAt(before, o) else if o.idx < i + 1 then RefsAt(scripts, o.idx) else None
    {
      assert o.hash == h && o.idx == i <==> o == Utxos.Outpoint(h, i);
      assert FiledAt(last, o) == if o.hash != h then FiledAt(before, o) else if o.idx < i then RefsAt(scripts, o.idx) else None;
    }
  }

  lemma FiledWith(before: OutputRefs, after: OutputRefs, txs: Txs, h: Bytes, tx: MemPoolTx)
    requires Filed(before, txs) && h !in txs && FiledTo(after, before, h, tx.scripts, |tx.scripts|)
    ensures Filed(after, txs[h := tx])
  {
    hide FiledAt, RefsOf;
  }

  method UnfileRefs(before: OutputRefs, h: Bytes, scripts: seq<Bytes>, ghost txs: Txs) returns (after: OutputRefs)
    requires Filed(before, txs) && h in txs && txs[h].scripts == scripts
    ensures Filed(after, txs - {h})
  {
    hide RefsOf;
    after := before;
    for i := 0 to |scripts|
      invariant forall o {:trigger FiledAt(after, o)} ::
                  FiledAt(after, o) == if o.hash == h && o.idx < i then None else FiledAt(before, o)
    {
      ghost var last := after;
      after := after - {Utxos.Outpoint(h, i)};
      forall o
        ensures FiledAt(after, o) == if o.hash == h && o.idx < i + 1 then None else FiledAt(before, o)
      {
        assert FiledAt(last, o) == if o.hash == h && o.idx < i then None else FiledAt(before, o);
        assert o.hash == h && o.idx == i <==> o == Utxos.Outpoint(h, i);
      }
    }
  }
}
