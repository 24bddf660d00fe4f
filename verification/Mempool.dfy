/** The mempool and how a batch of new transactions enters it (electrumx/server/mempool.py).

    Transactions arrive in chunks and in any order; one whose inputs are not found yet is
    deferred and tried again.  The set accepted in the end is the least one that holds every
    transaction whose inputs are DB UTXOs or outputs of mempool transactions: it does not depend
    on the chunks or the order. */
module Mempool {
  import opened ByteStrings
  import opened MempoolIndex

  /** Looked up prevouts; None where the lookup failed. */
  type UtxoMap = map<Outpoint, Option<Pair>>

  function Total(pairs: seq<Pair>): int {
    if pairs == [] then 0 else Total(pairs[..|pairs| - 1]) + pairs[|pairs| - 1].value
  }

  /** Every prevout has an output: mempool transactions are valid. */
  predicate OutputsExist(tx: MemPoolTx, txs: Txs) {
    forall p :: p in tx.prevouts && p.hash in txs ==> p.idx < |txs[p.hash].outPairs|
  }

  predicate Found(p: Outpoint, utxos: UtxoMap, txs: Txs) {
    (p in utxos && utxos[p].Some?) || p.hash in txs
  }

  function PairOf(p: Outpoint, utxos: UtxoMap, txs: Txs): Pair
    requires Found(p, utxos, txs) && (p.hash in txs ==> p.idx < |txs[p.hash].outPairs|)
  {
    if p in utxos && utxos[p].Some? then utxos[p].value else txs[p.hash].outPairs[p.idx]
  }

  // ----- Which transactions are to be accepted -----

  /** A refresh: the daemon's hashes, the transactions kept from before, the new ones fetched, and
      the unspent outputs of the database. */
  datatype Refresh = Refresh(all: set<Bytes>, kept: set<Bytes>, fetched: Txs, db: map<Outpoint, Pair>) {
    /** Outputs of mempool transactions are found in the mempool, the others in the database. */
    predicate Sourced(p: Outpoint, accepted: set<Bytes>) {
      if p.hash in all then p.hash in kept + accepted else p in db
    }

    predicate Resolved(h: Bytes, accepted: set<Bytes>)
      requires h in fetched
    {
      forall p :: p in fetched[h].prevouts ==> Sourced(p, accepted)
    }

    /** Nothing that is resolved is missing. */
    ghost predicate Closed(accepted: set<Bytes>) {
      forall h {:trigger h in accepted} {:trigger h in fetched} :: h in fetched && Resolved(h, accepted) ==> h in accepted
    }

    ghost predicate Least(accepted: set<Bytes>) {
      Closed(accepted) && forall b: set<Bytes> :: Closed(b) ==> accepted <= b
    }

    /** No output is spent twice by the batch. */
    predicate NoDoubleSpends() {
      forall g, h :: g in fetched && h in fetched && g != h ==>
        forall p :: p in fetched[g].prevouts ==> p !in fetched[h].prevouts
    }

    lemma LeastIsUnique(a: set<Bytes>, b: set<Bytes>)
      requires Least(a) && Least(b)
      ensures a == b
    {
    }

    /** A pending transaction's prevouts have been looked up, and only they have. */
    ghost predicate Ready(h: Bytes, utxos: UtxoMap)
      requires h in fetched
    {
      forall p {:trigger p in fetched[h].prevouts} :: p in fetched[h].prevouts ==>
        if p.hash in all then p !in utxos
        else p in utxos && (utxos[p].Some? <==> p in db) && (p in db ==> utxos[p] == Some(db[p]))
    }

    /** Prevouts name outputs that exist, and the scripts fetched have walks. */
    ghost predicate WellFormed(txs: Txs) {
      && (forall h :: h in fetched ==> fetched[h].Walkable())
      && (forall h :: h in fetched ==> OutputsExist(fetched[h], txs))
      && (forall g, h :: g in fetched && h in fetched ==> OutputsExist(fetched[g], map[h := fetched[h]]))
    }

    lemma WellFormedMore(txs: Txs, h: Bytes, tx: MemPoolTx)
      requires WellFormed(txs) && h in fetched && tx.outPairs == fetched[h].outPairs
      ensures WellFormed(txs[h := tx]) && fetched[h].Walkable()
    {
      forall g | g in fetched
        ensures OutputsExist(fetched[g], txs[h := tx])
      {
        assert OutputsExist(fetched[g], txs) && OutputsExist(fetched[g], map[h := fetched[h]]);
      }
    }

    /** The looked up prevouts and their outputs in the database. */
    ghost predicate LookedUp(utxos: UtxoMap) {
      forall p :: p in utxos ==>
        p.hash !in all && (utxos[p].Some? <==> p in db) && (p in db ==> utxos[p] == Some(db[p]))
    }

    lemma ReadyLess(h: Bytes, utxos: UtxoMap, left: UtxoMap)
      requires h in fetched && NoDoubleSpends() && left == map p | p in utxos && p !in fetched[h].prevouts :: utxos[p]
      ensures forall g :: g in fetched && g != h && Ready(g, utxos) ==> Ready(g, left)
      ensures LookedUp(utxos) ==> LookedUp(left)
    {
    }

    lemma ReadyMerged(h: Bytes, a: UtxoMap, b: UtxoMap)
      requires h in fetched && LookedUp(a) && LookedUp(b) && (Ready(h, a) || Ready(h, b))
      ensures LookedUp(a + b) && Ready(h, a + b)
    {
    }

    /** The pair a prevout stands for. */
    function Source(p: Outpoint, txs: Txs): Option<Pair> {
      if p.hash in all then
        if p.hash in txs && p.idx < |txs[p.hash].outPairs| then Some(txs[p.hash].outPairs[p.idx]) else None
      else if p in db then Some(db[p]) else None
    }

    /** Accepted transactions have their inputs and a fee that is not negative. */
    ghost predicate Filled(accepted: set<Bytes>, txs: Txs) {
      forall h {:trigger h in accepted} :: h in accepted ==> h in fetched && h in txs && FilledIn(fetched[h], txs[h], txs)
    }

    ghost predicate FilledIn(before: MemPoolTx, tx: MemPoolTx, txs: Txs) {
      && tx.prevouts == before.prevouts && tx.outPairs == before.outPairs
      && tx.outSrefs == before.outSrefs && tx.scripts == before.scripts
      && |tx.inPairs| == |tx.prevouts|
      && (forall i :: 0 <= i < |tx.prevouts| ==> Source(tx.prevouts[i], txs) == Some(tx.inPairs[i]))
      && tx.fee == (if Total(tx.inPairs) > Total(tx.outPairs) then Total(tx.inPairs) - Total(tx.outPairs) else 0)
    }

    lemma FilledMore(accepted: set<Bytes>, txs: Txs, h: Bytes, tx: MemPoolTx)
      requires Filled(accepted, txs) && h !in txs && h in fetched && FilledIn(fetched[h], tx, txs)
      ensures Filled(accepted + {h}, txs[h := tx])
    {
      hide Total;
      forall p
        ensures Source(p, txs).Some? ==> Source(p, txs[h := tx]) == Source(p, txs)
      {
      }
    }

    /** Accepted so far: only what every closed set holds. */
    ghost predicate Within(accepted: set<Bytes>) {
      forall b: set<Bytes> :: Closed(b) ==> accepted <= b
    }

    lemma AcceptWithin(accepted: set<Bytes>, h: Bytes)
      requires Within(accepted) && h in fetched && Resolved(h, accepted)
      ensures Within(accepted + {h})
    {
      hide Sourced;
      forall b: set<Bytes> | Closed(b)
        ensures accepted + {h} <= b
      {
        ResolvedMore(h, accepted, b);
      }
    }

    lemma ResolvedMore(h: Bytes, a: set<Bytes>, b: set<Bytes>)
      requires h in fetched && Resolved(h, a) && a <= b
      ensures Resolved(h, b)
    {
      forall p | p in fetched[h].prevouts
        ensures Sourced(p, b)
      {
        assert Sourced(p, a);
      }
    }

    /** What the retry loop looks for is what is sourced. */
    lemma FoundIsSourced(h: Bytes, utxos: UtxoMap, txs: Txs, accepted: set<Bytes>)
      requires h in fetched && Ready(h, utxos) && txs.Keys == kept + accepted && txs.Keys <= all
      ensures (forall p :: p in fetched[h].prevouts ==> Found(p, utxos, txs)) <==> Resolved(h, accepted)
    {
      forall p | p in fetched[h].prevouts
        ensures Found(p, utxos, txs) <==> Sourced(p, accepted)
      {
      }
    }
  }

  class MemPool {
    var txs: Txs
    var hashXs: map<Bytes, set<Bytes>>
    var srefs: RefLists
    var outpointToRefs: OutputRefs
    ghost var accepted: set<Bytes>   // in this refresh

    constructor ()
      ensures txs == map[] && Indexes()
    {
      txs, hashXs, srefs, outpointToRefs, accepted := map[], map[], map[], map[], {};
    }

    /** All that is kept besides the transactions is what they determine. */
    ghost predicate Indexes()
      reads `txs, `hashXs, `srefs, `outpointToRefs
    {
      Indexed(hashXs, txs) && Tracked(srefs, txs) && Filed(outpointToRefs, txs)
    }

    ghost predicate State(r: Refresh)
      reads this
    {
      && txs.Keys == r.kept + accepted && txs.Keys <= r.all && accepted <= r.fetched.Keys
      && Indexes() && r.Within(accepted) && r.Filled(accepted, txs)
      && r.fetched.Keys !! r.kept && r.WellFormed(txs)
    }

    lemma Facts(r: Refresh)
      requires State(r)
      ensures txs.Keys == r.kept + accepted && txs.Keys <= r.all && accepted <= r.fetched.Keys
      ensures Indexes() && r.Within(accepted) && r.Filled(accepted, txs)
      ensures r.fetched.Keys !! r.kept && r.WellFormed(txs)
    {
    }

    /** Files an accepted transaction: under every key it touches, last in the list of every ref that it
        pushes, and its outputs with refs. */
    method IndexTx(h: Bytes, tx: MemPoolTx)
      requires Indexes() && h !in txs && tx.Walkable()
      modifies `txs, `hashXs, `srefs, `outpointToRefs
      ensures Indexes() && txs == old(txs)[h := tx]
      ensures Appended(srefs, old(srefs), h, tx.RefHashXs())
    {
      hide MemPoolTx.Touches, Indexed, Tracked, Filed, Appended, Flat;
      NotThere(srefs, outpointToRefs, txs, h);
      IndexHashXs(h, tx);
      srefs := TrackRefs(srefs, h, tx.outSrefs);
      TrackedWith(old(srefs), srefs, old(txs), h, tx);
      outpointToRefs := FileRefs(outpointToRefs, h, tx.scripts);
      FiledWith(old(outpointToRefs), outpointToRefs, old(txs), h, tx);
    }

    method IndexHashXs(h: Bytes, tx: MemPoolTx)
      requires Indexed(hashXs, txs) && h !in txs
      modifies `txs, `hashXs
      ensures Indexed(hashXs, txs) && txs == old(txs)[h := tx]
    {
      hide MemPoolTx.Touches, Indexed;
      txs := txs[h := tx];
      ghost var before := hashXs;
      var todo := tx.Touches();
      IndexedParts(before, old(txs));
      while todo != {}
        invariant todo <= tx.Touches() && txs == old(txs)[h := tx] && NoEmpty(hashXs)
        invariant forall x :: At(hashXs, x) == At(before, x) + if x in tx.Touches() - todo then {h} else {}
      {
        var x :| x in todo;
        todo := todo - {x};
        hashXs := hashXs[x := (if x in hashXs then hashXs[x] else {}) + {h}];
      }
      IndexedWith(before, hashXs, old(txs), h, tx);
    }

    /** Takes a transaction out of the mempool and of all indexes; the lists of refs keep their order. */
    method RemoveTx(h: Bytes)
      requires Indexes() && h in txs
      modifies `txs, `hashXs, `srefs, `outpointToRefs
      ensures Indexes() && txs == old(txs) - {h}
      ensures TakenOut(srefs, old(srefs), h, old(txs)[h].Touches())
    {
      hide MemPoolTx.Touches, Indexed, Tracked, Filed, TakenOut;
      var tx := txs[h];
      DropFromLists(h, tx);
      TrackedWithout(old(srefs), srefs, old(txs), h);
      outpointToRefs := UnfileRefs(outpointToRefs, h, tx.scripts, old(txs));
    }

    /** The loop over the hashXs that the transaction touches. */
    method DropFromLists(h: Bytes, tx: MemPoolTx)
      requires Indexed(hashXs, txs) && Tracked(srefs, txs) && h in txs && tx == txs[h]
      modifies `txs, `hashXs, `srefs
      ensures Indexed(hashXs, txs) && txs == old(txs) - {h}
      ensures TakenOut(srefs, old(srefs), h, tx.Touches())
    {
      hide MemPoolTx.Touches, Indexed, Tracked, TakenOut, Dropped, Distinct, ListAt, NoEmpty, NoEmptyList, At;
      ghost var before := hashXs;
      IndexedParts(before, txs);
      ListsDistinct(srefs, txs);
      NothingTakenOut(srefs, h);
      NothingDropped(hashXs, h);
      txs := txs - {h};
      var todo := tx.Touches();
      ghost var seen := {};
      while todo != {}
        invariant todo !! seen && todo + seen == tx.Touches() && txs == old(txs) - {h}
        invariant Dropped(hashXs, before, h, seen) && TakenOut(srefs, old(srefs), h, seen)
      {
        var x :| x in todo;
        hashXs := DropKey(hashXs, h, x, before, seen);
        srefs := UntrackRef(srefs, h, x, old(srefs), seen);
        todo, seen := todo - {x}, seen + {x};
      }
      assert seen == tx.Touches();
      IndexedWithout(before, hashXs, old(txs), h);
    }

    /** The pairs of the prevouts, or None if one is not found. */
    method FindInputs(tx: MemPoolTx, utxos: UtxoMap, ghost r: Refresh, ghost h: Bytes) returns (inPairs: Option<seq<Pair>>)
      requires h in r.fetched && r.Ready(h, utxos) && tx == r.fetched[h] && OutputsExist(tx, txs) && txs.Keys <= r.all
      ensures inPairs.Some? <==> forall p :: p in tx.prevouts ==> Found(p, utxos, txs)
      ensures inPairs.Some? ==>
                && |inPairs.value| == |tx.prevouts|
                && forall i :: 0 <= i < |tx.prevouts| ==> r.Source(tx.prevouts[i], txs) == Some(inPairs.value[i])
    {
      var found: seq<Pair> := [];
      for i := 0 to |tx.prevouts|
        invariant |found| == i && forall j :: 0 <= j < i ==> Found(tx.prevouts[j], utxos, txs)
        invariant forall j :: 0 <= j < i ==> r.Source(tx.prevouts[j], txs) == Some(found[j])
      {
        var p := tx.prevouts[i];
        assert p in tx.prevouts;
        if !Found(p, utxos, txs) {
          return None;
        }
        found := found + [PairOf(p, utxos, txs)];
      }
      return Some(found);
    }

    /** One pass over pending transactions: those whose inputs are found are accepted. */
    method AcceptTransactions(txMap: Txs, utxos: UtxoMap, ghost r: Refresh) returns (deferred: Txs, unspent: UtxoMap)
      requires State(r) && r.NoDoubleSpends() && Pending(r, txMap, utxos, txs.Keys)
      modifies this
      ensures State(r) && old(accepted) <= accepted && Pending(r, deferred, unspent, txs.Keys) && Extends(old(txs), txs)
      ensures txMap.Keys == deferred.Keys + (accepted - old(accepted)) && deferred.Keys !! accepted
      ensures deferred.Keys == txMap.Keys ==> NoneResolved(r, txMap.Keys, accepted)
    {
      hide State, Refresh.Resolved, Refresh.Ready, Refresh.LookedUp, Refresh.NoDoubleSpends, Refresh.WellFormed, Found,
        Extends, Pending, AllReady, NoneResolved, Parts, Grown;
      deferred, unspent := map[], utxos;
      var todo := txMap.Keys;
      ghost var taken := {};
      Facts(r);
      ExtendsSelf(txs);
      PendingNone(r, txMap, utxos, txs.Keys, accepted);
      assert deferred.Keys == {};
      PartsStart(txMap.Keys);
      GrownStart(accepted);
      GrownStart(txs.Keys);
      while todo != {}
        invariant State(r) && Extends(old(txs), txs)
        invariant Grown(old(accepted), accepted, taken) && Grown(old(txs.Keys), txs.Keys, taken)
        invariant Parts(txMap.Keys, todo, deferred.Keys, taken)
        invariant Pending(r, deferred, unspent, txs.Keys) && AllReady(r, todo, unspent)
        invariant taken == {} ==> NoneResolved(r, deferred.Keys, accepted)
      {
        var h :| h in todo;
        PendingAt(r, txMap, utxos, old(txs.Keys), h);
        ReadyAt(r, todo, unspent, h);
        PartsMove(txMap.Keys, todo, deferred.Keys, taken, h);
        GrownNot(old(txs.Keys), txs.Keys, taken, h);
        todo := todo - {h};
        var inPairs := TryAccept(h, txMap[h], utxos, r);
        if inPairs == None {
          PendingAdd(r, deferred, unspent, txs.Keys, h);
          NoneResolvedAdd(r, deferred.Keys, accepted, h);
          ghost var keys := deferred.Keys;
          deferred := deferred[h := txMap[h]];
          assert deferred.Keys == keys + {h};
        } else {
          ghost var txs0, unspent0, accepted0 := txs, unspent, accepted;
          unspent := Accept(h, txMap[h], inPairs.value, unspent, r);
          ExtendsTwice(old(txs), txs0, txs);
          PendingAfter(r, deferred, unspent0, unspent, txs0.Keys, h);
          ReadyAfter(r, todo, unspent0, unspent, h);
          GrownStep(old(accepted), accepted0, taken, h);
          GrownStep(old(txs.Keys), txs0.Keys, taken, h);
          taken := taken + {h};
        }
      }
      Facts(r);
      TakenAre(r, txMap, utxos, old(txs.Keys), old(accepted), accepted, taken, deferred.Keys);
    }

    method TryAccept(h: Bytes, tx: MemPoolTx, utxos: UtxoMap, ghost r: Refresh) returns (inPairs: Option<seq<Pair>>)
      requires State(r) && h in r.fetched && tx == r.fetched[h] && r.Ready(h, utxos)
      ensures inPairs.Some? <==> r.Resolved(h, accepted)
      ensures inPairs.Some? ==>
                && |inPairs.value| == |tx.prevouts|
                && forall i :: 0 <= i < |tx.prevouts| ==> r.Source(tx.prevouts[i], txs) == Some(inPairs.value[i])
    {
      hide Found, Refresh.Filled, Refresh.Within, Indexes, Refresh.Ready, Refresh.Source, OutputsExist, Refresh.Resolved;
      r.FoundIsSourced(h, utxos, txs, accepted);
      inPairs := FindInputs(tx, utxos, r, h);
    }

    method Accept(h: Bytes, tx: MemPoolTx, inPairs: seq<Pair>, unspent0: UtxoMap, ghost r: Refresh) returns (unspent: UtxoMap)
      requires State(r) && r.NoDoubleSpends() && h in r.fetched && h !in txs && tx == r.fetched[h] && h in r.all
      requires r.Resolved(h, accepted) && |inPairs| == |tx.prevouts|
      requires forall i :: 0 <= i < |tx.prevouts| ==> r.Source(tx.prevouts[i], txs) == Some(inPairs[i])
      modifies this
      ensures State(r) && accepted == old(accepted) + {h} && Extends(old(txs), txs) && txs.Keys == old(txs).Keys + {h}
      ensures forall g :: g in r.fetched && g != h && r.Ready(g, unspent0) ==> r.Ready(g, unspent)
      ensures r.LookedUp(unspent0) ==> r.LookedUp(unspent)
    {
      hide Refresh.Source, Refresh.Filled, Refresh.Within, Refresh.Resolved, Indexes, Refresh.WellFormed, Refresh.NoDoubleSpends,
        Refresh.Ready, Refresh.LookedUp;
      unspent := map p | p in unspent0 && p !in tx.prevouts :: unspent0[p];
      r.ReadyLess(h, unspent0, unspent);
      var paid := Total(inPairs) - Total(tx.outPairs);
      var tx' := tx.(inPairs := inPairs, fee := if paid > 0 then paid else 0);
      r.FilledMore(accepted, txs, h, tx');
      r.AcceptWithin(accepted, h);
      r.WellFormedMore(txs, h, tx');
      IndexTx(h, tx');
      accepted := accepted + {h};
    }

    /** Looks the prevouts of a chunk up and accepts what it can of it. */
    method FetchAndAccept(chunk: Txs, all: set<Bytes>, db: map<Outpoint, Pair>, ghost r: Refresh)
      returns (deferred: Txs, unspent: UtxoMap)
      requires State(r) && r.NoDoubleSpends() && r.all == all && r.db == db
      requires forall h :: h in chunk ==> h in r.fetched && chunk[h] == r.fetched[h] && h !in txs && h in all
      modifies this
      ensures State(r) && old(accepted) <= accepted && Pending(r, deferred, unspent, txs.Keys) && Extends(old(txs), txs)
      ensures chunk.Keys == deferred.Keys + (accepted - old(accepted)) && deferred.Keys !! accepted
    {
      hide Refresh.Resolved, Refresh.Filled, Refresh.Within, Refresh.NoDoubleSpends, Indexes, Found, OutputsExist;
      var prevouts := set h, p | h in chunk && p in chunk[h].prevouts && p.hash !in all :: p;
      var utxos := map p | p in prevouts :: if p in db then Some(db[p]) else None;
      deferred, unspent := AcceptTransactions(chunk, utxos, r);
    }

    /** Drops the transactions that have left the daemon's mempool. */
    method RemoveDisappeared(all: set<Bytes>)
      requires Indexes()
      modifies `txs, `hashXs, `srefs, `outpointToRefs
      ensures Indexes() && txs == map h | h in old(txs) && h in all :: old(txs)[h]
    {
      hide Indexes;
      var todo := txs.Keys - all;
      while todo != {}
        invariant todo <= txs.Keys && Indexes()
        invariant txs == map h | h in old(txs) && (h in all || h in todo) :: old(txs)[h]
      {
        var h :| h in todo;
        todo := todo - {h};
        RemoveTx(h);
      }
    }

    /** A refresh against the daemon's hashes.  `chunks` are the new transactions, as they arrive. */
    method ProcessMempool(all: set<Bytes>, chunks: seq<Txs>, db: map<Outpoint, Pair>, ghost r: Refresh)
      requires Indexes() && r.all == all && r.db == db && r.kept == txs.Keys * all
      requires r.fetched == Union(chunks) && Disjoint(chunks) && r.fetched.Keys <= all - txs.Keys
      requires r.NoDoubleSpends()
      requires forall h :: h in r.fetched ==> OutputsExist(r.fetched[h], txs)
      requires forall g, h :: g in r.fetched && h in r.fetched ==> OutputsExist(r.fetched[g], map[h := r.fetched[h]])
      requires forall h :: h in r.fetched ==> r.fetched[h].Walkable()
      modifies this
      ensures r.Least(accepted) && txs.Keys == r.kept + accepted
      ensures Indexes() && r.Filled(accepted, txs)
      ensures forall h :: h in r.kept ==> txs[h] == old(txs)[h]
    {
      hide State, Refresh.Resolved, Refresh.Filled, Refresh.Within, Refresh.NoDoubleSpends, Refresh.WellFormed, Indexes, Found,
        Refresh.LookedUp, Pending, NoneResolved, Extends, Refresh.Least, OutputsExist;
      RemoveDisappeared(all);
      ghost var kept := txs;
      accepted := {};
      Begin(r, old(txs));
      ExtendsSelf(txs);
      var txMap, utxos := AcceptChunks(all, chunks, db, r);
      ghost var txs0 := txs;
      Retry(txMap, utxos, r);
      ExtendsTwice(kept, txs0, txs);
      Facts(r);
      KeptSame(old(txs), kept, txs, r);
    }

    /** The chunks, one after the other, and what they left over together. */
    method AcceptChunks(all: set<Bytes>, chunks: seq<Txs>, db: map<Outpoint, Pair>, ghost r: Refresh)
      returns (txMap: Txs, utxos: UtxoMap)
      requires State(r) && accepted == {} && r.NoDoubleSpends() && r.all == all && r.db == db && r.fetched.Keys <= all
      requires r.fetched == Union(chunks) && Disjoint(chunks)
      modifies this
      ensures State(r) && Extends(old(txs), txs) && Pending(r, txMap, utxos, txs.Keys)
      ensures Parts(r.fetched.Keys, txMap.Keys, {}, accepted)
    {
      hide State, Refresh.NoDoubleSpends, Pending, Extends, Parts, Union, Disjoint;
      txMap, utxos := map[], map[];
      NothingPending(r, txs.Keys);
      ExtendsSelf(txs);
      NoChunks(chunks);
      for i := 0 to |chunks|
        invariant State(r) && Extends(old(txs), txs) && Pending(r, txMap, utxos, txs.Keys)
        invariant Parts(Union(chunks[..i]).Keys, txMap.Keys, {}, accepted)
      {
        ChunkStep(r, chunks, i);
        Facts(r);
        ghost var txs0, accepted0, txMap0 := txs, accepted, txMap;
        ChunkNew(r, chunks, i, txMap.Keys, accepted, txs.Keys);
        var deferred, unspent := FetchAndAccept(chunks[i], all, db, r);
        ExtendsTwice(old(txs), txs0, txs);
        Facts(r);
        PartsMerge(Union(chunks[..i]).Keys, txMap.Keys, accepted0, chunks[i].Keys, deferred.Keys, accepted);
        PendingApart(r, txMap, utxos, txs0.Keys, accepted0, chunks[i].Keys, deferred.Keys, accepted, txs.Keys);
        Merge(r, txMap, utxos, txs0.Keys, deferred, unspent, txs.Keys);
        txMap := txMap + deferred;
        utxos := utxos + unspent;
        assert txMap.Keys == txMap0.Keys + deferred.Keys;
      }
      assert chunks[..|chunks|] == chunks;
    }

    /** Tries what was deferred again, until a pass accepts nothing. */
    method Retry(txMap0: Txs, utxos0: UtxoMap, ghost r: Refresh)
      requires State(r) && r.NoDoubleSpends() && Pending(r, txMap0, utxos0, txs.Keys)
      requires Parts(r.fetched.Keys, txMap0.Keys, {}, accepted)
      modifies this
      ensures State(r) && Extends(old(txs), txs) && r.Least(accepted)
    {
      hide State, Refresh.NoDoubleSpends, Pending, Extends, Parts, NoneResolved, Refresh.Least;
      var txMap, utxos := txMap0, utxos0;
      var priorCount := 0;
      ExtendsSelf(txs);
      while txMap != map[] && |txMap| != priorCount
        invariant State(r) && Extends(old(txs), txs) && Pending(r, txMap, utxos, txs.Keys)
        invariant Parts(r.fetched.Keys, txMap.Keys, {}, accepted)
        invariant priorCount > 0 && |txMap| == priorCount ==> NoneResolved(r, txMap.Keys, accepted)
        decreases |txMap| + if |txMap| != priorCount then 1 else 0
      {
        priorCount := |txMap|;
        ghost var txs0, txMap1, accepted0 := txs, txMap, accepted;
        txMap, utxos := AcceptTransactions(txMap, utxos, r);
        ExtendsTwice(old(txs), txs0, txs);
        FewerKeys(txMap, txMap1);
        PartsRetry(r.fetched.Keys, txMap1.Keys, accepted0, txMap.Keys, accepted);
      }
      Facts(r);
      NothingLeft(r, txMap.Keys, accepted);
      Finished(r, txMap.Keys, accepted);
    }

    lemma Begin(r: Refresh, before: Txs)
      requires Indexes() && accepted == {} && r.kept == before.Keys * r.all
      requires txs == map h | h in before && h in r.all :: before[h]
      requires r.fetched.Keys <= r.all - before.Keys
      requires forall h :: h in r.fetched ==> OutputsExist(r.fetched[h], before)
      requires forall g, h :: g in r.fetched && h in r.fetched ==> OutputsExist(r.fetched[g], map[h := r.fetched[h]])
      requires forall h :: h in r.fetched ==> r.fetched[h].Walkable()
      ensures State(r)
    {
      hide Indexes;
    }
  }

  lemma NothingPending(r: Refresh, inMempool: set<Bytes>)
    ensures Pending(r, map[], map[], inMempool)
  {
  }

  lemma NoChunks(chunks: seq<Txs>)
    ensures forall none: Txs :: none == map[] ==> Parts(Union(chunks[..0]).Keys, none.Keys, {}, {})
  {
  }

  lemma ChunkStep(r: Refresh, chunks: seq<Txs>, i: nat)
    requires i < |chunks| && Disjoint(chunks) && r.fetched == Union(chunks)
    ensures Union(chunks[..i + 1]).Keys == Union(chunks[..i]).Keys + chunks[i].Keys
    ensures chunks[i].Keys !! Union(chunks[..i]).Keys
    ensures forall h :: h in chunks[i] ==> h in r.fetched && r.fetched[h] == chunks[i][h]
  {
    hide Union, Disjoint;
    UnionSnoc(chunks, i);
    UnionKeys(chunks[..i]);
    UnionAt(chunks, i);
    assert forall j :: 0 <= j < i ==> chunks[..i][j] == chunks[j];
    Apart(chunks, i);
  }

  lemma Apart(chunks: seq<Txs>, i: nat)
    requires i < |chunks| && Disjoint(chunks)
    ensures forall j :: 0 <= j < i ==> chunks[j].Keys !! chunks[i].Keys
  {
  }

  lemma UnionSnoc(chunks: seq<Txs>, i: nat)
    requires i < |chunks|
    ensures Union(chunks[..i + 1]).Keys == Union(chunks[..i]).Keys + chunks[i].Keys
  {
    assert chunks[..i + 1][..i] == chunks[..i];
  }

  lemma ChunkNew(r: Refresh, chunks: seq<Txs>, i: nat, pending: set<Bytes>, accepted: set<Bytes>, inMempool: set<Bytes>)
    requires i < |chunks| && Parts(Union(chunks[..i]).Keys, pending, {}, accepted)
    requires chunks[i].Keys !! Union(chunks[..i]).Keys && chunks[i].Keys <= r.fetched.Keys
    requires inMempool == r.kept + accepted && r.fetched.Keys !! r.kept
    ensures pending !! chunks[i].Keys && forall h :: h in chunks[i] ==> h !in inMempool
  {
    hide Union;
  }

  lemma PartsMerge(
      done: set<Bytes>, pending: set<Bytes>, accepted: set<Bytes>, chunk: set<Bytes>, deferred: set<Bytes>, accepted': set<Bytes>)
    requires Parts(done, pending, {}, accepted) && done !! chunk && accepted <= accepted'
    requires chunk == deferred + (accepted' - accepted) && deferred !! accepted'
    ensures Parts(done + chunk, pending + deferred, {}, accepted')
  {
  }

  lemma PartsRetry(whole: set<Bytes>, pending: set<Bytes>, accepted: set<Bytes>, deferred: set<Bytes>, accepted': set<Bytes>)
    requires Parts(whole, pending, {}, accepted) && accepted <= accepted'
    requires pending == deferred + (accepted' - accepted) && deferred !! accepted'
    ensures Parts(whole, deferred, {}, accepted') && deferred <= pending
  {
  }

  lemma PendingApart(
      r: Refresh, txMap: Txs, utxos: UtxoMap, before: set<Bytes>, accepted: set<Bytes>, chunk: set<Bytes>, deferred: set<Bytes>,
      accepted': set<Bytes>, after: set<Bytes>)
    requires Pending(r, txMap, utxos, before) && before == r.kept + accepted && after == r.kept + accepted'
    requires accepted <= accepted' && chunk == deferred + (accepted' - accepted) && txMap.Keys !! chunk
    ensures txMap.Keys !! after
  {
    hide Refresh.Ready, Refresh.LookedUp;
  }

  lemma NothingLeft(r: Refresh, left: set<Bytes>, accepted: set<Bytes>)
    ensures left == {} ==> NoneResolved(r, left, accepted)
  {
  }

  lemma KeptSame(before: Txs, kept: Txs, after: Txs, r: Refresh)
    requires kept == map h | h in before && h in r.all :: before[h]
    requires r.kept == before.Keys * r.all && Extends(kept, after)
    ensures forall h :: h in r.kept ==> h in after && after[h] == before[h]
  {
  }

  lemma {:induction false} UnionKeys(chunks: seq<Txs>)
    ensures forall h :: h in Union(chunks) <==> exists i :: 0 <= i < |chunks| && h in chunks[i]
  {
    if chunks != [] {
      UnionKeys(chunks[..|chunks| - 1]);
    }
  }

  lemma {:induction false} UnionAt(chunks: seq<Txs>, i: nat)
    requires i < |chunks| && Disjoint(chunks)
    ensures forall h :: h in chunks[i] ==> h in Union(chunks) && Union(chunks)[h] == chunks[i][h]
  {
    if i < |chunks| - 1 {
      UnionAt(chunks[..|chunks| - 1], i);
    }
  }

  lemma Merge(
      r: Refresh, txMap: Txs, utxos: UtxoMap, before: set<Bytes>, deferred: Txs, unspent: UtxoMap, after: set<Bytes>)
    requires Pending(r, txMap, utxos, before) && Pending(r, deferred, unspent, after)
    requires txMap.Keys !! after
    ensures Pending(r, txMap + deferred, utxos + unspent, after)
  {
    hide Refresh.Ready, Refresh.LookedUp;
    forall h | h in txMap + deferred
      ensures r.Ready(h, utxos + unspent) && r.LookedUp(utxos + unspent)
    {
      r.ReadyMerged(h, utxos, unspent);
    }
    LookedUpMerged(r, utxos, unspent);
  }

  lemma LookedUpMerged(r: Refresh, a: UtxoMap, b: UtxoMap)
    requires r.LookedUp(a) && r.LookedUp(b)
    ensures r.LookedUp(a + b)
  {
  }

  lemma FewerKeys(a: Txs, b: Txs)
    requires a.Keys <= b.Keys
    ensures |a| <= |b| && (|a| == |b| ==> a.Keys == b.Keys)
  {
    assert |a| == |a.Keys| && |b| == |b.Keys|;
    Cardinality(a.Keys, b.Keys);
  }

  lemma {:induction false} Cardinality(a: set<Bytes>, b: set<Bytes>)
    requires a <= b
    ensures |a| <= |b| && (|a| == |b| ==> a == b)
    decreases |a|
  {
    if x :| x in a {
      Cardinality(a - {x}, b - {x});
      assert a == (a - {x}) + {x} && b == (b - {x}) + {x};
    }
  }

  lemma Finished(r: Refresh, left: set<Bytes>, accepted: set<Bytes>)
    requires r.Within(accepted) && Parts(r.fetched.Keys, left, {}, accepted)
    requires NoneResolved(r, left, accepted)
    ensures r.Least(accepted)
  {
    hide Refresh.Resolved;
  }

  ghost predicate AllReady(r: Refresh, hs: set<Bytes>, utxos: UtxoMap) {
    forall h :: h in hs ==> h in r.fetched && r.Ready(h, utxos)
  }

  ghost predicate NoneResolved(r: Refresh, hs: set<Bytes>, accepted: set<Bytes>) {
    forall h :: h in hs ==> h in r.fetched && !r.Resolved(h, accepted)
  }

  lemma PendingNone(r: Refresh, txMap: Txs, utxos: UtxoMap, inMempool: set<Bytes>, accepted: set<Bytes>)
    requires Pending(r, txMap, utxos, inMempool)
    ensures Pending(r, map[], utxos, inMempool) && AllReady(r, txMap.Keys, utxos) && NoneResolved(r, {}, accepted)
  {
  }

  lemma ReadyAt(r: Refresh, hs: set<Bytes>, utxos: UtxoMap, h: Bytes)
    requires AllReady(r, hs, utxos) && h in hs
    ensures h in r.fetched && r.Ready(h, utxos) && AllReady(r, hs - {h}, utxos)
  {
  }

  lemma ReadyAfter(r: Refresh, hs: set<Bytes>, utxos: UtxoMap, unspent: UtxoMap, h: Bytes)
    requires AllReady(r, hs, utxos) && h !in hs
    requires forall g :: g in r.fetched && g != h && r.Ready(g, utxos) ==> r.Ready(g, unspent)
    ensures AllReady(r, hs, unspent)
  {
    hide Refresh.Ready;
  }

  lemma NoneResolvedAdd(r: Refresh, hs: set<Bytes>, accepted: set<Bytes>, h: Bytes)
    requires h in r.fetched && !r.Resolved(h, accepted)
    ensures NoneResolved(r, hs, accepted) ==> NoneResolved(r, hs + {h}, accepted)
  {
    hide Refresh.Resolved;
  }

  lemma PendingAt(r: Refresh, txMap: Txs, utxos: UtxoMap, inMempool: set<Bytes>, h: Bytes)
    requires Pending(r, txMap, utxos, inMempool) && h in txMap
    ensures h in r.fetched && txMap[h] == r.fetched[h] && h !in inMempool && h in r.all && r.Ready(h, utxos)
  {
  }

  lemma PendingAdd(r: Refresh, deferred: Txs, unspent: UtxoMap, inMempool: set<Bytes>, h: Bytes)
    requires Pending(r, deferred, unspent, inMempool)
    requires h in r.fetched && h !in inMempool && h in r.all && r.Ready(h, unspent)
    ensures Pending(r, deferred[h := r.fetched[h]], unspent, inMempool)
  {
    hide Refresh.Ready, Refresh.LookedUp;
  }

  lemma PendingAfter(r: Refresh, deferred: Txs, utxos: UtxoMap, unspent: UtxoMap, inMempool: set<Bytes>, h: Bytes)
    requires Pending(r, deferred, utxos, inMempool) && h !in deferred
    requires forall g :: g in r.fetched && g != h && r.Ready(g, utxos) ==> r.Ready(g, unspent)
    requires r.LookedUp(utxos) ==> r.LookedUp(unspent)
    ensures Pending(r, deferred, unspent, inMempool + {h})
  {
    hide Refresh.Ready, Refresh.LookedUp;
  }

  predicate Grown(before: set<Bytes>, after: set<Bytes>, more: set<Bytes>) {
    after == before + more
  }

  lemma GrownStart(a: set<Bytes>)
    ensures Grown(a, a, {})
  {
  }

  lemma GrownStep(before: set<Bytes>, after: set<Bytes>, more: set<Bytes>, h: Bytes)
    requires Grown(before, after, more)
    ensures Grown(before, after + {h}, more + {h})
  {
  }

  lemma GrownNot(before: set<Bytes>, after: set<Bytes>, more: set<Bytes>, h: Bytes)
    requires Grown(before, after, more) && h !in before && h !in more
    ensures h !in after
  {
  }

  /** A set in three parts. */
  predicate Parts(whole: set<Bytes>, a: set<Bytes>, b: set<Bytes>, c: set<Bytes>) {
    a + b + c == whole && a !! b && a !! c && b !! c
  }

  lemma PartsStart(whole: set<Bytes>)
    ensures Parts(whole, whole, {}, {})
  {
  }

  lemma PartsMove(whole: set<Bytes>, a: set<Bytes>, b: set<Bytes>, c: set<Bytes>, h: Bytes)
    requires Parts(whole, a, b, c) && h in a
    ensures Parts(whole, a - {h}, b + {h}, c) && Parts(whole, a - {h}, b, c + {h})
    ensures h !in b && h !in c && h in whole
  {
  }

  lemma TakenAre(
      r: Refresh, txMap: Txs, utxos: UtxoMap, inMempool: set<Bytes>, before: set<Bytes>, after: set<Bytes>, taken: set<Bytes>,
      left: set<Bytes>)
    requires Pending(r, txMap, utxos, inMempool) && before <= inMempool && Parts(txMap.Keys, {}, left, taken)
    requires Grown(before, after, taken)
    ensures before <= after && txMap.Keys == left + (after - before) && left !! after
    ensures left == txMap.Keys ==> taken == {}
  {
    hide Refresh.Ready, Refresh.LookedUp;
  }

  ghost predicate Extends(a: Txs, b: Txs) {
    forall h :: h in a ==> h in b && b[h] == a[h]
  }

  lemma ExtendsSelf(a: Txs)
    ensures Extends(a, a)
  {
  }

  lemma ExtendsTwice(a: Txs, b: Txs, c: Txs)
    requires Extends(a, b) && Extends(b, c)
    ensures Extends(a, c)
  {
  }

  function Union(chunks: seq<Txs>): Txs {
    if chunks == [] then map[] else Union(chunks[..|chunks| - 1]) + chunks[|chunks| - 1]
  }

  predicate Disjoint(chunks: seq<Txs>) {
    forall i, j :: 0 <= i < j < |chunks| ==> chunks[i].Keys !! chunks[j].Keys
  }

  /** Fetched transactions that are not in the mempool, with their prevouts looked up. */
  ghost predicate Pending(r: Refresh, txMap: Txs, utxos: UtxoMap, inMempool: set<Bytes>) {
    r.LookedUp(utxos) && forall h :: h in txMap ==>
      h in r.fetched && txMap[h] == r.fetched[h] && h !in inMempool && h in r.all && r.Ready(h, utxos)
  }
}
