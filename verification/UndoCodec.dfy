/** The compact binary form of undo entries: `encode_undo` and `decode_undo` of
    electrumx/lib/util.py. */
module UndoCodec {
  import opened ByteStrings

  /** A key and its value before the first write of a block; None if it had no row. */
  datatype Entry = Entry(key: Bytes, prev: Option<Bytes>)

  const SENTINEL := 0xFFFF_FFFF

  lemma {:induction false} Ranges()
    ensures Range(2) == 0x1_0000 && Range(4) == SENTINEL + 1
  {
    assert Range(1) == 256 * Range(0);
    assert Range(2) == 256 * Range(1);
    assert Range(3) == 256 * Range(2);
    assert Range(4) == 256 * Range(3);
  }

  /** The lengths fit their fields; otherwise packing raises. */
  predicate Packable(e: Entry) {
    |e.key| < 0x1_0000 && (e.prev.Some? ==> |e.prev.value| <= SENTINEL)
  }

  function EncodeEntry(e: Entry): (b: Bytes)
    ensures |b| >= 6
  {
    BE(|e.key|, 2) + e.key + BE(if e.prev.None? then SENTINEL else |e.prev.value|, 4)
    + if e.prev.None? then [] else e.prev.value
  }

  function Encode(entries: seq<Entry>): Bytes {
    if entries == [] then [] else EncodeEntry(entries[0]) + Encode(entries[1..])
  }

  // ----- Decoding: slices past the end are short, as in the source -----

  function Take(b: Bytes, n: nat): Bytes {
    if n <= |b| then b[..n] else b
  }

  function Drop(b: Bytes, n: nat): (r: Bytes)
    ensures |r| == if n <= |b| then |b| - n else 0
  {
    if n <= |b| then b[n..] else []
  }

  /** The first entry and what follows it; None where the source stops. */
  function DecodeEntry(raw: Bytes): (r: Option<(Entry, Bytes)>)
    ensures r.Some? ==> |r.value.1| < |raw|
  {
    if |raw| < 2 then None
    else
      var keyLen := FromBE(raw[..2]);
      var key := Take(raw[2..], keyLen);
      var rest := Drop(raw[2..], keyLen);
      if |rest| < 4 then None
      else
        var valLen := FromBE(rest[..4]);
        if valLen == SENTINEL then Some((Entry(key, None), rest[4..]))
        else Some((Entry(key, Some(Take(rest[4..], valLen))), Drop(rest[4..], valLen)))
  }

  function Decode(raw: Bytes): seq<Entry>
    decreases |raw|
  {
    match DecodeEntry(raw)
    case None => []
    case Some(r) => [r.0] + Decode(r.1)
  }

  /** An entry reads back as it is, except that a value as long as the sentinel is lost. */
  lemma EntryReadsBack(e: Entry, tail: Bytes)
    requires Packable(e)
    ensures e.prev != None && |e.prev.value| == SENTINEL ==>
              DecodeEntry(EncodeEntry(e) + tail) == Some((Entry(e.key, None), e.prev.value + tail))
    ensures (e.prev == None || |e.prev.value| < SENTINEL) ==> DecodeEntry(EncodeEntry(e) + tail) == Some((e, tail))
  {
    hide BE, FromBE, Range;
    Ranges();
    var raw := EncodeEntry(e) + tail;
    var len := if e.prev.None? then SENTINEL else |e.prev.value|;
    var val := if e.prev.None? then [] else e.prev.value;
    FromBeOfBe(|e.key|, 2);
    FromBeOfBe(len, 4);
    assert raw[..2] == BE(|e.key|, 2);
    assert raw[2..] == e.key + (BE(len, 4) + val + tail);
    assert Take(raw[2..], |e.key|) == e.key;
    var rest := Drop(raw[2..], |e.key|);
    assert rest == BE(len, 4) + val + tail;
    assert rest[..4] == BE(len, 4) && rest[4..] == val + tail;
    assert Take(val + tail, |val|) == val && Drop(val + tail, |val|) == tail;
  }

  predicate RoundTrips(entries: seq<Entry>) {
    Decode(Encode(entries)) == entries
  }

  predicate BelowSentinel(entries: seq<Entry>) {
    forall i :: 0 <= i < |entries| && entries[i].prev.Some? ==> |entries[i].prev.value| < SENTINEL
  }

  /** Undo entries survive the round trip if and only if no saved value has the length that
      stands for an absent value. */
  lemma {:induction false} RoundTripIff(entries: seq<Entry>)
    requires forall i :: 0 <= i < |entries| ==> Packable(entries[i])
    ensures RoundTrips(entries) <==> BelowSentinel(entries)
  {
    hide EncodeEntry, DecodeEntry;
    if entries != [] {
      var e, rest := entries[0], entries[1..];
      assert forall i :: 0 <= i < |rest| ==> rest[i] == entries[i + 1];
      RoundTripIff(rest);
      EntryReadsBack(e, Encode(rest));
      assert entries == [e] + rest;
      var d := Decode(Encode(entries));
      if e.prev.Some? && |e.prev.value| == SENTINEL {
        assert d[0].prev == None;
      } else {
        assert d == [e] + Decode(Encode(rest));
        assert d[1..] == Decode(Encode(rest));
        BelowSentinelCons(entries);
      }
    }
  }

  lemma BelowSentinelCons(entries: seq<Entry>)
    requires entries != [] && (entries[0].prev.Some? ==> |entries[0].prev.value| < SENTINEL)
    ensures BelowSentinel(entries) <==> BelowSentinel(entries[1..])
  {
    var rest := entries[1..];
    if BelowSentinel(rest) {
      forall i | 0 <= i < |entries| && entries[i].prev.Some?
        ensures |entries[i].prev.value| < SENTINEL
      {
        if i > 0 {
          assert rest[i - 1] == entries[i];
        }
      }
    }
  }

  /** An empty encoding, which backing up takes for "no undo row", means no entry. */
  lemma EncodeEmpty(entries: seq<Entry>)
    ensures Encode(entries) == [] <==> entries == []
  {
  }

  // ----- The loops of the source -----

  lemma {:induction false} EncodeAppend(entries: seq<Entry>, e: Entry)
    ensures Encode(entries + [e]) == Encode(entries) + EncodeEntry(e)
  {
    hide EncodeEntry;
    if entries == [] {
      assert entries + [e] == [e] && [e][1..] == [];
      assert Encode([e]) == EncodeEntry(e) + Encode([]);
    } else {
      assert (entries + [e])[1..] == entries[1..] + [e];
      EncodeAppend(entries[1..], e);
    }
  }

  method EncodeUndo(entries: seq<Entry>) returns (r: Option<Bytes>)
    ensures r.Some? <==> forall i :: 0 <= i < |entries| ==> Packable(entries[i])
    ensures r.Some? ==> r.value == Encode(entries)
  {
    hide BE, EncodeEntry, Encode;
    var parts: Bytes := [];
    EncodeNone();
    assert entries[..0] == [];
    for i := 0 to |entries|
      invariant parts == Encode(entries[..i])
      invariant forall j :: 0 <= j < i ==> Packable(entries[j])
    {
      var e := entries[i];
      assert entries[..i + 1] == entries[..i] + [e];
      EncodeAppend(entries[..i], e);
      PartsOf(parts, e);
      if |e.key| >= 0x1_0000 {
        return None;
      }
      parts := parts + BE(|e.key|, 2) + e.key;
      if e.prev.None? {
        parts := parts + BE(SENTINEL, 4);
      } else {
        if |e.prev.value| > SENTINEL {
          return None;
        }
        parts := parts + BE(|e.prev.value|, 4) + e.prev.value;
      }
    }
    assert entries[..|entries|] == entries;
    return Some(parts);
  }

  lemma EncodeNone()
    ensures Encode([]) == []
  {
  }

  lemma PartsOf(parts: Bytes, e: Entry)
    ensures parts + EncodeEntry(e)
            == match e.prev
               case None => parts + BE(|e.key|, 2) + e.key + BE(SENTINEL, 4)
               case Some(v) => parts + BE(|e.key|, 2) + e.key + BE(|v|, 4) + v
  {
    hide BE;
  }

  lemma DropDrop(b: Bytes, m: nat, n: nat)
    ensures Drop(Drop(b, m), n) == Drop(b, m + n)
  {
  }

  lemma DropHead(b: Bytes, m: nat, n: nat)
    requires m + n <= |b|
    ensures b[m..m + n] == Drop(b, m)[..n] && Drop(b, m)[n..] == Drop(b, m + n)
  {
  }

  /** What decoding one entry at `pos` finds, in terms of positions. */
  lemma DecodeAt(raw: Bytes, pos: nat)
    requires pos < |raw|
    ensures DecodeEntry(Drop(raw, pos)) ==
            if pos + 2 > |raw| then None
            else
              var keyEnd := pos + 2 + FromBE(raw[pos..pos + 2]);
              if keyEnd + 4 > |raw| then None
              else
                var key := Take(Drop(raw, pos + 2), keyEnd - pos - 2);
                var len := FromBE(raw[keyEnd..keyEnd + 4]);
                if len == SENTINEL then Some((Entry(key, None), Drop(raw, keyEnd + 4)))
                else Some((Entry(key, Some(Take(Drop(raw, keyEnd + 4), len))), Drop(raw, keyEnd + 4 + len)))
  {
    hide FromBE, Drop, Take;
    if pos + 2 <= |raw| {
      DropHead(raw, pos, 2);
      var keyLen := FromBE(raw[pos..pos + 2]);
      var keyEnd := pos + 2 + keyLen;
      DropDrop(raw, pos + 2, keyLen);
      if keyEnd + 4 <= |raw| {
        DropHead(raw, keyEnd, 4);
        DropDrop(raw, keyEnd + 4, FromBE(raw[keyEnd..keyEnd + 4]));
      }
    }
  }

  lemma DecodeStep(entries: seq<Entry>, raw: Bytes)
    ensures entries + Decode(raw) ==
            match DecodeEntry(raw)
            case None => entries
            case Some(r) => entries + [r.0] + Decode(r.1)
  {
    hide DecodeEntry;
  }

  method DecodeUndo(raw: Bytes) returns (entries: seq<Entry>)
    ensures entries == Decode(raw)
  {
    hide FromBE, Drop, Take, Decode, DecodeEntry;
    entries := [];
    var pos, n := 0, |raw|;
    AllAhead(raw);
    while pos < n
      invariant Decode(raw) == entries + Decode(Drop(raw, pos))
      invariant pos >= n ==> Decode(raw) == entries
      decreases n - pos
    {
      DecodeAt(raw, pos);
      DecodeStep(entries, Drop(raw, pos));
      if pos + 2 > n {
        return;
      }
      var keyLen := FromBE(raw[pos..pos + 2]);
      pos := pos + 2;
      var key := Take(Drop(raw, pos), keyLen);
      pos := pos + keyLen;
      if pos + 4 > n {
        return;
      }
      var valLen := FromBE(raw[pos..pos + 4]);
      pos := pos + 4;
      if valLen == SENTINEL {
        entries := entries + [Entry(key, None)];
      } else {
        var val := Take(Drop(raw, pos), valLen);
        pos := pos + valLen;
        entries := entries + [Entry(key, Some(val))];
      }
      NothingAhead(raw, pos);
    }
  }

  lemma AllAhead(raw: Bytes)
    ensures Drop(raw, 0) == raw && (raw == [] ==> Decode(raw) == [])
  {
  }

  lemma NothingAhead(raw: Bytes, pos: nat)
    ensures pos >= |raw| ==> Decode(Drop(raw, pos)) == []
  {
  }
}
