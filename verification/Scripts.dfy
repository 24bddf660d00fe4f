/** The opcode walkers of electrumx/lib/script.py and the one of
    electrumx/server/glyph_index.py.

    Every walker steps through the script by itself in the source, and does so here.  The
    reference is `Walk`: the list of operations, or None on a truncated script. */
module Scripts {
  import opened ByteStrings

  /** The source raises ScriptError, IndexError or struct.error; callers catch them alike. */
  datatype Checked<+T> = Ok(value: T) | ScriptError

  const OP_PUSHDATA1: Byte := 0x4c
  const OP_PUSHDATA2: Byte := 0x4d
  const OP_PUSHDATA4: Byte := 0x4e
  const OP_DROP: Byte := 0x75
  const OP_2DROP: Byte := 0x6d
  const OP_DUP: Byte := 0x76
  const OP_EQUAL: Byte := 0x87
  const OP_EQUALVERIFY: Byte := 0x88
  const OP_HASH160: Byte := 0xa9
  const OP_CHECKSIG: Byte := 0xac
  const OP_CHECKMULTISIGVERIFY: Byte := 0xaf
  const OP_STATESEPERATOR: Byte := 0xbd
  const OP_PUSHINPUTREF: Byte := 0xd0
  const OP_DISALLOWPUSHINPUTREFSIBLING: Byte := 0xd3
  const OP_PUSHINPUTREFSINGLETON: Byte := 0xd8

  /** The opcodes followed by a 36-byte ref. */
  predicate IsInputRefOp(op: Byte) {
    OP_PUSHINPUTREF <= op <= OP_DISALLOWPUSHINPUTREFSIBLING || op == OP_PUSHINPUTREFSINGLETON
  }

  predicate IsPushRefOp(op: Byte) {
    op == OP_PUSHINPUTREF || op == OP_PUSHINPUTREFSINGLETON
  }

  predicate IsCheckSigOp(op: Byte) {
    OP_CHECKSIG <= op <= OP_CHECKMULTISIGVERIFY
  }

  // ----- The reference walk -----

  /** An operation: its code, the length of its operand and the bytes [start, end) it spans. */
  datatype Op = Op(code: Byte, dataLen: nat, start: nat, end: nat)

  /** The number of bytes that give the length of a push. */
  function LengthBytes(op: Byte): nat {
    if op == OP_PUSHDATA1 then 1 else if op == OP_PUSHDATA2 then 2 else if op == OP_PUSHDATA4 then 4 else 0
  }

  function OpAt(s: Bytes, n: nat): (r: Option<Op>)
    requires n < |s|
    ensures r.Some? ==> n == r.value.start < r.value.end <= |s|
  {
    var op := s[n];
    if op <= OP_PUSHDATA4 then
      var m := n + 1 + LengthBytes(op);
      if m > |s| then None else
      var dlen := if op < OP_PUSHDATA1 then op else FromLE(s[n + 1..m]);
      if m + dlen > |s| then None else Some(Op(op, dlen, n, m + dlen))
    else if IsInputRefOp(op) then
      if n + 37 > |s| then None else Some(Op(op, 36, n, n + 37))
    else
      Some(Op(op, 0, n, n + 1))
  }

  function Walk(s: Bytes, n: nat): Option<seq<Op>>
    requires n <= |s|
    decreases |s| - n
  {
    if n == |s| then Some([]) else
    match OpAt(s, n)
    case None => None
    case Some(op) =>
      match Walk(s, op.end)
      case None => None
      case Some(ops) => Some([op] + ops)
  }

  /** The operations cover the bytes from `n` on, without gap or overlap. */
  ghost predicate Tiles(s: Bytes, n: nat, ops: seq<Op>) {
    && (if ops == [] then n == |s| else ops[0].start == n && ops[|ops| - 1].end == |s|)
    && (forall i :: 0 <= i < |ops| ==> ops[i].start < ops[i].end <= |s| && OpAt(s, ops[i].start) == Some(ops[i]))
    && (forall i :: 0 <= i < |ops| - 1 ==> ops[i].end == ops[i + 1].start)
  }

  lemma {:induction false} WalkTilesAt(s: Bytes, n: nat, i: nat)
    requires n <= |s| && Walk(s, n).Some? && i < |Walk(s, n).value|
    ensures var ops := Walk(s, n).value;
            && ops[i].start < ops[i].end <= |s| && OpAt(s, ops[i].start) == Some(ops[i])
            && (i == 0 ==> ops[i].start == n)
            && ops[i].end == if i + 1 < |ops| then ops[i + 1].start else |s|
    decreases |s| - n
  {
    hide OpAt;
    var op := OpAt(s, n).value;
    var ops, rest := Walk(s, n).value, Walk(s, op.end).value;
    assert ops == [op] + rest;
    if i > 0 {
      WalkTilesAt(s, op.end, i - 1);
    } else if rest != [] {
      WalkTilesAt(s, op.end, 0);
    }
  }

  lemma WalkTiles(s: Bytes, n: nat)
    requires n <= |s| && Walk(s, n).Some?
    ensures Tiles(s, n, Walk(s, n).value)
  {
    hide OpAt, Walk;
    var ops := Walk(s, n).value;
    forall i | 0 <= i < |ops|
      ensures ops[i].start < ops[i].end <= |s| && OpAt(s, ops[i].start) == Some(ops[i])
      ensures i < |ops| - 1 ==> ops[i].end == ops[i + 1].start
    {
      WalkTilesAt(s, n, i);
    }
    if ops == [] {
      EmptyWalk(s, n);
    } else {
      WalkTilesAt(s, n, 0);
      WalkTilesAt(s, n, |ops| - 1);
    }
  }

  lemma EmptyWalk(s: Bytes, n: nat)
    requires n <= |s| && Walk(s, n) == Some([])
    ensures n == |s|
  {
  }

  /** A tiling is the walk: there is no other way to cut a script into operations. */
  lemma {:induction false} TilingIsWalk(s: Bytes, n: nat, ops: seq<Op>)
    requires n <= |s| && Tiles(s, n, ops)
    ensures Walk(s, n) == Some(ops)
    decreases |ops|
  {
    hide OpAt;
    if ops != [] {
      var rest := ops[1..];
      assert forall i :: 0 <= i < |rest| ==> rest[i] == ops[i + 1];
      TilingIsWalk(s, ops[0].end, rest);
      assert ops == [ops[0]] + rest;
    }
  }

  // ----- What the walkers collect, from position n on -----

  /** A pushed ref, and whether it was pushed as a singleton. */
  datatype PushedRef = PushedRef(ref: Bytes, singleton: bool)

  function RefsOfOp(s: Bytes, op: Op): seq<PushedRef>
    requires op.start + 37 <= |s| || !IsPushRefOp(op.code)
  {
    if IsPushRefOp(op.code)
    then [PushedRef(s[op.start + 1..op.start + 37], op.code == OP_PUSHINPUTREFSINGLETON)]
    else []
  }

  function PushedRefs(s: Bytes, n: nat): seq<PushedRef>
    requires n <= |s|
    decreases |s| - n
  {
    if n == |s| then [] else
    match OpAt(s, n)
    case None => []
    case Some(op) => RefsOfOp(s, op) + PushedRefs(s, op.end)
  }

  function AllRefs(rs: seq<PushedRef>): seq<Bytes> {
    if rs == [] then [] else [rs[0].ref] + AllRefs(rs[1..])
  }

  /** The refs pushed as `singleton`, in order. */
  function RefsOfKind(rs: seq<PushedRef>, singleton: bool): seq<Bytes> {
    if rs == [] then []
    else (if rs[0].singleton == singleton then [rs[0].ref] else []) + RefsOfKind(rs[1..], singleton)
  }

  function ZeroedOp(s: Bytes, op: Op): Bytes
    requires op.dataLen <= op.end <= |s|
  {
    [op.code] + (if op.code <= OP_PUSHDATA4 then s[op.end - op.dataLen..op.end]
                 else if IsInputRefOp(op.code) then Zeros(36) else [])
  }

  function Zeroed(s: Bytes, n: nat): Bytes
    requires n <= |s|
    decreases |s| - n
  {
    if n == |s| then [] else
    match OpAt(s, n)
    case None => []
    case Some(op) => ZeroedOp(s, op) + Zeroed(s, op.end)
  }

  predicate HasCheckSig(s: Bytes, n: nat)
    requires n <= |s|
    decreases |s| - n
  {
    n < |s| && match OpAt(s, n) case None => false case Some(op) => IsCheckSigOp(op.code) || HasCheckSig(s, op.end)
  }

  /** Where the first state separator stands; None if there is none. */
  function FirstSeparator(s: Bytes, n: nat): Checked<Option<nat>>
    requires n <= |s|
    decreases |s| - n
  {
    if n == |s| then Ok(None)
    else if s[n] == OP_STATESEPERATOR then Ok(Some(n))
    else match OpAt(s, n)
      case None => ScriptError
      case Some(op) => FirstSeparator(s, op.end)
  }

  function Prepend(ops: seq<Op>, w: Option<seq<Op>>): Option<seq<Op>> {
    match w
    case None => None
    case Some(rest) => Some(ops + rest)
  }

  lemma WalkStep(s: Bytes, n: nat, done: seq<Op>)
    requires n < |s|
    ensures OpAt(s, n).None? ==> Walk(s, n).None?
    ensures OpAt(s, n).Some? ==>
              Prepend(done, Walk(s, n)) == Prepend(done + [OpAt(s, n).value], Walk(s, OpAt(s, n).value.end))
  {
    hide OpAt;
    if OpAt(s, n).Some? && Walk(s, OpAt(s, n).value.end).Some? {
      var op, rest := OpAt(s, n).value, Walk(s, OpAt(s, n).value.end).value;
      assert done + ([op] + rest) == done + [op] + rest;
    }
  }

  // ----- The walkers -----

  method WalkOps(script: Bytes) returns (r: Checked<seq<Op>>)
    ensures r == match Walk(script, 0) case None => ScriptError case Some(ops) => Ok(ops)
  {
    hide Walk;
    var ops: seq<Op> := [];
    var n := 0;
    assert Prepend([], Walk(script, 0)) == Walk(script, 0) by {
      if Walk(script, 0).Some? { assert [] + Walk(script, 0).value == Walk(script, 0).value; }
    }
    while n < |script|
      invariant n <= |script|
      invariant Walk(script, 0) == Prepend(ops, Walk(script, n))
      decreases |script| - n
    {
      WalkStep(script, n, ops);
      var start := n;
      var op := script[n];
      n := n + 1;
      if op <= OP_PUSHDATA4 {
        var dlen: nat;
        if op < OP_PUSHDATA1 {
          dlen := op;
        } else if op == OP_PUSHDATA1 {
          if n >= |script| { return ScriptError; }
          dlen := script[n];
          OneByteLE(script, n);
          n := n + 1;
        } else if op == OP_PUSHDATA2 {
          if n + 2 > |script| { return ScriptError; }
          dlen := FromLE(script[n..n + 2]);
          n := n + 2;
        } else {
          if n + 4 > |script| { return ScriptError; }
          dlen := FromLE(script[n..n + 4]);
          n := n + 4;
        }
        n := n + dlen;
        if n > |script| { return ScriptError; }
        ops := ops + [Op(op, dlen, start, n)];
      } else if IsInputRefOp(op) {
        n := n + 36;
        if n > |script| { return ScriptError; }
        ops := ops + [Op(op, 36, start, n)];
      } else {
        ops := ops + [Op(op, 0, start, n)];
      }
    }
    EndOfWalk(script, ops);
    return Ok(ops);
  }

  lemma OneByteLE(s: Bytes, n: nat)
    requires n < |s|
    ensures FromLE(s[n..n + 1]) == s[n]
  {
    assert s[n..n + 1] == [s[n]];
  }

  lemma EndOfWalk(s: Bytes, ops: seq<Op>)
    ensures Prepend(ops, Walk(s, |s|)) == Some(ops)
  {
    assert ops + [] == ops;
  }

  /** One step of the walk: whether the rest can be walked, and what the operation adds. */
  lemma Step(s: Bytes, n: nat)
    requires n < |s|
    ensures OpAt(s, n).None? ==> Walk(s, n).None?
    ensures OpAt(s, n).Some? ==>
              var op := OpAt(s, n).value;
              && (Walk(s, n).Some? <==> Walk(s, op.end).Some?)
              && (op.start + 37 <= |s| || !IsPushRefOp(op.code))
              && op.dataLen <= op.end
              && PushedRefs(s, n) == RefsOfOp(s, op) + PushedRefs(s, op.end)
              && Zeroed(s, n) == ZeroedOp(s, op) + Zeroed(s, op.end)
              && (HasCheckSig(s, n) <==> IsCheckSigOp(op.code) || HasCheckSig(s, op.end))
  {
  }

  lemma RefsCons(s: Bytes, op: Op, rest: seq<PushedRef>)
    requires op.start + 37 <= |s| || !IsPushRefOp(op.code)
    ensures IsPushRefOp(op.code) ==>
              var ref := s[op.start + 1..op.start + 37];
              var singleton := op.code == OP_PUSHINPUTREFSINGLETON;
              && AllRefs(RefsOfOp(s, op) + rest) == [ref] + AllRefs(rest)
              && RefsOfKind(RefsOfOp(s, op) + rest, singleton) == [ref] + RefsOfKind(rest, singleton)
              && RefsOfKind(RefsOfOp(s, op) + rest, !singleton) == RefsOfKind(rest, !singleton)
    ensures !IsPushRefOp(op.code) ==> RefsOfOp(s, op) + rest == rest
  {
    if IsPushRefOp(op.code) {
      var rs := RefsOfOp(s, op) + rest;
      assert rs[1..] == rest;
    }
  }

  method GetPushInputRefs(script: Bytes) returns (r: Checked<(seq<Bytes>, seq<Bytes>, seq<Bytes>)>)
    ensures r.Ok? <==> Walk(script, 0).Some?
    ensures r.Ok? ==>
              var rs := PushedRefs(script, 0);
              r.value == (AllRefs(rs), RefsOfKind(rs, false), RefsOfKind(rs, true))
  {
    hide Walk, PushedRefs, RefsOfOp, AllRefs, RefsOfKind, FromLE, Collected;
    var allRefs: seq<Bytes>, normalRefs: seq<Bytes>, singletonRefs: seq<Bytes> := [], [], [];
    var n := 0;
    CollectedNone(script);
    while n < |script|
      invariant n <= |script|
      invariant Walk(script, 0).Some? <==> Walk(script, n).Some?
      invariant Collected(script, n, allRefs, normalRefs, singletonRefs)
      decreases |script| - n
    {
      Step(script, n);
      if OpAt(script, n).Some? {
        CollectedNext(script, n, allRefs, normalRefs, singletonRefs);
      }
      var op := script[n];
      n := n + 1;
      if op <= OP_PUSHDATA4 {
        var dlen: nat;
        if op < OP_PUSHDATA1 {
          dlen := op;
        } else if op == OP_PUSHDATA1 {
          if n >= |script| { return ScriptError; }
          dlen := script[n];
          OneByteLE(script, n);
          n := n + 1;
        } else if op == OP_PUSHDATA2 {
          if n + 2 > |script| { return ScriptError; }
          dlen := FromLE(script[n..n + 2]);
          n := n + 2;
        } else {
          if n + 4 > |script| { return ScriptError; }
          dlen := FromLE(script[n..n + 4]);
          n := n + 4;
        }
        if n + dlen > |script| { return ScriptError; }
        n := n + dlen;
      } else if IsInputRefOp(op) {
        // The slice is taken before the length is checked, and may then be short.
        var ref := script[n..if n + 36 <= |script| then n + 36 else |script|];
        if op == OP_PUSHINPUTREF {
          allRefs, normalRefs := allRefs + [ref], normalRefs + [ref];
        } else if op == OP_PUSHINPUTREFSINGLETON {
          allRefs, singletonRefs := allRefs + [ref], singletonRefs + [ref];
        }
        if n + 36 > |script| { return ScriptError; }
        n := n + 36;
      }
    }
    AtEnd(script);
    CollectedAll(script, allRefs, normalRefs, singletonRefs);
    return Ok((allRefs, normalRefs, singletonRefs));
  }

  /** The three lists so far, completed by what is still ahead, are the lists of the whole. */
  ghost predicate Collected(s: Bytes, n: nat, all: seq<Bytes>, normal: seq<Bytes>, singleton: seq<Bytes>)
    requires n <= |s|
  {
    var whole, rest := PushedRefs(s, 0), PushedRefs(s, n);
    && AllRefs(whole) == all + AllRefs(rest)
    && RefsOfKind(whole, false) == normal + RefsOfKind(rest, false)
    && RefsOfKind(whole, true) == singleton + RefsOfKind(rest, true)
  }

  lemma CollectedNone(s: Bytes)
    ensures Collected(s, 0, [], [], [])
  {
  }

  lemma CollectedNext(s: Bytes, n: nat, all: seq<Bytes>, normal: seq<Bytes>, singleton: seq<Bytes>)
    requires n < |s| && OpAt(s, n).Some? && Collected(s, n, all, normal, singleton)
    ensures var op := OpAt(s, n).value;
            && op.end <= |s|
            && (op.code == OP_PUSHINPUTREF ==>
                  var ref := s[n + 1..n + 37];
                  Collected(s, op.end, all + [ref], normal + [ref], singleton))
            && (op.code == OP_PUSHINPUTREFSINGLETON ==>
                  var ref := s[n + 1..n + 37];
                  Collected(s, op.end, all + [ref], normal, singleton + [ref]))
            && (!IsPushRefOp(op.code) ==> Collected(s, op.end, all, normal, singleton))
  {
    hide Walk, PushedRefs, RefsOfOp, AllRefs, RefsOfKind, FromLE;
    Step(s, n);
    RefsCons(s, OpAt(s, n).value, PushedRefs(s, OpAt(s, n).value.end));
  }

  lemma CollectedAll(s: Bytes, all: seq<Bytes>, normal: seq<Bytes>, singleton: seq<Bytes>)
    requires Collected(s, |s|, all, normal, singleton)
    ensures var rs := PushedRefs(s, 0);
            all == AllRefs(rs) && normal == RefsOfKind(rs, false) && singleton == RefsOfKind(rs, true)
  {
    AtEnd(s);
    assert all + [] == all && normal + [] == normal && singleton + [] == singleton;
  }

  lemma AtEnd(s: Bytes)
    ensures Walk(s, |s|).Some? && PushedRefs(s, |s|) == [] && Zeroed(s, |s|) == [] && !HasCheckSig(s, |s|)
    ensures AllRefs([]) == [] && RefsOfKind([], false) == [] && RefsOfKind([], true) == []
  {
  }

  /** As long as the walk goes on, what is ahead of `n` completes `results`. */
  ghost predicate ExtractedSoFar(s: Bytes, n: nat, results: seq<PushedRef>) {
    Walk(s, 0).Some? ==> n <= |s| && Walk(s, n).Some? && PushedRefs(s, 0) == results + PushedRefs(s, n)
  }

  lemma ExtractAppend(s: Bytes, n: nat, results: seq<PushedRef>)
    requires n < |s| && ExtractedSoFar(s, n, results)
    ensures Walk(s, 0).Some? ==>
              && OpAt(s, n).Some?
              && var op := OpAt(s, n).value;
              && (IsPushRefOp(op.code) ==>
                    ExtractedSoFar(s, op.end, results + [PushedRef(s[n + 1..n + 37], op.code == OP_PUSHINPUTREFSINGLETON)]))
              && (!IsPushRefOp(op.code) ==> ExtractedSoFar(s, op.end, results))
  {
    hide Walk, PushedRefs;
    Step(s, n);
    if Walk(s, 0).Some? {
      var op := OpAt(s, n).value;
      var rest := PushedRefs(s, op.end);
      assert results + (RefsOfOp(s, op) + rest) == results + RefsOfOp(s, op) + rest;
      assert results + [] == results;
    }
  }

  lemma ExtractStartAndEnd(s: Bytes, n: nat, results: seq<PushedRef>)
    ensures ExtractedSoFar(s, 0, [])
    ensures n >= |s| && ExtractedSoFar(s, n, results) && Walk(s, 0).Some? ==> results == PushedRefs(s, 0)
  {
    assert results + [] == results;
  }

  /** The extractor of the Glyph index tolerates truncated scripts.  On every script the other
      walkers accept it finds the same refs, in the same order and of the same kind. */
  method ExtractRefsFromScript(script: Bytes) returns (results: seq<PushedRef>)
    ensures Walk(script, 0).Some? ==> results == PushedRefs(script, 0)
    ensures forall i :: 0 <= i < |results| ==> |results[i].ref| == 36
  {
    hide Walk, PushedRefs, ExtractedSoFar;
    results := [];
    var n := 0;
    ExtractStartAndEnd(script, n, results);
    while n < |script|
      invariant ExtractedSoFar(script, n, results)
      invariant forall i :: 0 <= i < |results| ==> |results[i].ref| == 36
      decreases |script| - n
    {
      ExtractAppend(script, n, results);
      if Walk(script, 0).None? {
        UnwalkableExtracts(script);
      }
      var op := script[n];
      n := n + 1;
      if op == OP_PUSHINPUTREFSINGLETON && n + 36 <= |script| {
        results := results + [PushedRef(script[n..n + 36], true)];
        n := n + 36;
      } else if op == OP_PUSHINPUTREF && n + 36 <= |script| {
        results := results + [PushedRef(script[n..n + 36], false)];
        n := n + 36;
      } else if op <= OP_PUSHDATA4 {
        if op < OP_PUSHDATA1 {
          n := n + op;
        } else if op == OP_PUSHDATA1 {
          if n < |script| {
            OneByteLE(script, n);
            n := n + 1 + script[n];
          }
        } else if op == OP_PUSHDATA2 {
          if n + 1 < |script| {
            FewBytesLE(script, n);
            n := n + 2 + Word(script[n], script[n + 1]);
          }
        } else {
          if n + 3 < |script| {
            FewBytesLE(script, n);
            n := n + 4 + Word(script[n], script[n + 1]) + 0x1_0000 * Word(script[n + 2], script[n + 3]);
          }
        }
      } else if 0xd1 <= op <= 0xd3 {
        n := n + 36;
      }
    }
    ExtractStartAndEnd(script, n, results);
  }

  lemma UnwalkableExtracts(s: Bytes)
    requires Walk(s, 0).None?
    ensures forall n: nat, results :: ExtractedSoFar(s, n, results)
  {
  }

  function Word(low: int, high: int): int {
    low + 0x100 * high
  }

  lemma FewBytesLE(s: Bytes, n: nat)
    ensures n + 1 < |s| ==> FromLE(s[n..n + 2]) == Word(s[n], s[n + 1])
    ensures n + 3 < |s| ==>
              FromLE(s[n..n + 4]) == Word(s[n], s[n + 1]) + 0x1_0000 * Word(s[n + 2], s[n + 3])
  {
    if n + 1 < |s| {
      TwoBytesLE(s[n], s[n + 1], []);
      assert s[n..n + 2] == [s[n], s[n + 1]] + [];
    }
    if n + 3 < |s| {
      TwoBytesLE(s[n + 2], s[n + 3], []);
      TwoBytesLE(s[n], s[n + 1], [s[n + 2], s[n + 3]]);
      assert s[n..n + 4] == [s[n], s[n + 1]] + ([s[n + 2], s[n + 3]] + []);
      assert [s[n + 2], s[n + 3]] + [] == [s[n + 2], s[n + 3]];
    }
  }

  lemma TwoBytesLE(x: Byte, y: Byte, rest: Bytes)
    ensures FromLE([x, y] + rest) == x + 0x100 * y + 0x1_0000 * FromLE(rest)
  {
    var b := [x, y] + rest;
    assert b[1..] == [y] + rest && b[1..][1..] == rest;
  }

  /** What is still ahead of `n` completes `ops` to the zeroed script. */
  ghost predicate ZeroedSoFar(s: Bytes, n: nat, ops: Bytes)
    requires n <= |s|
  {
    Zeroed(s, 0) == ops + Zeroed(s, n)
  }

  lemma ZeroedAppend(s: Bytes, n: nat, ops: Bytes)
    requires n < |s| && OpAt(s, n).Some? && ZeroedSoFar(s, n, ops)
    ensures var op := OpAt(s, n).value;
            && op.dataLen <= op.end
            && (op.code <= OP_PUSHDATA4 ==>
                  ZeroedSoFar(s, op.end, ops + [op.code] + s[op.end - op.dataLen..op.end]))
            && (IsInputRefOp(op.code) ==> ZeroedSoFar(s, op.end, ops + [op.code] + Zeros(36)))
            && (op.code > OP_PUSHDATA4 && !IsInputRefOp(op.code) ==> ZeroedSoFar(s, op.end, ops + [op.code]))
  {
    hide Zeros;
    var op := OpAt(s, n).value;
    var rest := Zeroed(s, op.end);
    assert ops + (ZeroedOp(s, op) + rest) == ops + ZeroedOp(s, op) + rest;
  }

  lemma ZeroedStartAndEnd(s: Bytes, ops: Bytes)
    ensures ZeroedSoFar(s, 0, []) && (ZeroedSoFar(s, |s|, ops) ==> ops == Zeroed(s, 0))
  {
    assert ops + [] == ops;
  }

  lemma SigStep(s: Bytes, n: nat)
    requires n < |s|
    ensures OpAt(s, n).None? ==> Walk(s, n).None?
    ensures OpAt(s, n).Some? ==>
              var op := OpAt(s, n).value;
              && (Walk(s, n).Some? <==> Walk(s, op.end).Some?)
              && (HasCheckSig(s, n) <==> IsCheckSigOp(op.code) || HasCheckSig(s, op.end))
  {
  }

  /** The length bytes of all pushes from `n` on. */
  function AllLengthBytes(ops: seq<Op>): nat {
    if ops == [] then 0 else LengthBytes(ops[0].code) + AllLengthBytes(ops[1..])
  }

  lemma {:induction false} ZeroedLengthFrom(s: Bytes, n: nat)
    requires n <= |s| && Walk(s, n).Some?
    ensures |Zeroed(s, n)| + AllLengthBytes(Walk(s, n).value) == |s| - n
    decreases |s| - n
  {
    if n < |s| {
      var op := OpAt(s, n).value;
      ZeroedLengthFrom(s, op.end);
      assert ([op] + Walk(s, op.end).value)[1..] == Walk(s, op.end).value;
    }
  }

  /** No push carries length bytes of its own: those of OP_PUSHDATA1, OP_PUSHDATA2 and OP_PUSHDATA4 do. */
  predicate NoExplicitLength(ops: seq<Op>) {
    forall i :: 0 <= i < |ops| ==> LengthBytes(ops[i].code) == 0
  }

  lemma {:induction false} NoLengthBytes(ops: seq<Op>)
    ensures AllLengthBytes(ops) == 0 <==> NoExplicitLength(ops)
  {
    if ops != [] {
      NoLengthBytes(ops[1..]);
      assert forall i :: 1 <= i < |ops| ==> ops[i] == ops[1..][i - 1];
    }
  }

  /** Zeroing drops the length bytes of pushes: it keeps the length of the script exactly when there
      are none. */
  lemma ZeroedLength(s: Bytes)
    requires Walk(s, 0).Some?
    ensures |Zeroed(s, 0)| == |s| <==> NoExplicitLength(Walk(s, 0).value)
  {
    ZeroedLengthFrom(s, 0);
    NoLengthBytes(Walk(s, 0).value);
  }

  method ZeroRefs(script: Bytes) returns (r: Checked<Bytes>)
    ensures r.Ok? <==> Walk(script, 0).Some?
    ensures r.Ok? ==> r.value == if HasCheckSig(script, 0) then Zeroed(script, 0) else script
    ensures r.Ok? ==> (|r.value| == |script| <==> !HasCheckSig(script, 0) || NoExplicitLength(Walk(script, 0).value))
  {
    hide Walk, ZeroedSoFar, Zeroed, HasCheckSig, NoExplicitLength;
    ZeroedStartAndEnd(script, []);
    var ops: Bytes := [];
    var requiresSig := false;
    var n := 0;
    while n < |script|
      invariant n <= |script|
      invariant Walk(script, 0).Some? <==> Walk(script, n).Some?
      invariant HasCheckSig(script, 0) <==> requiresSig || HasCheckSig(script, n)
      invariant ZeroedSoFar(script, n, ops)
      decreases |script| - n
    {
      SigStep(script, n);
      if OpAt(script, n).Some? {
        ZeroedAppend(script, n, ops);
      }
      var op := script[n];
      ops := ops + [op];
      n := n + 1;
      if IsCheckSigOp(op) {
        requiresSig := true;
      } else if op <= OP_PUSHDATA4 {
        var dlen: nat;
        if op < OP_PUSHDATA1 {
          dlen := op;
        } else if op == OP_PUSHDATA1 {
          if n >= |script| { return ScriptError; }
          dlen := script[n];
          OneByteLE(script, n);
          n := n + 1;
        } else if op == OP_PUSHDATA2 {
          if n + 2 > |script| { return ScriptError; }
          dlen := FromLE(script[n..n + 2]);
          n := n + 2;
        } else {
          if n + 4 > |script| { return ScriptError; }
          dlen := FromLE(script[n..n + 4]);
          n := n + 4;
        }
        if n + dlen > |script| { return ScriptError; }
        ops := ops + script[n..n + dlen];
        n := n + dlen;
      } else if IsInputRefOp(op) {
        if n + 36 > |script| { return ScriptError; }
        ops := ops + Zeros(36);
        n := n + 36;
      }
    }
    AtEnd(script);
    ZeroedStartAndEnd(script, ops);
    if requiresSig {
      ZeroedLength(script);
      return Ok(ops);
    }
    return Ok(script);
  }

  method GetStateSeparatorIndex(script: Bytes) returns (r: Checked<nat>)
    ensures match FirstSeparator(script, 0)
            case ScriptError => r == ScriptError
            case Ok(None) => r == Ok(0)
            case Ok(Some(k)) => r == Ok(k)
  {
    hide FirstSeparator;
    var n := 0;
    while n < |script|
      invariant n <= |script|
      invariant FirstSeparator(script, 0) == FirstSeparator(script, n)
      decreases |script| - n
    {
      SeparatorStep(script, n);
      var op := script[n];
      if op == OP_STATESEPERATOR {
        return Ok(n);
      }
      n := n + 1;
      if op <= OP_PUSHDATA4 {
        var dlen: nat;
        if op < OP_PUSHDATA1 {
          dlen := op;
        } else if op == OP_PUSHDATA1 {
          if n >= |script| { return ScriptError; }
          dlen := script[n];
          OneByteLE(script, n);
          n := n + 1;
        } else if op == OP_PUSHDATA2 {
          if n + 2 > |script| { return ScriptError; }
          dlen := FromLE(script[n..n + 2]);
          n := n + 2;
        } else {
          if n + 4 > |script| { return ScriptError; }
          dlen := FromLE(script[n..n + 4]);
          n := n + 4;
        }
        if n + dlen > |script| { return ScriptError; }
        n := n + dlen;
      } else if IsInputRefOp(op) {
        if n + 36 > |script| { return ScriptError; }
        n := n + 36;
      }
    }
    NoSeparatorAtEnd(script);
    return Ok(0);
  }

  lemma SeparatorStep(s: Bytes, n: nat)
    requires n < |s|
    ensures FirstSeparator(s, n) ==
            if s[n] == OP_STATESEPERATOR then Ok(Some(n))
            else match OpAt(s, n) case None => ScriptError case Some(op) => FirstSeparator(s, op.end)
  {
  }

  lemma NoSeparatorAtEnd(s: Bytes)
    ensures FirstSeparator(s, |s|) == Ok(None)
  {
  }

  // ----- What the results mean on a script that can be walked -----

  function ConcatRefs(s: Bytes, ops: seq<Op>): seq<PushedRef>
    requires forall i :: 0 <= i < |ops| ==> ops[i].start + 37 <= |s| || !IsPushRefOp(ops[i].code)
  {
    if ops == [] then [] else RefsOfOp(s, ops[0]) + ConcatRefs(s, ops[1..])
  }

  /** The refs are those of the walk's operations, operand by operand: bytes inside a push or
      inside another ref are never taken for an opcode. */
  lemma {:induction false} RefsOfWalk(s: Bytes, n: nat)
    requires n <= |s| && Walk(s, n).Some?
    ensures var ops := Walk(s, n).value;
            && (forall i :: 0 <= i < |ops| ==> ops[i].start + 37 <= |s| || !IsPushRefOp(ops[i].code))
            && PushedRefs(s, n) == ConcatRefs(s, ops)
    decreases |s| - n
  {
    hide RefsOfOp;
    if n < |s| {
      Step(s, n);
      var op := OpAt(s, n).value;
      RefsOfWalk(s, op.end);
      var rest := Walk(s, op.end).value;
      assert ([op] + rest)[1..] == rest;
    }
  }

  /** On a script that can be walked the separator search cannot fail, and what it finds is the
      first separator standing as an operation (a separator byte inside a push is skipped). */
  lemma {:induction false} SeparatorOfWalk(s: Bytes, n: nat)
    requires n <= |s| && Walk(s, n).Some?
    ensures FirstSeparator(s, n).Ok?
    ensures var ops := Walk(s, n).value;
            match FirstSeparator(s, n).value
            case None => forall i :: 0 <= i < |ops| ==> ops[i].code != OP_STATESEPERATOR
            case Some(k) =>
              exists i :: 0 <= i < |ops| && ops[i].start == k && ops[i].code == OP_STATESEPERATOR
                          && forall j :: 0 <= j < i ==> ops[j].code != OP_STATESEPERATOR
    decreases |s| - n
  {
    if n < |s| {
      var op := OpAt(s, n).value;
      SeparatorOfWalk(s, op.end);
      var ops, rest := Walk(s, n).value, Walk(s, op.end).value;
      assert ops[0] == op && ops[1..] == rest;
      if s[n] != OP_STATESEPERATOR && FirstSeparator(s, n).value.Some? {
        var i :| 0 <= i < |rest| && rest[i].start == FirstSeparator(s, n).value.value && rest[i].code == OP_STATESEPERATOR
                 && forall j :: 0 <= j < i ==> rest[j].code != OP_STATESEPERATOR;
        assert ops[i + 1] == rest[i];
        assert forall j :: 0 <= j < i + 1 ==> ops[j] == if j == 0 then op else rest[j - 1];
      }
    }
  }

  /** A one-byte OP_PUSHDATA1 push before OP_CHECKSIG comes out a byte short. */
  lemma ZeroedShorter()
    ensures Walk([OP_PUSHDATA1, 1, 7, OP_CHECKSIG], 0).Some? && HasCheckSig([OP_PUSHDATA1, 1, 7, OP_CHECKSIG], 0)
    ensures Zeroed([OP_PUSHDATA1, 1, 7, OP_CHECKSIG], 0) == [OP_PUSHDATA1, 7, OP_CHECKSIG]
  {
    var s: Bytes := [OP_PUSHDATA1, 1, 7, OP_CHECKSIG];
    OneByteLE(s, 1);
    assert OpAt(s, 0) == Some(Op(OP_PUSHDATA1, 1, 0, 3)) && OpAt(s, 3) == Some(Op(OP_CHECKSIG, 0, 3, 4));
    assert Zeroed(s, 4) == [] && Walk(s, 4).Some?;
    assert Zeroed(s, 3) == [OP_CHECKSIG] && Walk(s, 3).Some? && HasCheckSig(s, 3);
    Step(s, 0);
    assert s[2..3] == [7];
  }

  /** Two scripts with the same operations that differ at most inside ref operands. */
  ghost predicate SameButRefs(s: Bytes, t: Bytes, ops: seq<Op>) {
    && |s| == |t|
    && forall i :: 0 <= i < |ops| && ops[i].end <= |s| && !IsInputRefOp(ops[i].code)
                   ==> ops[i].start <= ops[i].end && s[ops[i].start..ops[i].end] == t[ops[i].start..ops[i].end]
  }

  /** What zeroing is for: two token outputs that differ only in their refs get one script, and
      so one hashX. */
  lemma {:induction false} ZeroedIgnoresRefs(s: Bytes, t: Bytes, n: nat)
    requires n <= |s| && |s| == |t| && Walk(s, n).Some? && Walk(t, n) == Walk(s, n)
    requires SameButRefs(s, t, Walk(s, n).value)
    ensures Zeroed(s, n) == Zeroed(t, n) && (HasCheckSig(s, n) <==> HasCheckSig(t, n))
    decreases |s| - n
  {
    hide OpAt, ZeroedOp;
    if n < |s| {
      Step(s, n);
      Step(t, n);
      var op, rest := OpAt(s, n).value, Walk(s, OpAt(s, n).value.end).value;
      assert Walk(s, n).value[0] == op && OpAt(t, n).value == op;
      assert Walk(t, op.end).value == Walk(t, n).value[1..] && rest == Walk(s, n).value[1..];
      ZeroedIgnoresRefs(s, t, op.end);
      OpBytes(s, n);
      OpBytes(t, n);
      SameOpZeroed(s, t, op);
    }
  }

  lemma OpBytes(s: Bytes, n: nat)
    requires n < |s| && OpAt(s, n).Some?
    ensures var op := OpAt(s, n).value; op.start + 1 + op.dataLen <= op.end <= |s|
  {
  }

  lemma SameOpZeroed(s: Bytes, t: Bytes, op: Op)
    requires |s| == |t| && op.start + 1 + op.dataLen <= op.end <= |s|
    requires IsInputRefOp(op.code) || s[op.start..op.end] == t[op.start..op.end]
    ensures ZeroedOp(s, op) == ZeroedOp(t, op)
  {
    var k := op.end - op.dataLen - op.start;
    assert s[op.end - op.dataLen..op.end] == s[op.start..op.end][k..];
    assert t[op.end - op.dataLen..op.end] == t[op.start..op.end][k..];
  }

  // ----- Which outputs are indexed -----

  predicate IsUnspendable(s: Bytes) {
    (|s| >= 2 && s[0] == 0x00 && s[1] == 0x6a) || (s != [] && s[0] == 0x6a)
  }

  predicate OutputIndexable(s: Bytes) {
    !IsUnspendable(s) && Walk(s, 0).Some?
  }

  /** The one predicate that decides both whether advancing adds an output and whether backing
      up spends it. */
  method CheckOutputIndexable(script: Bytes) returns (r: bool)
    ensures r <==> OutputIndexable(script)
  {
    if IsUnspendable(script) {
      return false;
    }
    var zeroed := ZeroRefs(script);
    return zeroed.Ok?;
  }

  // ----- The owner's base locking script -----

  predicate P2pkhAt(ops: seq<Op>, i: nat) {
    && i + 4 < |ops|
    && ops[i].code == OP_DUP && ops[i + 1].code == OP_HASH160
    && ops[i + 2].code == 0x14 && ops[i + 2].dataLen == 20
    && ops[i + 3].code == OP_EQUALVERIFY && ops[i + 4].code == OP_CHECKSIG
  }

  predicate P2shAt(ops: seq<Op>, i: nat) {
    && i + 2 < |ops|
    && ops[i].code == OP_HASH160
    && ops[i + 1].code == 0x14 && ops[i + 1].dataLen == 20
    && ops[i + 2].code == OP_EQUAL
  }

  function P2pkhScript(h: Bytes): Bytes {
    [OP_DUP, OP_HASH160, 0x14] + h + [OP_EQUALVERIFY, OP_CHECKSIG]
  }

  function P2shScript(h: Bytes): Bytes {
    [OP_HASH160, 0x14] + h + [OP_EQUAL]
  }

  /** Where a leading run of refs and drops ends. */
  function PreambleEnd(s: Bytes, n: nat): (m: nat)
    requires n <= |s|
    ensures n <= m <= |s|
    decreases |s| - n
  {
    if n == |s| then n
    else if IsInputRefOp(s[n]) then if n + 37 > |s| then n else PreambleEnd(s, n + 37)
    else if s[n] == OP_DROP || s[n] == OP_2DROP then PreambleEnd(s, n + 1)
    else n
  }

  /** `r` is the base locking script of `s`: the first pay-to-pubkey-hash template, else the
      first pay-to-script-hash template, else what follows the leading refs and drops, else the
      whole script. */
  ghost predicate IsBaseScript(s: Bytes, r: Bytes) {
    match Walk(s, 0)
    case None => r == s
    case Some(ops) =>
      if exists i: nat :: P2pkhAt(ops, i) then
        exists i: nat :: P2pkhAt(ops, i) && (forall j: nat :: j < i ==> !P2pkhAt(ops, j))
                         && StandsAt(s, ops[i].start, r) && IsP2pkhScript(r)
      else if exists i: nat :: P2shAt(ops, i) then
        exists i: nat :: P2shAt(ops, i) && (forall j: nat :: j < i ==> !P2shAt(ops, j))
                         && StandsAt(s, ops[i].start, r) && IsP2shScript(r)
      else
        var rest := s[PreambleEnd(s, 0)..];
        r == if rest == [] then s else rest
  }

  predicate IsP2pkhScript(r: Bytes) {
    |r| == 25 && r == P2pkhScript(r[3..23])
  }

  predicate IsP2shScript(r: Bytes) {
    |r| == 23 && r == P2shScript(r[2..22])
  }

  predicate StandsAt(s: Bytes, n: nat, t: Bytes) {
    n + |t| <= |s| && s[n..n + |t|] == t
  }

  /** The bytes of a matched template. */
  lemma P2pkhBytes(s: Bytes, ops: seq<Op>, i: nat)
    requires Tiles(s, 0, ops) && P2pkhAt(ops, i)
    ensures ops[i].start + 25 == ops[i + 4].end <= |s|
    ensures IsP2pkhScript(s[ops[i].start..ops[i + 4].end])
  {
    assert OpAt(s, ops[i].start) == Some(ops[i]) && OpAt(s, ops[i + 1].start) == Some(ops[i + 1]);
    assert OpAt(s, ops[i + 2].start) == Some(ops[i + 2]) && OpAt(s, ops[i + 3].start) == Some(ops[i + 3]);
    assert OpAt(s, ops[i + 4].start) == Some(ops[i + 4]);
    assert ops[i].end == ops[i + 1].start && ops[i + 1].end == ops[i + 2].start;
    assert ops[i + 2].end == ops[i + 3].start && ops[i + 3].end == ops[i + 4].start;
  }

  lemma P2shBytes(s: Bytes, ops: seq<Op>, i: nat)
    requires Tiles(s, 0, ops) && P2shAt(ops, i)
    ensures ops[i].start + 23 == ops[i + 2].end <= |s|
    ensures IsP2shScript(s[ops[i].start..ops[i + 2].end])
  {
    assert OpAt(s, ops[i].start) == Some(ops[i]) && OpAt(s, ops[i + 1].start) == Some(ops[i + 1]);
    assert OpAt(s, ops[i + 2].start) == Some(ops[i + 2]);
    assert ops[i].end == ops[i + 1].start && ops[i + 1].end == ops[i + 2].start;
  }

  method BaseLockingScript(script: Bytes) returns (r: Bytes)
    ensures IsBaseScript(script, r)
  {
    hide Walk, Tiles, PreambleEnd, IsP2pkhScript, IsP2shScript;
    var walked := WalkOps(script);
    if walked.ScriptError? {
      return script;
    }
    var ops := walked.value;
    WalkTiles(script, 0);
    var i := 0;
    while i < |ops| - 4
      invariant forall j :: 0 <= j < i ==> !P2pkhAt(ops, j)
    {
      if P2pkhAt(ops, i) {
        P2pkhBytes(script, ops, i);
        return script[ops[i].start..ops[i + 4].end];
      }
      i := i + 1;
    }
    i := 0;
    while i < |ops| - 2
      invariant forall j :: 0 <= j < i ==> !P2shAt(ops, j)
    {
      if P2shAt(ops, i) {
        P2shBytes(script, ops, i);
        return script[ops[i].start..ops[i + 2].end];
      }
      i := i + 1;
    }
    var n := SkipPreamble(script);
    var remainder := script[n..];
    return if remainder != [] then remainder else script;
  }

  method SkipPreamble(script: Bytes) returns (n: nat)
    ensures n <= |script| && n == PreambleEnd(script, 0)
  {
    n := 0;
    while n < |script|
      invariant n <= |script| && PreambleEnd(script, 0) == PreambleEnd(script, n)
      decreases |script| - n
    {
      var op := script[n];
      if IsInputRefOp(op) {
        if n + 1 + 36 > |script| { break; }
        n := n + 1 + 36;
      } else if op == OP_DROP || op == OP_2DROP {
        n := n + 1;
      } else {
        break;
      }
    }
  }

  lemma {:induction false} P2pkhWalk(s: Bytes, n: nat, h: Bytes)
    requires |h| == 20 && StandsAt(s, n, P2pkhScript(h)) && (Walk(s, n).Some? || n + 25 == |s|)
    ensures Walk(s, n).Some? && P2pkhAt(Walk(s, n).value, 0) && Walk(s, n).value[0].start == n
  {
    var t := P2pkhScript(h);
    assert forall k :: 0 <= k < 25 ==> s[n + k] == (s[n..n + 25])[k] == t[k];
    assert t[0] == OP_DUP && t[1] == OP_HASH160 && t[2] == 0x14 && t[23] == OP_EQUALVERIFY && t[24] == OP_CHECKSIG;
    assert s[n] == OP_DUP && s[n + 1] == OP_HASH160 && s[n + 2] == 0x14;
    assert s[n + 23] == OP_EQUALVERIFY && s[n + 24] == OP_CHECKSIG;
    var o0, o1, o2 := Op(OP_DUP, 0, n, n + 1), Op(OP_HASH160, 0, n + 1, n + 2), Op(0x14, 20, n + 2, n + 23);
    var o3, o4 := Op(OP_EQUALVERIFY, 0, n + 23, n + 24), Op(OP_CHECKSIG, 0, n + 24, n + 25);
    AtEnd(s);
    WalkCons(s, n, o0);
    WalkCons(s, n + 1, o1);
    WalkCons(s, n + 2, o2);
    WalkCons(s, n + 23, o3);
    WalkCons(s, n + 24, o4);
  }

  lemma WalkCons(s: Bytes, n: nat, op: Op)
    requires n < |s| && OpAt(s, n) == Some(op)
    ensures Walk(s, n).Some? <==> Walk(s, op.end).Some?
    ensures Walk(s, n).Some? ==> Walk(s, n).value == [op] + Walk(s, op.end).value
  {
  }

  /** The base script stands where the first address template does. */
  lemma BaseIsFirstTemplate(s: Bytes, r: Bytes, i: nat)
    requires Walk(s, 0).Some? && IsBaseScript(s, r)
    requires P2pkhAt(Walk(s, 0).value, i) && forall j: nat :: j < i ==> !P2pkhAt(Walk(s, 0).value, j)
    ensures |r| == 25 && StandsAt(s, Walk(s, 0).value[i].start, r)
  {
    hide Walk, P2shAt, IsP2shScript;
    var ops := Walk(s, 0).value;
    var k: nat :| P2pkhAt(ops, k) && (forall j: nat :: j < k ==> !P2pkhAt(ops, j))
                  && StandsAt(s, ops[k].start, r) && IsP2pkhScript(r);
    assert k == i;
  }

  lemma FirstOfThem(s: Bytes, r: Bytes) returns (i: nat)
    requires Walk(s, 0).Some? && IsBaseScript(s, r)
    requires (exists k: nat :: P2pkhAt(Walk(s, 0).value, k)) || exists k: nat :: P2shAt(Walk(s, 0).value, k)
    ensures var ops := Walk(s, 0).value;
            i < |ops| && StandsAt(s, ops[i].start, r)
            && if exists k: nat :: P2pkhAt(ops, k)
               then |r| == 25 && P2pkhAt(ops, i) && forall j: nat :: j < i ==> !P2pkhAt(ops, j)
               else |r| == 23 && P2shAt(ops, i) && forall j: nat :: j < i ==> !P2shAt(ops, j)
  {
    hide Walk, P2pkhScript, P2shScript;
    var ops := Walk(s, 0).value;
    if k: nat :| P2pkhAt(ops, k) {
      i :| P2pkhAt(ops, i) && (forall j: nat :: j < i ==> !P2pkhAt(ops, j)) && StandsAt(s, ops[i].start, r) && IsP2pkhScript(r);
    } else {
      i :| P2shAt(ops, i) && (forall j: nat :: j < i ==> !P2shAt(ops, j)) && StandsAt(s, ops[i].start, r) && IsP2shScript(r);
    }
  }

  /** A script has one base script. */
  lemma BaseIsOne(s: Bytes, a: Bytes, b: Bytes)
    requires IsBaseScript(s, a) && IsBaseScript(s, b)
    ensures a == b
  {
    hide Walk, P2pkhAt, P2shAt, IsP2pkhScript, IsP2shScript, PreambleEnd;
    if Walk(s, 0).Some? && ((exists k: nat :: P2pkhAt(Walk(s, 0).value, k)) || exists k: nat :: P2shAt(Walk(s, 0).value, k)) {
      var i := FirstOfThem(s, a);
      var k := FirstOfThem(s, b);
      assert i == k;
    }
  }

  /** A fungible token output, whose address stands first: whatever token code follows, the base
      script is the address script, so a wallet finds the token under its normal address. */
  lemma BaseOfAddressFirst(s: Bytes, h: Bytes, r: Bytes)
    requires |h| == 20 && StandsAt(s, 0, P2pkhScript(h)) && Walk(s, 0).Some? && IsBaseScript(s, r)
    ensures r == P2pkhScript(h)
  {
    hide Walk, P2pkhScript, IsBaseScript;
    P2pkhWalk(s, 0, h);
    P2pkhLength(h);
    BaseIsFirstTemplate(s, r, 0);
  }

  lemma P2pkhLength(h: Bytes)
    ensures |P2pkhScript(h)| == 5 + |h|
  {
  }

  /** A singleton output, whose address follows the ref and a drop. */
  lemma BaseOfAddressLast(ref: Bytes, h: Bytes, r: Bytes)
    requires |ref| == 36 && |h| == 20
    requires IsBaseScript([OP_PUSHINPUTREFSINGLETON] + ref + [OP_DROP] + P2pkhScript(h), r)
    ensures r == P2pkhScript(h)
  {
    hide P2pkhScript, IsBaseScript, Walk;
    P2pkhLength(h);
    var s := [OP_PUSHINPUTREFSINGLETON] + ref + [OP_DROP] + P2pkhScript(h);
    assert s[38..38 + 25] == P2pkhScript(h);
    RefAndDropWalk(s, h);
    BaseIsFirstTemplate(s, r, 2);
  }

  lemma RefAndDropWalk(s: Bytes, h: Bytes)
    requires |h| == 20 && |s| == 63 && s[0] == OP_PUSHINPUTREFSINGLETON && s[37] == OP_DROP
    requires StandsAt(s, 38, P2pkhScript(h))
    ensures Walk(s, 0).Some?
    ensures var ops := Walk(s, 0).value;
            P2pkhAt(ops, 2) && ops[2].start == 38 && !P2pkhAt(ops, 0) && !P2pkhAt(ops, 1)
  {
    hide P2pkhScript, Walk;
    WalkCons(s, 0, Op(OP_PUSHINPUTREFSINGLETON, 36, 0, 37));
    WalkCons(s, 37, Op(OP_DROP, 0, 37, 38));
    P2pkhLength(h);
    P2pkhWalk(s, 38, h);
    var ops, tail := Walk(s, 0).value, Walk(s, 38).value;
    assert forall i :: 0 <= i < |tail| ==> ops[i + 2] == tail[i];
  }
}
