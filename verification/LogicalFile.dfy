/** A flat file split over several files of one size (`LogicalFile` of electrumx/lib/util.py):
    it reads and writes like one byte array, as long as no write leaves a hole. */
module LogicalFiles {
  import opened ByteStrings

  /** Up to `size` bytes from `start` on; all of them for a negative size. */
  function Slice(c: Bytes, start: nat, size: int): Bytes {
    if start >= |c| then [] else if size < 0 || start + size > |c| then c[start..] else c[start..start + size]
  }

  /** The files in order, concatenated. */
  function Content(files: seq<Bytes>): Bytes {
    if files == [] then [] else files[0] + Content(files[1..])
  }

  /** The bytes in `i` full files. */
  function Base(i: nat, fileSize: nat): (r: nat)
  {
    if i == 0 then 0 else Base(i - 1, fileSize) + fileSize
  }

  lemma {:induction false} BaseIs(i: nat, fileSize: nat)
    ensures Base(i, fileSize) == i * fileSize
  {
    if i > 0 {
      BaseIs(i - 1, fileSize);
    }
  }

  /** Which file a position is in, and where. */
  lemma Position(start: nat, fileSize: nat)
    requires fileSize > 0
    ensures start == Base(start / fileSize, fileSize) + start % fileSize && 0 <= start % fileSize < fileSize
  {
    BaseIs(start / fileSize, fileSize);
  }

  /** All files but the last are full, and none is longer. */
  predicate Full(files: seq<Bytes>, fileSize: nat) {
    && (forall i :: 0 <= i < |files| ==> |files[i]| <= fileSize)
    && (forall i :: 0 <= i < |files| - 1 ==> |files[i]| == fileSize)
  }

  /** From the start of file `i` on, the content is that of the files from `i` on. */
  lemma {:induction false} ContentFrom(files: seq<Bytes>, i: nat, fileSize: nat)
    requires Full(files, fileSize) && i < |files|
    ensures Base(i, fileSize) <= |Content(files)|
    ensures Content(files)[Base(i, fileSize)..] == files[i] + Content(files[i + 1..])
    decreases i
  {
    if i > 0 {
      var rest := files[1..];
      assert forall j :: 0 <= j < |rest| ==> rest[j] == files[j + 1];
      ContentFrom(rest, i - 1, fileSize);
      assert rest[i..] == files[i + 1..];
      BaseFirst(i, fileSize);
      assert Content(files)[fileSize..] == Content(rest);
      assert Content(files)[fileSize..][Base(i - 1, fileSize)..] == Content(files)[Base(i, fileSize)..];
    }
  }

  lemma {:induction false} BaseFirst(i: nat, fileSize: nat)
    requires i > 0
    ensures Base(i, fileSize) == fileSize + Base(i - 1, fileSize)
  {
  }

  lemma {:induction false} ContentLength(files: seq<Bytes>, fileSize: nat)
    requires Full(files, fileSize)
    ensures |Content(files)| <= Base(|files|, fileSize)
    ensures |files| > 0 ==> |Content(files)| == Base(|files| - 1, fileSize) + |files[|files| - 1]|
  {
    if files != [] {
      ContentFrom(files, |files| - 1, fileSize);
      assert files[|files|..] == [];
    }
  }

  lemma {:induction false} ContentConcat(a: seq<Bytes>, b: seq<Bytes>)
    ensures Content(a + b) == Content(a) + Content(b)
  {
    if a == [] {
      assert a + b == b;
    } else {
      assert (a + b)[1..] == a[1..] + b;
      ContentConcat(a[1..], b);
    }
  }

  lemma {:induction false} FullLength(files: seq<Bytes>, i: nat, fileSize: nat)
    requires Full(files, fileSize) && i < |files|
    ensures |Content(files[..i])| == Base(i, fileSize)
  {
    if i > 0 {
      var front := files[..i];
      assert front[..i - 1] == files[..i - 1];
      FullLength(files, i - 1, fileSize);
      assert front == files[..i - 1] + [files[i - 1]];
      ContentConcat(files[..i - 1], [files[i - 1]]);
      OneFile(files[i - 1]);
    }
  }

  lemma OneFile(f: Bytes)
    ensures Content([f]) == f && Content([]) == []
  {
    assert [f][1..] == [];
  }

  /** One part read: what is left of the file at the position. */
  lemma ReadPart(files: seq<Bytes>, fileSize: nat, start: nat, i: nat, off: nat, size: int)
    requires Full(files, fileSize) && start == Base(i, fileSize) + off && off < fileSize && size != 0
    ensures var part := if i < |files| then Slice(files[i], off, size) else [];
            var c := Content(files);
            && (size > 0 ==> |part| <= size)
            && (part == [] ==> Slice(c, start, size) == [])
            && (part != [] ==> Slice(c, start, size)
                               == part + Slice(c, start + |part|, if size > 0 then size - |part| else size))
  {
    hide Content, Full;
    var c := Content(files);
    if i < |files| {
      ContentFrom(files, i, fileSize);
      var tail := Content(files[i + 1..]);
      var f := files[i];
      assert c[Base(i, fileSize)..] == f + tail;
      if off < |f| {
        assert c[start..] == f[off..] + tail;
        TakeParts(c, start, f[off..], tail, size);
      } else {
        NotFull(files, i, fileSize);
        assert tail == [];
      }
    } else {
      ContentLength(files, fileSize);
      BaseGrows(|files|, i, fileSize);
    }
  }

  lemma NotFull(files: seq<Bytes>, i: nat, fileSize: nat)
    requires Full(files, fileSize) && i < |files|
    ensures |files[i]| < fileSize ==> Content(files[i + 1..]) == []
  {
    if |files[i]| < fileSize {
      assert files[i + 1..] == [];
    }
  }

  lemma {:induction false} BaseGrows(i: nat, j: nat, fileSize: nat)
    requires i <= j
    ensures Base(i, fileSize) <= Base(j, fileSize)
  {
    if i < j {
      BaseGrows(i, j - 1, fileSize);
    }
  }

  lemma TakeParts(c: Bytes, start: nat, a: Bytes, tail: Bytes, size: int)
    requires start < |c| && c[start..] == a + tail && a != [] && size != 0
    ensures var part := Slice(a, 0, size);
            Slice(c, start, size) == part + Slice(c, start + |part|, if size > 0 then size - |part| else size)
  {
    var part := Slice(a, 0, size);
    assert forall k :: 0 <= k < |a| ==> c[start + k] == a[k];
  }

  class LogicalFile {
    const fileSize: nat
    var files: seq<Bytes>   // by number

    ghost predicate Valid()
      reads this
    {
      fileSize > 0 && Full(files, fileSize)
    }

    constructor (fileSize: nat)
      requires fileSize > 0
      ensures Valid() && files == [] && this.fileSize == fileSize
    {
      this.fileSize, files := fileSize, [];
    }

    method Read(start0: nat, size0: int) returns (r: Bytes)
      requires Valid()
      ensures r == Slice(Content(files), start0, size0)
    {
      hide Content, Full, Base, Slice;
      r := [];
      var start: nat, size: int := start0, size0;
      SliceNone(Content(files), start);
      while size != 0
        invariant r + Slice(Content(files), start, size) == Slice(Content(files), start0, size0)
        invariant size < 0 ==> size == size0
        decreases if size >= 0 then size else |Slice(Content(files), start, size)| + 1
      {
        var i, off := start / fileSize, start % fileSize;
        Position(start, fileSize);
        ReadPart(files, fileSize, start, i, off, size);
        if i >= |files| {
          return;
        }
        var part := Slice(files[i], off, size);
        if part == [] {
          return;
        }
        r := r + part;
        start := start + |part|;
        if size > 0 {
          size := size - |part|;
          SliceNone(Content(files), start);
        }
      }
      SliceNone(Content(files), start);
    }

    /** Writes at most to the end of the file at the position. */
    method WritePart(start: nat, part: Bytes)
      requires Valid() && start <= |Content(files)| && part != [] && |part| <= fileSize - start % fileSize
      modifies this
      ensures Valid() && Content(files) == Overwritten(old(Content(files)), start, part)
    {
      hide Content, Full, Base;
      var i, off := start / fileSize, start % fileSize;
      Position(start, fileSize);
      WriteAt(files, fileSize, start, i, off, part);
      var f := if i < |files| then files[i] else [];
      f := f[..off] + part + Slice(f, off + |part|, -1);
      if i < |files| {
        files := files[i := f];
      } else {
        files := files + [f];
      }
    }

    /** A write that begins inside the file or at its end. */
    method Write(start0: nat, b0: Bytes)
      requires Valid() && start0 <= |Content(files)|
      modifies this
      ensures Valid() && Content(files) == Overwritten(old(Content(files)), start0, b0)
    {
      hide Content, Full, Overwritten;
      var start: nat, b: Bytes := start0, b0;
      ghost var c0 := Content(files);
      OverwriteNothing(c0, start0);
      assert b0[..0] == [];
      while b != []
        invariant Valid() && start0 <= start <= start0 + |b0| && b == b0[start - start0..]
        invariant Content(files) == Overwritten(c0, start0, b0[..start - start0]) && start <= |Content(files)|
        decreases |b|
      {
        var size := if |b| <= fileSize - start % fileSize then |b| else fileSize - start % fileSize;
        ghost var done := b0[..start - start0];
        WritePart(start, b[..size]);
        OverwriteTwice(c0, start0, done, b[..size]);
        assert done + b[..size] == b0[..start + size - start0];
        b := b[size..];
        start := start + size;
      }
      assert b0[..|b0|] == b0;
    }
  }

  lemma SliceNone(c: Bytes, start: nat)
    ensures Slice(c, start, 0) == []
  {
  }

  lemma OverwriteNothing(c: Bytes, start: nat)
    requires start <= |c|
    ensures Overwritten(c, start, []) == c
  {
  }

  lemma OverwriteTwice(c: Bytes, start: nat, a: Bytes, b: Bytes)
    requires start <= |c|
    ensures Overwritten(Overwritten(c, start, a), start + |a|, b) == Overwritten(c, start, a + b)
  {
  }

  /** Writing into one of the files is writing into the content. */
  lemma WriteAt(files: seq<Bytes>, fileSize: nat, start: nat, i: nat, off: nat, part: Bytes)
    requires Full(files, fileSize) && start == Base(i, fileSize) + off && off < fileSize
    requires start <= |Content(files)| && part != [] && |part| <= fileSize - off
    ensures i <= |files|
    ensures var f := if i < |files| then files[i] else [];
            && off <= |f|
            && (var f' := f[..off] + part + Slice(f, off + |part|, -1);
                var files' := if i < |files| then files[i := f'] else files + [f'];
                Full(files', fileSize) && Content(files') == Overwritten(Content(files), start, part))
  {
    hide Content, Full, Overwritten;
    ContentLength(files, fileSize);
    if i < |files| {
      WriteInside(files, fileSize, start, i, off, part);
    } else {
      if i > |files| {
        BaseGrows(|files|, i - 1, fileSize);
      }
      WriteBehind(files, fileSize, start, part);
      assert off == 0 && [] + part + Slice([], |part|, -1) == part;
    }
  }

  lemma WriteBehind(files: seq<Bytes>, fileSize: nat, start: nat, part: Bytes)
    requires Full(files, fileSize) && start == |Content(files)| == Base(|files|, fileSize) && |part| <= fileSize
    ensures Full(files + [part], fileSize) && Content(files + [part]) == Overwritten(Content(files), start, part)
  {
    hide Content;
    ContentLength(files, fileSize);
    ContentConcat(files, [part]);
    OneFile(part);
  }

  lemma WriteInside(files: seq<Bytes>, fileSize: nat, start: nat, i: nat, off: nat, part: Bytes)
    requires Full(files, fileSize) && i < |files| && start == Base(i, fileSize) + off && off < fileSize
    requires start <= |Content(files)| && part != [] && |part| <= fileSize - off
    ensures off <= |files[i]|
    ensures var f' := files[i][..off] + part + Slice(files[i], off + |part|, -1);
            && Full(files[i := f'], fileSize)
            && start <= |Content(files)| && Content(files[i := f']) == Overwritten(Content(files), start, part)
  {
    hide Content, Base;
    ContentLength(files, fileSize);
    var f, front, back := files[i], files[..i], files[i + 1..];
    assert i < |files| - 1 ==> |f| == fileSize;
    var f' := f[..off] + part + Slice(f, off + |part|, -1);
    assert files == front + [f] + back && files[i := f'] == front + [f'] + back;
    ThreeParts(front, f, back);
    ThreeParts(front, f', back);
    FullLength(files, i, fileSize);
    NotFull(files, i, fileSize);
    OverwriteMiddle(Content(front), f, Content(back), off, part);
  }

  lemma ThreeParts(front: seq<Bytes>, f: Bytes, back: seq<Bytes>)
    ensures Content(front + [f] + back) == Content(front) + f + Content(back)
  {
    ContentConcat(front + [f], back);
    ContentConcat(front, [f]);
    OneFile(f);
  }

  lemma OverwriteMiddle(a: Bytes, f: Bytes, b: Bytes, off: nat, part: Bytes)
    requires off <= |f| && (off + |part| > |f| ==> b == [])
    ensures a + (f[..off] + part + Slice(f, off + |part|, -1)) + b == Overwritten(a + f + b, |a| + off, part)
  {
    var head, tail := f[..off], Slice(f, off + |part|, -1);
    SliceTail(a, f, b, off + |part|);
    assert (a + f + b)[..|a| + off] == a + head;
    OverwrittenIs(a + f + b, |a| + off, part);
    FiveParts(a, head, part, tail, b);
  }

  lemma OverwrittenIs(c: Bytes, start: nat, part: Bytes)
    requires start <= |c|
    ensures Overwritten(c, start, part) == c[..start] + part + Slice(c, start + |part|, -1)
  {
  }

  lemma FiveParts(a: Bytes, head: Bytes, part: Bytes, tail: Bytes, b: Bytes)
    ensures a + (head + part + tail) + b == a + head + part + (tail + b)
  {
  }

  lemma SliceTail(a: Bytes, f: Bytes, b: Bytes, end: nat)
    requires end > |f| ==> b == []
    ensures Slice(a + f + b, |a| + end, -1) == Slice(f, end, -1) + b
  {
    if end <= |f| {
      assert (a + f + b)[|a| + end..] == f[end..] + b;
    }
  }
}
