/** The file write and append system calls (clks/kernel/syscall.c), which hand the caller's
    data to the file system in chunks copied through the kernel heap. */
module SyscallFs {
  import opened Machine
  import opened Paths
  import opened FsTable
  import opened FsRoom
  import opened Fs
  import opened FsRuns
  import H = Heap

  const CHUNK: nat := 65536

  function Advance(src: Ptr, n: nat): Ptr {
    match src
    case Nil => Nil
    case Const(bs) => Const(if n <= |bs| then bs[n..] else [])
    case InHeap(a) => InHeap(a + n)
  }

  /** What the file holds before the first byte of the call: its old bytes in append mode. */
  function Base(t: Tree, path: string, append: bool): seq<byte> {
    if append && NormalPath(path, PATH_MAX).Some? then Before(t, NameOf(path)) else []
  }

  /** After `done` bytes of a call that began with tree `t`. */
  ghost predicate Progress(t: Tree, t2: Tree, path: string, append: bool, data: seq<byte>, done: nat) {
    if done == 0 then Quiet(t, t2, path)
    else done <= |data| && CanName(path) && Written(t, t2, NameOf(path), Base(t, path, append) + data[..done])
  }

  lemma PieceReadable(live: map<int, nat>, src: Ptr, size: nat, off: nat, n: nat, mem: seq<byte>)
    requires ReadableIn(live, src, size) && src != Nil && off + n <= size
    requires src.InHeap? ==> 0 <= src.at && src.at + size <= |mem|
    ensures ReadableIn(live, Advance(src, off), n) && Advance(src, off) != Nil
    ensures |BytesAt(mem, src, size)| == size
    ensures BytesAt(mem, Advance(src, off), n) == BytesAt(mem, src, size)[off..off+n]
  {
    match src
    case Const(bs) =>
      SliceOfSlice(bs, 0, size, off, n);
      SliceOfSlice(bs, off, |bs| - off, 0, n);
      assert bs[off..][..n] == bs[off..|bs|][0..n] && bs[..size] == bs[0..size];
    case InHeap(a) => SliceOfSlice(mem, a, size, off, n);
  }

  /** What one chunk of `n` bytes needs: a block for its copy and then, with that block taken, what
      the write or append of the copy needs. */
  ghost predicate CanPut(ready: bool, t: Tree, bs: seq<H.Block>, path: string, n: nat, append: bool)
    requires n <= CHUNK
  {
    && ready && CanName(path) && H.Malloc(bs, n).1.Some?
    && var (after, copy) := H.Malloc(bs, n);
       if append then FileSystem.CanAppend(t, after, NameOf(path), InHeap(copy.value), n)
       else FileSystem.CanWrite(t, after, NameOf(path), InHeap(copy.value), n)
  }

  /** What a chunk needs does not depend on directories that a try has made. */
  lemma SameNeeds(t: Tree, t2: Tree, bs: seq<H.Block>, path: string, n: nat, append: bool, ready: bool)
    requires n <= CHUNK && Unwritten(t, t2, path)
    ensures CanPut(ready, t2, bs, path, n, append) == CanPut(ready, t, bs, path, n, append)
  {
    hide NormalPath, Parent, FileOnTheWay, Room, H.Malloc, FileSystem.FitsTwice, IsTempFile, InTemp;
    if CanName(path) {
      NamedPath(path);
      GrownRoom(t, t2, NameOf(path));
      GrownEntry(t, t2, Parent(NameOf(path)), NameOf(path));
    }
  }

  lemma NamedPath(path: string)
    requires CanName(path)
    ensures NameOf(path) != ""
  {
  }

  /** One chunk: a copy of it on the heap goes to the file system and is released again. */
  method PutChunk(fs: FileSystem, path: string, piece: Ptr, n: nat, append: bool) returns (ok: bool)
    requires fs.Valid() && 0 < n <= CHUNK && piece != Nil && fs.Readable(piece, n)
    modifies fs`nodesUsed, fs.nodes, fs.heap, fs.heap.bytes
    ensures fs.Valid() && fs.heap.bytes == old(fs.heap.bytes)
    ensures fs.Foreign() == old(fs.Foreign()) && H.Kept(fs.Foreign(), old(fs.heap.bytes[..]), fs.heap.bytes[..])
    ensures ok ==> CanName(path)
    ensures ok ==> Written(old(fs.Files()), fs.Files(), NameOf(path),
                           old(Base(fs.Files(), path, append)) + old(BytesAt(fs.heap.bytes[..], piece, n)))
    ensures ok <==> CanPut(fs.ready, old(fs.Files()), old(fs.heap.blocks), path, n, append)
    ensures !ok ==> Unwritten(old(fs.Files()), fs.Files(), path) && fs.heap.blocks == old(fs.heap.blocks)
  {
    hide View, NormalPath, Parent, Written, GrownByDirs, Sound, Owned, H.Live, H.Arena.Valid, H.Kept, BytesAt, ReadableIn,
         H.Malloc, H.AlignUp, H.Apply, H.Legal, FileSystem.CanWrite, FileSystem.CanAppend;
    ghost var live, foreign, before, bs := fs.Live(), fs.Foreign(), fs.heap.bytes[..], fs.heap.blocks;
    H.KeptSame(foreign, before);
    fs.HeapOk();
    var copy := fs.Acquire(n);
    H.KeptFewer(live, foreign, before, fs.heap.bytes[..]);
    if copy == H.NULL {
      return false;
    }
    assert fs.Live() - {copy} == live;
    fs.NoBytes(fs.heap.bytes[..], InHeap(copy));
    fs.CopyPart(copy, 0, piece, n, live, before);
    fs.ReadableBlock(copy, n);
    ghost var more, middle := fs.Foreign(), fs.heap.bytes[..];
    H.KeptFewer(live, foreign, before, middle);
    ghost var bytes := BytesAt(before, piece, n);
    assert [] + bytes == bytes;
    assert BytesAt(middle, InHeap(copy), n) == bytes;
    assert append && NormalPath(path, PATH_MAX).Some? ==> Base(fs.Files(), path, append) == fs.BytesOf(path);
    if append {
      ok := fs.Append(path, InHeap(copy), n);
    } else {
      ok := fs.WriteAll(path, InHeap(copy), n);
    }
    ghost var later := fs.heap.bytes[..];
    if !ok { H.ReleaseUndoesAllocate(bs, n); }
    fs.FreeForeign(copy);
    assert fs.Foreign() == foreign;
    H.KeptFewer(more, foreign, middle, later);
    H.KeptTwice(foreign, before, middle, later);
    H.KeptTwice(foreign, before, later, fs.heap.bytes[..]);
  }

  /** One more chunk on top of `done` bytes. */
  lemma ProgressStep(t: Tree, t1: Tree, t2: Tree, path: string, append: bool, data: seq<byte>, done: nat, n: nat)
    requires 0 < n && done + n <= |data| && CanName(path)
    requires if done == 0 then t1 == t else Progress(t, t1, path, append, data, done)
    requires Written(t1, t2, NameOf(path), Base(t1, path, append || done > 0) + data[done..done+n])
    ensures Progress(t, t2, path, append, data, done + n)
  {
  }

  /** A chunk that fails leaves the bytes that were there. */
  lemma ProgressStays(t: Tree, t1: Tree, t2: Tree, path: string, append: bool, data: seq<byte>, done: nat)
    requires if done == 0 then t1 == t else Progress(t, t1, path, append, data, done)
    requires Unwritten(t1, t2, path)
    ensures Progress(t, t2, path, append, data, done)
  {
  }

  /** The state between two chunks of a call. */
  ghost predicate Between(t: Tree, t1: Tree, path: string, append: bool, data: seq<byte>, done: nat) {
    if done == 0 then t1 == t else CanName(path) && Progress(t, t1, path, append, data, done)
  }

  /** The body of the loop, for the chunk that follows the first `done` bytes of `src`. */
  method PutNext(fs: FileSystem, path: string, src: Ptr, size: nat, append: bool, done: nat, n: nat,
                 ghost t: Tree, ghost data: seq<byte>) returns (ok: bool)
    requires fs.Valid() && src != Nil && 0 < n <= CHUNK && done + n <= size
    requires fs.Readable(src, size) && (n < size ==> ReadableIn(fs.Foreign(), src, size))
    requires data == BytesAt(fs.heap.bytes[..], src, size)
    requires Between(t, fs.Files(), path, append, data, done)
    modifies fs`nodesUsed, fs.nodes, fs.heap, fs.heap.bytes
    ensures fs.Valid() && fs.heap.bytes == old(fs.heap.bytes)
    ensures fs.Foreign() == old(fs.Foreign()) && H.Kept(fs.Foreign(), old(fs.heap.bytes[..]), fs.heap.bytes[..])
    ensures |data| == size && (n < size ==> data == BytesAt(fs.heap.bytes[..], src, size))
    ensures ok <==> CanPut(fs.ready, old(fs.Files()), old(fs.heap.blocks), path, n, append || done > 0)
    ensures ok ==> Between(t, fs.Files(), path, append, data, done + n)
    ensures !ok ==> Progress(t, fs.Files(), path, append, data, done)
    ensures !ok ==> !CanPut(fs.ready, fs.Files(), fs.heap.blocks, path, n, append || done > 0)
  {
    hide View, NormalPath, Parent, Written, GrownByDirs, Sound, Owned, H.Live, H.Arena.Valid, H.Kept, BytesAt, ReadableIn,
         Progress, Base, CanPut;
    ghost var before, t1 := fs.heap.bytes[..], fs.Files();
    H.KeptSame(fs.Foreign(), before);
    fs.HeapOk();
    fs.SourceInArena(src, size);
    PieceReadable(fs.Live(), src, size, done, n, before);
    ok := PutChunk(fs, path, Advance(src, done), n, append || done > 0);
    if n < size { fs.SourceKept(src, size, before, fs.heap.bytes[..]); }
    if ok {
      ProgressStep(t, t1, fs.Files(), path, append, data, done, n);
    } else {
      ProgressStays(t, t1, fs.Files(), path, append, data, done);
      SameNeeds(t1, fs.Files(), fs.heap.blocks, path, n, append || done > 0, fs.ready);
    }
  }

  function Piece(rest: nat): (n: nat)
    ensures n <= CHUNK && n <= rest
  {
    if rest > CHUNK then CHUNK else rest
  }

  /** What a call without data needs. */
  ghost predicate CanPutNothing(ready: bool, t: Tree, bs: seq<H.Block>, path: string, append: bool) {
    && ready && CanName(path)
    && if append then FileSystem.CanAppend(t, bs, NameOf(path), Nil, 0) else FileSystem.CanWrite(t, bs, NameOf(path), Nil, 0)
  }

  /** clks_syscall_fs_write_common. On success the file holds the data, after its old bytes in
      append mode; a call that fails midway leaves that result cut at a chunk boundary, and fails
      because what it leaves has no room for the next chunk. */
  method WriteCommon(fs: FileSystem, path: string, src: Ptr, size: nat, append: bool) returns (ok: bool, ghost done: nat)
    requires fs.Valid() && size < U64 && fs.Readable(src, size)
    requires size > CHUNK ==> ReadableIn(fs.Foreign(), src, size)
    modifies fs`nodesUsed, fs.nodes, fs.heap, fs.heap.bytes
    ensures fs.Valid() && fs.heap.bytes == old(fs.heap.bytes)
    ensures fs.Foreign() == old(fs.Foreign()) && H.Kept(fs.Foreign(), old(fs.heap.bytes[..]), fs.heap.bytes[..])
    ensures var data, base := old(BytesAt(fs.heap.bytes[..], src, size)), old(Base(fs.Files(), path, append));
            && (ok ==> CanName(path) && Written(old(fs.Files()), fs.Files(), NameOf(path), base + data))
            && (!ok ==> done % CHUNK == 0 && Progress(old(fs.Files()), fs.Files(), path, append, data, done))
    ensures size == 0 ==> (ok <==> CanPutNothing(fs.ready, old(fs.Files()), old(fs.heap.blocks), path, append))
    ensures 0 < size <= CHUNK ==> (ok <==> src != Nil && CanPut(fs.ready, old(fs.Files()), old(fs.heap.blocks), path, size, append))
    ensures !ok && size > 0 && src != Nil ==>
              done < size && !CanPut(fs.ready, fs.Files(), fs.heap.blocks, path, Piece(size - done), append || done > 0)
  {
    hide View, NormalPath, Parent, Written, GrownByDirs, Sound, Owned, H.Live, H.Arena.Valid, H.Kept, BytesAt, ReadableIn,
         Progress, Base, CanPut, CanPutNothing;
    ghost var t, foreign, before := fs.Files(), fs.Foreign(), fs.heap.bytes[..];
    ghost var bs := fs.heap.blocks;
    H.KeptSame(foreign, before);
    ghost var data := BytesAt(before, src, size);
    done := 0;
    QuietIsNoProgress(t, path, append, data);
    if size == 0 {
      fs.NoBytes(before, src);
      ok := PutNothing(fs, path, append, data);
      return;
    }
    if src == Nil {
      return false, 0;
    }
    var remaining, sent := size, 0;
    while remaining > 0
      invariant 0 <= remaining && sent + remaining == size && done == sent && (sent % CHUNK == 0 || remaining == 0)
      invariant fs.Valid() && fs.heap.bytes == old(fs.heap.bytes)
      invariant fs.Foreign() == foreign && H.Kept(foreign, before, fs.heap.bytes[..])
      invariant remaining > 0 ==> data == BytesAt(fs.heap.bytes[..], src, size) && fs.Readable(src, size)
      invariant sent > 0 ==> |data| == size
      invariant Between(t, fs.Files(), path, append, data, sent)
      invariant if sent == 0 then fs.heap.blocks == bs else size <= CHUNK ==> CanPut(fs.ready, t, bs, path, size, append)
    {
      var n := Piece(remaining);
      ghost var now := fs.heap.bytes[..];
      ok := PutNext(fs, path, src, size, append, sent, n, t, data);
      H.KeptTwice(foreign, before, now, fs.heap.bytes[..]);
      if !ok {
        return;
      }
      if n < remaining { StillInForeign(fs, src, size); }
      sent, remaining := sent + n, remaining - n;
      done := sent;
    }
    AllProgress(t, fs.Files(), path, append, data);
    ok := true;
  }

  lemma StillInForeign(fs: FileSystem, src: Ptr, size: nat)
    requires fs.nodesUsed <= fs.nodes.Length && ReadableIn(fs.Foreign(), src, size)
    ensures fs.Readable(src, size)
  {
    hide H.Live, Owned;
  }

  lemma QuietIsNoProgress(t: Tree, path: string, append: bool, data: seq<byte>)
    ensures Progress(t, t, path, append, data, 0)
  {
  }

  lemma AllProgress(t: Tree, t2: Tree, path: string, append: bool, data: seq<byte>)
    requires data != [] && Progress(t, t2, path, append, data, |data|)
    ensures Written(t, t2, NameOf(path), Base(t, path, append) + data)
  {
  }

  /** The branch for a call without data. */
  method PutNothing(fs: FileSystem, path: string, append: bool, ghost data: seq<byte>) returns (ok: bool)
    requires fs.Valid() && data == []
    modifies fs`nodesUsed, fs.nodes, fs.heap, fs.heap.bytes
    ensures fs.Valid() && fs.heap.bytes == old(fs.heap.bytes)
    ensures fs.Foreign() == old(fs.Foreign()) && H.Kept(fs.Foreign(), old(fs.heap.bytes[..]), fs.heap.bytes[..])
    ensures ok <==> CanPutNothing(fs.ready, old(fs.Files()), old(fs.heap.blocks), path, append)
    ensures ok ==> CanName(path)
    ensures ok ==> Written(old(fs.Files()), fs.Files(), NameOf(path), old(Base(fs.Files(), path, append)) + data)
    ensures !ok ==> Progress(old(fs.Files()), fs.Files(), path, append, data, 0)
  {
    hide View, NormalPath, Parent, Written, GrownByDirs, Sound, Owned, H.Live, H.Arena.Valid, H.Kept, H.Malloc, H.AlignUp,
         FileSystem.CanWrite, FileSystem.CanAppend;
    ghost var base := Base(fs.Files(), path, append);
    assert base + [] == base && [] + data == data;
    assert append && NormalPath(path, PATH_MAX).Some? ==> base == fs.BytesOf(path);
    if append {
      ok := fs.Append(path, Nil, 0);
    } else {
      ok := fs.WriteAll(path, Nil, 0);
    }
  }
}
