/** What has to be there for a write to be done, in terms of paths and of free blocks
    (clks/kernel/fs.c, clks/kernel/syscall.c, clks/kernel/exec.c). */
module FsSuccess {
  import opened Machine
  import opened Paths
  import opened FsTable
  import opened FsRoom
  import opened Fs
  import opened FsInstall
  import opened SyscallFs
  import opened Descriptors
  import Copy
  import H = Heap

  /** The tree has a place for file `p`: what is above it are directories as far as it is there, it
      is no directory itself, and there are no more paths than nodes. */
  ghost predicate HasPlace(t: Tree, p: string) {
    && (forall q :: q in t && q < p && q != "" && q[|q|-1] != '/' && p[|q|] == '/' ==> t[q] == Dir)
    && (p in t ==> t[p] != Dir)
    && |t.Keys + Way(p)| <= 512
  }

  lemma PlaceMeans(t: Tree, p: string)
    requires p != ""
    ensures HasPlace(t, p) <==> !FileOnTheWay(t, Parent(p)) && !(p in t && t[p] == Dir) && Room(t, p)
  {
    hide Parent;
    if !FileOnTheWay(t, Parent(p)) {
      forall q | q in t && q < p && q != "" && q[|q|-1] != '/' && p[|q|] == '/'
        ensures t[q] == Dir
      {
        WayDown(q, p);
      }
    }
    if HasPlace(t, p) && FileOnTheWay(t, Parent(p)) {
      var q :| q in t && t[q].File? && OnTheWay(q, Parent(p));
      WayUp(q, p);
      assert false;
    }
  }

  /** Some free block holds `n` bytes, rounded up to 16. */
  ghost predicate OneBlock(bs: seq<H.Block>, n: nat) {
    exists b :: b in bs && b.free && b.size >= (n + 15) / 16 * 16
  }

  /** Two free blocks hold `n` bytes each, or one holds both with a header between. */
  ghost predicate TwoBlocks(bs: seq<H.Block>, n: nat) {
    var need := (n + 15) / 16 * 16;
    || (exists i, j :: 0 <= i < j < |bs| && bs[i].free && bs[j].free && bs[i].size >= need && bs[j].size >= need)
    || (exists i :: 0 <= i < |bs| && bs[i].free && bs[i].size >= 2 * need + 40)
  }

  lemma OneMeans(bs: seq<H.Block>, n: nat)
    requires 0 < n <= U64 - 16
    ensures OneBlock(bs, n) <==> H.Malloc(bs, n).1.Some?
  {
    hide H.Malloc;
    H.RoundedUp(n);
    assert (n + 15) % U64 == n + 15;
    H.MallocFailsWhenNothingFits(bs, n);
  }

  lemma TwoMeans(bs: seq<H.Block>, n: nat)
    requires H.Ok(bs) && n <= U64 - 16
    ensures FileSystem.FitsTwice(bs, n) <==> n == 0 || TwoBlocks(bs, n)
  {
    hide H.Malloc, H.Ok;
    if n > 0 { H.FitTwoMeans(bs, n); }
  }

  /** A write needs a place and, for data that there is, a free block. */
  lemma WriteNeeds(t: Tree, bs: seq<H.Block>, p: string, data: Ptr, size: nat)
    requires p != "" && size <= U64 - 16
    ensures FileSystem.CanWrite(t, bs, p, data, size) <==> HasPlace(t, p) && (size == 0 || (data != Nil && OneBlock(bs, size)))
  {
    hide H.Malloc, HasPlace, OneBlock, FileOnTheWay, Room, Parent;
    PlaceMeans(t, p);
    if size > 0 { OneMeans(bs, size); }
  }

  /** An append to a file needs two blocks for all its bytes; where there is no file it is a write. */
  lemma AppendNeeds(t: Tree, bs: seq<H.Block>, p: string, data: Ptr, size: nat)
    requires H.Ok(bs) && p != "" && size <= U64 - 16
    requires p in t && t[p].File? ==> |t[p].bytes| + size <= U64 - 16
    ensures FileSystem.CanAppend(t, bs, p, data, size)
       <==> if p in t && t[p].File?
            then (size == 0 || data != Nil) && (|t[p].bytes| + size == 0 || TwoBlocks(bs, |t[p].bytes| + size))
            else HasPlace(t, p) && (size == 0 || (data != Nil && OneBlock(bs, size)))
  {
    hide H.Malloc, HasPlace, OneBlock, TwoBlocks, FileOnTheWay, Room, Parent, H.Ok, FileSystem.FitsTwice, FileSystem.CanWrite;
    if p in t && t[p].File? {
      TwoMeans(bs, |t[p].bytes| + size);
    } else {
      WriteNeeds(t, bs, p, data, size);
    }
  }

  /** One chunk of a write call needs a place and two blocks, since it is copied first. */
  lemma ChunkNeeds(t: Tree, bs: seq<H.Block>, path: string, n: nat, ready: bool)
    requires H.Ok(bs) && 0 < n <= CHUNK && CanName(path)
    ensures CanPut(ready, t, bs, path, n, false) <==> ready && HasPlace(t, NameOf(path)) && TwoBlocks(bs, n)
  {
    hide H.Malloc, HasPlace, OneBlock, TwoBlocks, FileOnTheWay, Room, Parent, H.Ok, NormalPath;
    NamedPath(path);
    TwoMeans(bs, n);
    PlaceMeans(t, NameOf(path));
  }

  /** A file that is there has its place. */
  lemma ThereHasPlace(fs: FileSystem, path: string)
    requires fs.Valid() && CanName(path) && fs.EntryAt(path).Some? && fs.EntryAt(path).value.File?
    ensures HasPlace(fs.Files(), NameOf(path))
  {
    hide NormalPath, Parent, View, Sound, H.Live, H.Arena.Valid, HasPlace, FileOnTheWay, Room;
    fs.NamedCanWrite(path);
    NamedPath(path);
    PlaceMeans(fs.Files(), NameOf(path));
  }

  /** An open needs a file that is there, which can be named if it is to be emptied; or the flags to
      make one, and a place for it. */
  lemma OpenNeeds(p: Process, path: string, flags: Flags)
    requires p.Valid()
    ensures p.CanOpen(path, flags)
       <==> p.fs.ready && if p.fs.EntryAt(path).Some?
                          then p.fs.EntryAt(path).value.File? && (flags.trunc ==> CanName(path))
                          else flags.creat && flags.CanWrite() && CanName(path) && HasPlace(p.fs.Files(), NameOf(path))
  {
    hide NormalPath, Parent, View, Sound, H.Live, H.Arena.Valid, HasPlace, FileOnTheWay, Room;
    if CanName(path) {
      NamedPath(path);
      PlaceMeans(p.fs.Files(), NameOf(path));
    }
  }

  /** cp begins when its source is there as a file, two descriptors are free, and the destination is
      a file in the temp tree or has a place there. */
  lemma CopyNeeds(p: Process, src: string, dst: string)
    requires p.Valid()
    ensures Copy.CanBegin(p, src, dst)
       <==> && p.fs.ready && p.fs.EntryAt(src).Some? && p.fs.EntryAt(src).value.File? && |src| < 192 && |dst| < 192
            && (exists i, j :: 0 <= i < j < FD_MAX && !p.fds[i].used && !p.fds[j].used)
            && CanName(dst) && HasPlace(p.fs.Files(), NameOf(dst))
  {
    hide NormalPath, Parent, View, Sound, H.Live, H.Arena.Valid, HasPlace, FileOnTheWay, Room, FdOk, FileSystem.CanWrite;
    assert forall i :: 0 <= i < FD_MAX ==> p.fds[..][i] == p.fds[i];
    if CanName(dst) {
      NamedPath(dst);
      PlaceMeans(p.fs.Files(), NameOf(dst));
      if p.fs.EntryAt(dst).Some? && p.fs.EntryAt(dst).value.File? { ThereHasPlace(p.fs, dst); }
    }
  }
}
