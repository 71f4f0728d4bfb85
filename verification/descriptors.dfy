/** The descriptor table of a process (clks/kernel/exec.c) over the file system. */
module Descriptors {
  import opened Machine
  import opened Paths
  import opened Splice
  import opened FsTable
  import opened FsRoom
  import opened Fs
  import opened FsRuns
  import H = Heap

  const FD_MAX: nat := 32

  /** The bits of an open request that the kernel looks at; mode 3 is not an access mode. */
  datatype Flags = Flags(mode: nat, creat: bool, trunc: bool, append: bool) {
    predicate CanRead() { mode == 0 || mode == 2 }

    predicate CanWrite() { mode == 1 || mode == 2 }
  }

  datatype FdKind = Tty | OnFile | DevNull | DevZero | DevRandom

  datatype Fd = Fd(used: bool, kind: FdKind, flags: Flags, offset: nat, path: string)

  const CLOSED: Fd := Fd(false, Tty, Flags(0, false, false, false), 0, "")

  /** A descriptor of a file that is not in append mode never stands behind any possible object. */
  predicate FdOk(e: Fd) {
    && e.offset < U64 && (!e.used ==> e == CLOSED)
    && (e.used && e.kind == OnFile && !e.flags.append ==> e.offset <= MAX_OBJECT)
  }

  predicate DeviceName(path: string) {
    path == "/dev/tty" || path == "/dev/null" || path == "/dev/zero" || path == "/dev/random" || path == "/dev/urandom"
  }

  function DeviceKind(path: string): FdKind {
    if path == "/dev/tty" then Tty
    else if path == "/dev/null" then DevNull
    else if path == "/dev/zero" then DevZero
    else DevRandom
  }

  /** What a read of `size` bytes gives, where `bytes` are those of the file and `input` is what the
      keyboard or the random generator has. */
  function Delivered(e: Fd, bytes: seq<byte>, size: nat, input: seq<byte>): (d: seq<byte>)
    requires e.kind == DevRandom ==> |input| >= size
    ensures |d| <= size
  {
    match e.kind
    case Tty => if |input| < size then input else input[..size]
    case DevNull => []
    case DevZero => Zeros(size)
    case DevRandom => input[..size]
    case OnFile => Slice(bytes, e.offset, size)
  }

  /** The descriptor after `n` bytes have gone through it; terminal and null device have no
      position. */
  function Moved(e: Fd, n: nat): Fd {
    match e.kind
    case Tty | DevNull => e
    case DevZero | DevRandom => e.(offset := (e.offset + n) % U64)
    case OnFile => e.(offset := e.offset + n)
  }

  /** The five device files, and what each of them gives and does with its position. */
  lemma Devices(path: string)
    ensures DeviceName(path) <==> path in {"/dev/tty", "/dev/null", "/dev/zero", "/dev/random", "/dev/urandom"}
  {
  }

  lemma ZeroDevice(e: Fd, bytes: seq<byte>, size: nat, input: seq<byte>, n: nat)
    requires e.kind == DeviceKind("/dev/zero")
    ensures Delivered(e, bytes, size, input) == Zeros(size) && Moved(e, n) == e.(offset := (e.offset + n) % U64)
  {
  }

  lemma NullDevice(e: Fd, bytes: seq<byte>, size: nat, input: seq<byte>, n: nat)
    requires e.kind == DeviceKind("/dev/null")
    ensures Delivered(e, bytes, size, input) == [] && Moved(e, n) == e
  {
  }

  lemma TerminalDevice(e: Fd, bytes: seq<byte>, size: nat, input: seq<byte>, n: nat)
    requires e.kind == DeviceKind("/dev/tty")
    ensures Delivered(e, bytes, size, input) == (if |input| <= size then input else input[..size]) && Moved(e, n) == e
  {
    assert input[..|input|] == input;
  }

  lemma RandomDevice(e: Fd, bytes: seq<byte>, size: nat, input: seq<byte>, n: nat)
    requires (e.kind == DeviceKind("/dev/random") || e.kind == DeviceKind("/dev/urandom")) && |input| >= size
    ensures e.kind == DevRandom
    ensures Delivered(e, bytes, size, input) == input[..size] && Moved(e, n) == e.(offset := (e.offset + n) % U64)
  {
  }

  /** A file gives its bytes from the position on, as far as they go. */
  lemma FileGives(e: Fd, bytes: seq<byte>, size: nat, input: seq<byte>)
    requires e.kind == OnFile
    ensures var d := Delivered(e, bytes, size, input);
            && |d| == (if e.offset >= |bytes| then 0 else if |bytes| - e.offset < size then |bytes| - e.offset else size)
            && (forall k :: 0 <= k < |d| ==> d[k] == bytes[e.offset+k]) && Moved(e, |d|) == e.(offset := e.offset + |d|)
  {
  }

  /** The contents of the block that the kernel prepares: zeros, the old file, the new bytes. */
  method LayOut(fs: FileSystem, m: int, total: nat, was: Ptr, wasSize: nat, pos: nat, buf: Ptr, size: nat,
                ghost live: map<int, nat>, ghost before: seq<byte>)
    requires fs.Valid() && m in fs.Foreign() && total <= fs.Foreign()[m] && live == fs.Live() - {m}
    requires total == (if pos + size < wasSize then wasSize else pos + size)
    requires H.Kept(live, before, fs.heap.bytes[..]) && ReadableIn(live, was, wasSize) && ReadableIn(live, buf, size)
    requires was != Nil && buf != Nil
    modifies fs.heap.bytes
    ensures fs.Valid() && fs.Files() == old(fs.Files()) && H.Kept(live, before, fs.heap.bytes[..])
    ensures BytesAt(fs.heap.bytes[..], InHeap(m), total)
         == WriteAt(BytesAt(before, was, wasSize), pos, BytesAt(before, buf, size))
  {
    hide View, Sound, Owned, H.Live, H.Arena.Valid, H.Kept, BytesAt, ReadableIn, WriteAt, Patch;
    fs.BlockFits(m);
    ConstReadable(live, total, before);
    ghost var junk := BytesAt(fs.heap.bytes[..], InHeap(m), total);
    fs.CopyOver(m, total, 0, Const(Zeros(total)), total, live, before);
    fs.CopyOver(m, total, 0, was, wasSize, live, before);
    fs.CopyOver(m, total, pos, buf, size, live, before);
  }

  lemma ConstReadable(live: map<int, nat>, n: nat, mem: seq<byte>)
    requires n <= MAX_OBJECT
    ensures ReadableIn(live, Const(Zeros(n)), n) && BytesAt(mem, Const(Zeros(n)), n) == Zeros(n)
  {
  }

  /** The write of clks_exec_fd_file_write at a position of a file that is there. */
  method WriteInto(fs: FileSystem, path: string, was: Ptr, wasSize: nat, pos: nat, buf: Ptr, size: nat) returns (ok: bool)
    requires fs.Valid() && fs.Readable(was, wasSize) && fs.Readable(buf, size) && was != Nil && buf != Nil && size > 0
    requires wasSize <= MAX_OBJECT && pos + size <= 2 * MAX_OBJECT && size <= MAX_OBJECT
    requires fs.ready && fs.EntryAt(path).Some? && fs.EntryAt(path).value.File?
    modifies fs`nodesUsed, fs.nodes, fs.heap, fs.heap.bytes
    ensures fs.Valid() && fs.heap.bytes == old(fs.heap.bytes)
    ensures fs.Foreign() == old(fs.Foreign()) && H.Kept(fs.Foreign(), old(fs.heap.bytes[..]), fs.heap.bytes[..])
    ensures ok <==> CanName(path) && FileSystem.FitsTwice(old(fs.heap.blocks), Max(wasSize, pos + size))
    ensures ok ==> pos + size <= H.ARENA_SIZE
    ensures ok ==> Written(old(fs.Files()), fs.Files(), NameOf(path),
                           WriteAt(old(BytesAt(fs.heap.bytes[..], was, wasSize)), pos, old(BytesAt(fs.heap.bytes[..], buf, size))))
    ensures !ok ==> Unwritten(old(fs.Files()), fs.Files(), path) && fs.heap.blocks == old(fs.heap.blocks)
  {
    hide View, NormalPath, Parent, Written, GrownByDirs, Sound, Owned, H.Live, H.Arena.Valid, H.Kept, BytesAt, ReadableIn,
         H.Malloc, H.Apply, H.Legal, H.AlignUp, WriteAt, FileOnTheWay, Room;
    ghost var live, foreign, before, bs := fs.Live(), fs.Foreign(), fs.heap.bytes[..], fs.heap.blocks;
    H.KeptSame(foreign, before);
    fs.HeapOk();
    if CanName(path) { fs.NamedCanWrite(path); }
    var total := if pos + size < wasSize then wasSize else pos + size;
    var merged := fs.Acquire(total);
    H.KeptFewer(live, foreign, before, fs.heap.bytes[..]);
    if merged == H.NULL {
      return false;
    }
    assert fs.Live() - {merged} == live;
    fs.BlockFits(merged);
    LayOut(fs, merged, total, was, wasSize, pos, buf, size, live, before);
    fs.ReadableBlock(merged, total);
    ghost var more, middle := fs.Foreign(), fs.heap.bytes[..];
    H.KeptFewer(live, foreign, before, middle);
    ok := fs.WriteAll(path, InHeap(merged), total);
    ghost var later := fs.heap.bytes[..];
    if !ok { H.ReleaseUndoesAllocate(bs, total); }
    fs.FreeForeign(merged);
    assert fs.Foreign() == foreign;
    H.KeptFewer(more, foreign, middle, later);
    H.KeptTwice(foreign, before, middle, later);
    H.KeptTwice(foreign, before, later, fs.heap.bytes[..]);
  }

  /** What opening or truncating does to the tree: nothing, or an empty file at `path`. */
  ghost predicate Opened(t: Tree, t2: Tree, path: string, emptied: bool) {
    if emptied then CanName(path) && Written(t, t2, NameOf(path), []) else t2 == t
  }

  lemma OpenedTwice(t: Tree, t1: Tree, t2: Tree, path: string)
    requires CanName(path) && Written(t, t1, NameOf(path), []) && Written(t1, t2, NameOf(path), [])
    ensures Written(t, t2, NameOf(path), [])
  {
  }

  lemma QuietAfterEmptying(t: Tree, t1: Tree, path: string)
    requires CanName(path) && Written(t, t1, NameOf(path), [])
    ensures NameOf(path) in t1 && t1[NameOf(path)] == File([])
  {
  }

  /** The descriptors of the process that is running. */
  class Process {
    const fs: FileSystem
    const fds: array<Fd>

    ghost predicate Valid()
      reads fds, fs, fs.nodes, fs.heap
    {
      && fs.Valid() && fds.Length == FD_MAX
      && (forall i :: 0 <= i < FD_MAX ==> FdOk(fds[i]))
    }

    /** clks_exec_fd_init_defaults: the terminal as input, output and error output */
    constructor (files: FileSystem)
      requires files.Valid()
      ensures Valid() && fresh(fds) && fs == files
      ensures forall i :: 0 <= i < FD_MAX ==>
                fds[i] == if i < 3 then Fd(true, Tty, Flags(if i == 0 then 0 else 1, false, false, false), 0, "") else CLOSED
    {
      fs := files;
      fds := new Fd[FD_MAX](i =>
        if i < 3 then Fd(true, Tty, Flags(if i == 0 then 0 else 1, false, false, false), 0, "") else CLOSED);
    }

    /** clks_exec_fd_find_free */
    method FindFree() returns (r: int)
      requires fds.Length == FD_MAX
      ensures -1 <= r < FD_MAX
      ensures r == -1 ==> forall i :: 0 <= i < FD_MAX ==> fds[i].used
      ensures r >= 0 ==> !fds[r].used && forall i :: 0 <= i < r ==> fds[i].used
    {
      r := 0;
      while r < FD_MAX
        invariant 0 <= r <= FD_MAX && forall i :: 0 <= i < r ==> fds[i].used
      {
        if !fds[r].used {
          return;
        }
        r := r + 1;
      }
      return -1;
    }

    predicate Open?(fd: nat)
      reads fds
    {
      fd < fds.Length && fds[fd].used
    }

    /** clks_exec_fd_dup: the copy has a position of its own. */
    method Dup(fd: nat) returns (r: Option<nat>)
      requires Valid()
      modifies fds
      ensures Valid()
      ensures r == None ==> fds[..] == old(fds[..])
      ensures r.Some? ==> old(Open?(fd)) && r.value < FD_MAX && old(!fds[r.value].used)
      ensures r.Some? ==> fds[..] == old(fds[..])[r.value := old(fds[fd])]
      ensures r == None <==> !old(Open?(fd)) || old(forall i :: 0 <= i < FD_MAX ==> fds[i].used)
    {
      hide FdOk, H.Arena.Valid, Sound, H.Live;
      if fd >= FD_MAX || !fds[fd].used {
        return None;
      }
      var slot := FindFree();
      if slot < 0 {
        return None;
      }
      fds[slot] := fds[fd];
      return Some(slot);
    }

    /** clks_exec_fd_close */
    method Close(fd: nat) returns (ok: bool)
      requires Valid()
      modifies fds
      ensures Valid()
      ensures ok == old(Open?(fd))
      ensures fds[..] == if ok then old(fds[..])[fd := CLOSED] else old(fds[..])
    {
      hide H.Arena.Valid, Sound, H.Live;
      if fd >= FD_MAX || !fds[fd].used {
        return false;
      }
      fds[fd] := CLOSED;
      return true;
    }

    /** clks_exec_fd_read, with the bytes that arrive in the caller's buffer. `input` is what the
        keyboard queue holds, or what the random generator produces. */
    method Read(fd: nat, size: nat, input: seq<byte>) returns (r: Option<nat>, data: seq<byte>)
      requires Valid() && size < U64 && (Open?(fd) && fds[fd].kind == DevRandom ==> |input| >= size)
      modifies fds
      ensures Valid()
      ensures r.Some? <==> size == 0 || old(Open?(fd) && fds[fd].flags.CanRead()
                             && (fds[fd].kind == OnFile ==> fs.ready && fs.EntryAt(fds[fd].path).Some? && fs.EntryAt(fds[fd].path).value.File?))
      ensures r.Some? ==> |data| == r.value <= size
      ensures r == None || size == 0 ==> fds[..] == old(fds[..])
      ensures r.Some? && size > 0 ==> data == Delivered(old(fds[fd]), fs.BytesOf(old(fds[fd]).path), size, input)
      ensures r.Some? && size > 0 ==> fds[..] == old(fds[..])[fd := Moved(old(fds[fd]), |data|)]
    {
      hide H.Arena.Valid, Sound, H.Live, View, NormalPath, ReadableIn;
      if size == 0 {
        return Some(0), [];
      }
      if fd >= FD_MAX || !fds[fd].used || !fds[fd].flags.CanRead() {
        return None, [];
      }
      var entry := fds[fd];
      match entry.kind
      case Tty =>
        data := if |input| < size then input else input[..size];
        r := Some(|data|);
      case DevNull =>
        r, data := Some(0), [];
      case DevZero =>
        r, data := Some(size), Zeros(size);
        fds[fd] := entry.(offset := (entry.offset + size) % U64);
      case DevRandom =>
        r, data := Some(size), input[..size];
        fds[fd] := entry.(offset := (entry.offset + size) % U64);
      case OnFile =>
        r, data := ReadFile(entry.path, entry.offset, size);
        if r.Some? { fds[fd] := entry.(offset := entry.offset + r.value); }
    }

    /** clks_exec_fd_file_read */
    method ReadFile(path: string, offset: nat, size: nat) returns (r: Option<nat>, data: seq<byte>)
      requires Valid()
      ensures r.Some? <==> fs.ready && fs.EntryAt(path).Some? && fs.EntryAt(path).value.File?
      ensures r.Some? ==> |data| == r.value && data == Slice(fs.BytesOf(path), offset, size)
      ensures r.Some? ==> if offset <= MAX_OBJECT then offset + |data| <= MAX_OBJECT else data == []
    {
      hide H.Arena.Valid, Sound, H.Live, View, NormalPath, ReadableIn;
      var file := fs.ReadAll(path);
      if file.None? {
        return None, [];
      }
      var (ptr, fileSize) := file.value;
      var bytes := BytesAt(fs.heap.bytes[..], ptr, fileSize);
      if offset >= fileSize {
        return Some(0), [];
      }
      var n := fileSize - offset;
      if n > size {
        n := size;
      }
      return Some(n), bytes[offset..offset+n];
    }

    /** What the file system asks of an open: a file that is there, and can be named if it is to be
        truncated, or that may be made and fits. */
    ghost predicate CanOpen(path: string, flags: Flags)
      reads fs, fs.nodes, fs.heap, fs.heap.bytes
      requires fs.nodesUsed <= fs.nodes.Length
    {
      && fs.ready
      && match fs.EntryAt(path)
         case Some(File(_)) => flags.trunc ==> CanName(path)
         case Some(Dir) => false
         case None =>
           flags.creat && flags.CanWrite() && CanName(path)
           && FileSystem.CanWrite(fs.Files(), fs.heap.blocks, NameOf(path), Const([0]), 0)
    }

    /** clks_exec_fd_open */
    method Open(path: string, flags: Flags) returns (r: Option<nat>)
      requires Valid()
      modifies fds, fs`nodesUsed, fs.nodes, fs.heap, fs.heap.bytes
      ensures Valid() && fs.heap.bytes == old(fs.heap.bytes)
      ensures fs.Foreign() == old(fs.Foreign()) && H.Kept(fs.Foreign(), old(fs.heap.bytes[..]), fs.heap.bytes[..])
      ensures r.Some? <==>
                && path != "" && path[0] == '/' && |path| < PATH_MAX && (flags.CanRead() || flags.CanWrite())
                && (flags.trunc || flags.append ==> flags.CanWrite()) && old(exists i :: 0 <= i < FD_MAX && !fds[i].used)
                && (DeviceName(path) || old(CanOpen(path, flags)))
      ensures r == None ==> fds[..] == old(fds[..]) && Quiet(old(fs.Files()), fs.Files(), path)
      ensures r.Some? ==> r.value < FD_MAX && old(!fds[r.value].used) && fds[..] == old(fds[..])[r.value := fds[r.value]]
      ensures !flags.creat && !flags.trunc ==> fs.Files() == old(fs.Files())
      ensures r.Some? && DeviceName(path) ==>
                fs.Files() == old(fs.Files()) && fds[r.value] == Fd(true, DeviceKind(path), flags, 0, "")
      ensures r.Some? && !DeviceName(path) ==>
                fs.EntryAt(path).Some? && fs.EntryAt(path).value.File?
                && fds[r.value] == Fd(true, OnFile, flags, if flags.append then |fs.EntryAt(path).value.bytes| else 0, path)
      ensures r.Some? && !DeviceName(path) ==>
                Opened(old(fs.Files()), fs.Files(), path, flags.trunc || old(fs.EntryAt(path)) == None)
      ensures r.Some? && old(fs.EntryAt(path)) == None && !DeviceName(path) ==> flags.creat && flags.CanWrite()
    {
      hide View, NormalPath, Parent, Written, GrownByDirs, Sound, Owned, H.Live, H.Arena.Valid, H.Kept, ReadableIn, BytesAt;
      H.KeptSame(fs.Foreign(), fs.heap.bytes[..]);
      if path == "" || path[0] != '/' || |path| >= PATH_MAX {
        return None;
      }
      if !flags.CanRead() && !flags.CanWrite() {
        return None;
      }
      if (flags.trunc || flags.append) && !flags.CanWrite() {
        return None;
      }
      var slot := FindFree();
      if slot < 0 {
        return None;
      }
      if DeviceName(path) {
        fds[slot] := Fd(true, DeviceKind(path), flags, 0, "");
        return Some(slot);
      }
      var size := OpenFile(path, flags);
      if size.None? {
        return None;
      }
      fds[slot] := Fd(true, OnFile, flags, if flags.append then size.value else 0, path);
      return Some(slot);
    }

    /** The part of clks_exec_fd_open that looks at the file system: creates or truncates the
        file where the flags say so, and gives its size. */
    method OpenFile(path: string, flags: Flags) returns (size: Option<nat>)
      requires Valid()
      modifies fs`nodesUsed, fs.nodes, fs.heap, fs.heap.bytes
      ensures Valid() && fs.heap.bytes == old(fs.heap.bytes)
      ensures fs.Foreign() == old(fs.Foreign()) && H.Kept(fs.Foreign(), old(fs.heap.bytes[..]), fs.heap.bytes[..])
      ensures size.Some? <==> old(CanOpen(path, flags))
      ensures size == None ==> Quiet(old(fs.Files()), fs.Files(), path)
      ensures !flags.creat && !flags.trunc ==> fs.Files() == old(fs.Files())
      ensures size.Some? ==> fs.EntryAt(path).Some? && fs.EntryAt(path).value.File?
      ensures size.Some? ==> size.value == |fs.EntryAt(path).value.bytes| <= MAX_OBJECT
      ensures size.Some? ==> Opened(old(fs.Files()), fs.Files(), path, flags.trunc || old(fs.EntryAt(path)) == None)
      ensures size.Some? && old(fs.EntryAt(path)) == None ==> flags.creat && flags.CanWrite()
    {
      hide View, NormalPath, Parent, Written, GrownByDirs, Sound, Owned, H.Live, H.Arena.Valid, H.Kept, ReadableIn, BytesAt,
           FileOnTheWay, FsRoom.Room;
      ghost var t, before := fs.Files(), fs.heap.bytes[..];
      H.KeptSame(fs.Foreign(), before);
      var info := fs.Stat(path);
      if info.None? {
        if !flags.creat || !flags.CanWrite() {
          return None;
        }
        var made := Empty(path);
        if !made {
          return None;
        }
        info := fs.Stat(path);
        if info.None? {
          assert false;
        }
      }
      if info.value.0 != FileNode {
        return None;
      }
      ghost var t1, middle := fs.Files(), fs.heap.bytes[..];
      if flags.trunc {
        var cleared := Empty(path);
        H.KeptTwice(fs.Foreign(), before, middle, fs.heap.bytes[..]);
        if !cleared {
          return None;
        }
        info := fs.Stat(path);
        if info.None? {
          assert false;
        }
        if t1 != t { OpenedTwice(t, t1, fs.Files(), path); }
      }
      return Some(info.value.1);
    }

    /** clks_fs_write_all with no data */
    method Empty(path: string) returns (ok: bool)
      requires Valid()
      modifies fs`nodesUsed, fs.nodes, fs.heap, fs.heap.bytes
      ensures Valid() && fs.heap.bytes == old(fs.heap.bytes)
      ensures fs.Foreign() == old(fs.Foreign()) && H.Kept(fs.Foreign(), old(fs.heap.bytes[..]), fs.heap.bytes[..])
      ensures ok <==> fs.ready && CanName(path)
                      && FileSystem.CanWrite(old(fs.Files()), old(fs.heap.blocks), NameOf(path), Const([0]), 0)
      ensures fs.ready && CanName(path) && old(fs.EntryAt(path)).Some? && old(fs.EntryAt(path)).value.File? ==> ok
      ensures ok ==> Written(old(fs.Files()), fs.Files(), NameOf(path), [])
      ensures ok ==> fs.EntryAt(path) == Some(File([]))
      ensures !ok ==> Unwritten(old(fs.Files()), fs.Files(), path)
    {
      hide View, NormalPath, Parent, Written, GrownByDirs, Sound, Owned, H.Live, H.Arena.Valid, H.Kept, BytesAt;
      fs.NoBytes(fs.heap.bytes[..], Const([0]));
      fs.EmptyReadable();
      ghost var t := fs.Files();
      if fs.ready && CanName(path) && fs.EntryAt(path).Some? && fs.EntryAt(path).value.File? { fs.NamedCanWrite(path); }
      ok := fs.WriteAll(path, Const([0]), 0);
      if ok { QuietAfterEmptying(t, fs.Files(), path); }
    }

    /** What a write of `size` bytes through an open descriptor asks of the file system and heap. */
    ghost predicate CanWriteTo(e: Fd, buf: Ptr, size: nat)
      reads fs, fs.nodes, fs.heap, fs.heap.bytes
      requires fs.nodesUsed <= fs.nodes.Length && size < U64
    {
      && fs.ready && CanName(e.path)
      && if e.flags.append then FileSystem.CanAppend(fs.Files(), fs.heap.blocks, NameOf(e.path), buf, size)
         else match fs.EntryAt(e.path)
              case Some(File(bs)) => FileSystem.FitsTwice(fs.heap.blocks, Max(|bs|, e.offset + size))
              case _ => false
    }

    /** clks_exec_fd_write */
    method Write(fd: nat, buf: Ptr, size: nat) returns (r: Option<nat>)
      requires Valid() && size < U64 && fs.Readable(buf, size)
      modifies fds, fs`nodesUsed, fs.nodes, fs.heap, fs.heap.bytes
      ensures Valid() && fs.heap.bytes == old(fs.heap.bytes)
      ensures fs.Foreign() == old(fs.Foreign()) && H.Kept(fs.Foreign(), old(fs.heap.bytes[..]), fs.heap.bytes[..])
      ensures r.Some? ==> r.value == size
      ensures r.Some? <==> size == 0 || old(buf != Nil && Open?(fd) && fds[fd].flags.CanWrite()
                                            && (fds[fd].kind == OnFile ==> CanWriteTo(fds[fd], buf, size)))
      ensures !(r.Some? && size > 0) ==> fds[..] == old(fds[..]) && fs.heap.blocks == old(fs.heap.blocks)
      ensures r.Some? && size > 0 ==> fds[..] == old(fds[..])[fd := fds[fd]]
      ensures r.Some? && size > 0 && old(fds[fd]).kind == OnFile ==>
                fds[fd] == old(fds[fd]).(offset := if fds[fd].flags.append then (old(fds[fd]).offset + size) % U64
                                                   else old(fds[fd]).offset + size)
      ensures r.Some? && size > 0 && old(fds[fd]).kind != OnFile ==>
                fds[fd] == if fds[fd].kind == Tty then old(fds[fd]) else old(fds[fd]).(offset := (old(fds[fd]).offset + size) % U64)
      ensures r.Some? && size > 0 && old(fds[fd]).kind == OnFile ==> CanName(old(fds[fd]).path)
      ensures r.Some? && size > 0 && old(fds[fd]).kind == OnFile && !old(fds[fd]).flags.append ==>
                old(fds[fd]).offset + size <= H.ARENA_SIZE
      ensures r.Some? && size > 0 && old(fds[fd]).kind == OnFile && !old(fds[fd]).flags.append ==>
                Written(old(fs.Files()), fs.Files(), NameOf(old(fds[fd]).path),
                        WriteAt(old(fs.BytesOf(fds[fd].path)), old(fds[fd]).offset, old(BytesAt(fs.heap.bytes[..], buf, size))))
      ensures r.Some? && size > 0 && old(fds[fd]).kind == OnFile && old(fds[fd]).flags.append ==>
                Written(old(fs.Files()), fs.Files(), NameOf(old(fds[fd]).path),
                        old(fs.BytesOf(fds[fd].path)) + old(BytesAt(fs.heap.bytes[..], buf, size)))
      ensures !(r.Some? && size > 0 && old(fds[fd]).kind == OnFile) ==>
                fs.Files() == old(fs.Files()) || (r == None && fd < FD_MAX && Unwritten(old(fs.Files()), fs.Files(), old(fds[fd]).path))
    {
      hide View, NormalPath, Parent, Written, GrownByDirs, Sound, Owned, H.Live, H.Arena.Valid, H.Kept, ReadableIn, WriteAt, CanWriteTo;
      H.KeptSame(fs.Foreign(), fs.heap.bytes[..]);
      if size == 0 {
        return Some(0);
      }
      if buf == Nil {
        return None;
      }
      if fd >= FD_MAX || !fds[fd].used || !fds[fd].flags.CanWrite() {
        return None;
      }
      var entry := fds[fd];
      match entry.kind
      case Tty =>
        return Some(size);
      case DevNull | DevZero | DevRandom =>
        fds[fd] := entry.(offset := (entry.offset + size) % U64);
        return Some(size);
      case OnFile =>
        r := WriteFileFd(fd, buf, size);
    }

    /** clks_exec_fd_file_write */
    method WriteFileFd(fd: nat, buf: Ptr, size: nat) returns (r: Option<nat>)
      requires Valid() && Open?(fd) && fds[fd].kind == OnFile && 0 < size < U64 && buf != Nil && fs.Readable(buf, size)
      modifies fds, fs`nodesUsed, fs.nodes, fs.heap, fs.heap.bytes
      ensures Valid() && fs.heap.bytes == old(fs.heap.bytes)
      ensures fs.Foreign() == old(fs.Foreign()) && H.Kept(fs.Foreign(), old(fs.heap.bytes[..]), fs.heap.bytes[..])
      ensures r.Some? <==> old(CanWriteTo(fds[fd], buf, size))
      ensures r == None ==> fds[..] == old(fds[..]) && Unwritten(old(fs.Files()), fs.Files(), old(fds[fd]).path)
      ensures r == None ==> fs.heap.blocks == old(fs.heap.blocks)
      ensures r.Some? ==> r.value == size && fds[..] == old(fds[..])[fd := fds[fd]] && CanName(old(fds[fd]).path)
      ensures r.Some? ==> fds[fd] == old(fds[fd]).(offset := if fds[fd].flags.append then (old(fds[fd]).offset + size) % U64
                                                              else old(fds[fd]).offset + size)
      ensures r.Some? && !old(fds[fd]).flags.append ==> old(fds[fd]).offset + size <= H.ARENA_SIZE
      ensures r.Some? && !old(fds[fd]).flags.append ==>
                Written(old(fs.Files()), fs.Files(), NameOf(old(fds[fd]).path),
                        WriteAt(old(fs.BytesOf(fds[fd].path)), old(fds[fd]).offset, old(BytesAt(fs.heap.bytes[..], buf, size))))
      ensures r.Some? && old(fds[fd]).flags.append ==>
                Written(old(fs.Files()), fs.Files(), NameOf(old(fds[fd]).path),
                        old(fs.BytesOf(fds[fd].path)) + old(BytesAt(fs.heap.bytes[..], buf, size)))
    {
      hide View, NormalPath, Parent, Written, GrownByDirs, Sound, Owned, H.Live, H.Arena.Valid, H.Kept, ReadableIn, WriteAt, BytesAt,
           FileSystem.CanAppend, FileSystem.FitsTwice;
      var entry := fds[fd];
      fs.ReadableSize(buf, size);
      if entry.flags.append {
        var done := fs.Append(entry.path, buf, size);
        if !done {
          return None;
        }
        fds[fd] := entry.(offset := (entry.offset + size) % U64);
        return Some(size);
      }
      var done := WriteHere(entry.path, entry.offset, buf, size);
      if !done {
        return None;
      }
      fds[fd] := entry.(offset := entry.offset + size);
      return Some(size);
    }

    /** The part of clks_exec_fd_file_write without append mode */
    method WriteHere(path: string, pos: nat, buf: Ptr, size: nat) returns (ok: bool)
      requires Valid() && 0 < size <= MAX_OBJECT && pos <= MAX_OBJECT && buf != Nil && fs.Readable(buf, size)
      modifies fs`nodesUsed, fs.nodes, fs.heap, fs.heap.bytes
      ensures Valid() && fs.heap.bytes == old(fs.heap.bytes)
      ensures fs.Foreign() == old(fs.Foreign()) && H.Kept(fs.Foreign(), old(fs.heap.bytes[..]), fs.heap.bytes[..])
      ensures ok <==> fs.ready && CanName(path) && match old(fs.EntryAt(path)) {
                case Some(File(bs)) => FileSystem.FitsTwice(old(fs.heap.blocks), Max(|bs|, pos + size))
                case _ => false
              }
      ensures ok ==> pos + size <= H.ARENA_SIZE
      ensures ok ==> Written(old(fs.Files()), fs.Files(), NameOf(path),
                             WriteAt(old(fs.BytesOf(path)), pos, old(BytesAt(fs.heap.bytes[..], buf, size))))
      ensures !ok ==> Unwritten(old(fs.Files()), fs.Files(), path) && fs.heap.blocks == old(fs.heap.blocks)
    {
      hide View, NormalPath, Parent, Written, GrownByDirs, Sound, Owned, H.Live, H.Arena.Valid, H.Kept, ReadableIn, WriteAt, BytesAt,
           FileSystem.FitsTwice;
      H.KeptSame(fs.Foreign(), fs.heap.bytes[..]);
      var file := fs.ReadAll(path);
      if file.None? {
        return false;
      }
      var (was, wasSize) := file.value;
      if pos > U64 - 1 - size {
        return false;
      }
      ok := WriteInto(fs, path, was, wasSize, pos, buf, size);
    }
  }

  /** The bytes of `s` from `off` on, at most `n` of them. */
  function Slice(s: seq<byte>, off: nat, n: nat): seq<byte> {
    if off >= |s| then [] else if off + n <= |s| then s[off..off+n] else s[off..]
  }
}
