/** The copy loop of the cp command (cleonos/c/apps/cp_main.c) over two descriptors. */
module Copy {
  import opened Machine
  import opened Paths
  import opened Splice
  import opened FsTable
  import opened FsRoom
  import opened Fs
  import opened FsRuns
  import opened Descriptors
  import opened Resolve
  import H = Heap

  const BUFFER: nat := 4096
  const READ_ONLY: Flags := Flags(0, false, false, false)
  const REPLACE: Flags := Flags(1, true, true, false)

  predicate DifferentFiles(src: string, dst: string) {
    NormalPath(src, PATH_MAX) != NormalPath(dst, PATH_MAX)
  }

  // ----- what is read -----

  /** Where the bytes come from: a file, or a device, where `feed` is what the keyboard or the
      random generator has at each read. */
  datatype Source = OfFile(path: string, bytes: seq<byte>) | OfDevice(kind: FdKind, feed: nat -> seq<byte>)

  ghost predicate SourceOk(s: Source) {
    s.OfDevice? ==> s.kind != OnFile && (s.kind == DevRandom ==> forall k: nat :: |s.feed(k)| >= BUFFER)
  }

  /** The descriptor of the source after `k` reads. */
  function SourceFd(s: Source, k: nat): (e: Fd)
    ensures e.used && e.flags == READ_ONLY && (s.OfFile? ==> e.kind == OnFile && e.path == s.path) && (s.OfDevice? ==> e.kind == s.kind)
  {
    match s
    case OfFile(path, bytes) => Fd(true, OnFile, READ_ONLY, if k * BUFFER < |bytes| then k * BUFFER else |bytes|, path)
    case OfDevice(kind, _) => Fd(true, kind, READ_ONLY, if kind == DevZero || kind == DevRandom then k * BUFFER % U64 else 0, "")
  }

  /** What the read with number `k` delivers. */
  ghost function Piece(s: Source, k: nat): (d: seq<byte>)
    requires SourceOk(s)
    ensures |d| <= BUFFER
  {
    Delivered(SourceFd(s, k), if s.OfFile? then s.bytes else [], BUFFER, if s.OfDevice? then s.feed(k) else [])
  }

  /** What the first `k` reads deliver. */
  ghost function Taken(s: Source, k: nat): seq<byte>
    requires SourceOk(s)
  {
    if k == 0 then [] else Taken(s, k - 1) + Piece(s, k - 1)
  }

  lemma {:induction false} TakenOfFile(s: Source, k: nat)
    requires s.OfFile?
    ensures Taken(s, k) == s.bytes[..if k * BUFFER < |s.bytes| then k * BUFFER else |s.bytes|]
  {
    if k > 0 {
      TakenOfFile(s, k - 1);
      PieceOfFile(s, k - 1);
    }
  }

  lemma PieceOfFile(s: Source, k: nat)
    requires s.OfFile?
    ensures var at, end := k * BUFFER, (k + 1) * BUFFER;
            Piece(s, k) == if at >= |s.bytes| then [] else s.bytes[at..if end < |s.bytes| then end else |s.bytes|]
  {
  }

  /** A file is read in full exactly when a read delivers nothing. */
  lemma FileAllRead(s: Source, k: nat)
    requires s.OfFile?
    ensures Piece(s, k) == [] <==> Taken(s, k) == s.bytes
  {
    hide Piece, Taken;
    TakenOfFile(s, k);
    PieceOfFile(s, k);
  }

  /** Zeros and random numbers do not end, and the null device has nothing. */
  lemma DevicePieces(s: Source, k: nat)
    requires SourceOk(s) && s.OfDevice?
    ensures s.kind == DevZero || s.kind == DevRandom ==> |Piece(s, k)| == BUFFER
    ensures s.kind == DevNull ==> Piece(s, k) == []
  {
  }

  // ----- the state between reads -----

  /** Appending `d` behind the bytes that have been copied. */
  lemma CopiedOn(t: Tree, t1: Tree, t2: Tree, dst: string, b: seq<byte>, d: seq<byte>)
    requires d != [] && Written(t, t1, dst, b) && Written(t1, t2, dst, WriteAt(b, |b|, d))
    ensures Written(t, t2, dst, b + d)
  {
    assert WriteAt(b, |b|, d) == b + d;
  }

  /** The two descriptors after `k` reads and `n` bytes written, in a table that was `fds`. */
  ghost predicate At(p: Process, fds: seq<Fd>, from: nat, to: nat, source: Source, dst: string, k: nat, n: nat)
    reads p.fds
    requires |fds| == FD_MAX && from < FD_MAX && to < FD_MAX
  {
    p.fds[..] == fds[from := SourceFd(source, k)][to := Fd(true, OnFile, REPLACE, n, dst)]
  }

  /** The source file is there; where it is also the destination it is empty. */
  ghost predicate SourceThere(t: Tree, source: Source, dst: string) {
    source.OfFile? ==>
      EntryIn(t, source.path) == Some(File(source.bytes)) && (DifferentFiles(source.path, dst) || source.bytes == [])
  }

  /** The destination holds what `k` reads delivered; nothing else differs from tree `t` but for
      new directories above it. */
  ghost predicate Copied(t: Tree, t2: Tree, source: Source, dst: string, k: nat)
    requires SourceOk(source)
  {
    CanName(dst) && Written(t, t2, NameOf(dst), Taken(source, k)) && SourceThere(t2, source, dst)
  }

  /** The state between two rounds of the loop, after `k` of them. */
  ghost predicate Midway(p: Process, fds: seq<Fd>, from: nat, to: nat, source: Source, dst: string, t: Tree, k: nat)
    reads p, p.fds, p.fs, p.fs.nodes, p.fs.heap, p.fs.heap.bytes
    requires p.Valid() && |fds| == FD_MAX && from < FD_MAX && to < FD_MAX && SourceOk(source)
  {
    Copied(t, p.fs.Files(), source, dst, k) && At(p, fds, from, to, source, dst, k, |Taken(source, k)|) && p.fs.ready
  }

  /** The heap cannot hold the destination twice with the next piece. */
  ghost predicate NoRoom(bs: seq<H.Block>, source: Source, k: nat)
    requires SourceOk(source)
  {
    !FileSystem.FitsTwice(bs, |Taken(source, k + 1)|)
  }

  /** What is known of the destination. */
  lemma CopiedFile(t: Tree, t2: Tree, source: Source, dst: string, k: nat)
    requires SourceOk(source) && Copied(t, t2, source, dst, k)
    ensures CanName(dst) && EntryIn(t2, dst) == Some(File(Taken(source, k)))
    ensures |Taken(source, k + 1)| == |Taken(source, k)| + |Piece(source, k)|
  {
  }

  lemma ConstBytes(fs: FileSystem, data: seq<byte>)
    requires |data| <= BUFFER
    ensures fs.Readable(Const(data), |data|) && BytesAt(fs.heap.bytes[..], Const(data), |data|) == data
  {
  }

  lemma CopiedMore(t: Tree, t1: Tree, t2: Tree, source: Source, dst: string, k: nat)
    requires SourceOk(source) && Copied(t, t1, source, dst, k) && Piece(source, k) != []
    requires Written(t1, t2, NameOf(dst), WriteAt(Taken(source, k), |Taken(source, k)|, Piece(source, k)))
    ensures Copied(t, t2, source, dst, k + 1)
  {
    hide WriteAt, NormalPath, Parent;
    CopiedOn(t, t1, t2, NameOf(dst), Taken(source, k), Piece(source, k));
    if source.OfFile? { FileAllRead(source, k); }
  }

  lemma CopiedStill(t: Tree, t1: Tree, t2: Tree, source: Source, dst: string, k: nat)
    requires SourceOk(source) && Copied(t, t1, source, dst, k) && Unwritten(t1, t2, dst)
    ensures Copied(t, t2, source, dst, k)
  {
  }

  // ----- the loops -----

  /** The inner loop: writes the bytes that one read has delivered. */
  method WriteOut(p: Process, data: seq<byte>, ghost fds: seq<Fd>, ghost from: nat, to: nat, ghost source: Source, ghost dst: string,
                  ghost t: Tree, ghost k: nat) returns (ok: bool)
    requires p.Valid() && |fds| == FD_MAX && from < FD_MAX && to < FD_MAX && from != to && SourceOk(source)
    requires data == Piece(source, k) != [] && p.fs.ready
    requires At(p, fds, from, to, source, dst, k + 1, |Taken(source, k)|) && Copied(t, p.fs.Files(), source, dst, k)
    modifies p.fds, p.fs`nodesUsed, p.fs.nodes, p.fs.heap, p.fs.heap.bytes
    ensures p.Valid() && p.fs.heap.bytes == old(p.fs.heap.bytes) && p.fs.Foreign() == old(p.fs.Foreign())
    ensures ok ==> Midway(p, fds, from, to, source, dst, t, k + 1) && |Taken(source, k + 1)| <= H.ARENA_SIZE
    ensures !ok ==> Copied(t, p.fs.Files(), source, dst, k) && At(p, fds, from, to, source, dst, k + 1, |Taken(source, k)|)
    ensures !ok ==> NoRoom(p.fs.heap.blocks, source, k)
  {
    hide NormalPath, Parent, Copied, Sound, Owned, H.Live, H.Arena.Valid, H.Kept, View, Written, GrownByDirs, WriteAt, FdOk, Piece, Taken,
         SourceFd, FileSystem.FitsTwice;
    var written := 0;
    while written < |data|
      invariant written == 0 || written == |data|
      invariant p.Valid() && p.fs.heap.bytes == old(p.fs.heap.bytes) && p.fs.Foreign() == old(p.fs.Foreign())
      invariant Copied(t, p.fs.Files(), source, dst, if written == 0 then k else k + 1)
      invariant At(p, fds, from, to, source, dst, k + 1, |Taken(source, k)| + written)
      invariant |Taken(source, k)| + written <= H.ARENA_SIZE || written == 0
    {
      var rest := data[written..];
      assert rest == data;
      ghost var t1 := p.fs.Files();
      CopiedFile(t, t1, source, dst, k);
      ConstBytes(p.fs, rest);
      var w := p.Write(to, Const(rest), |rest|);
      if w.None? || w.value == 0 {
        CopiedStill(t, t1, p.fs.Files(), source, dst, k);
        return false;
      }
      CopiedMore(t, t1, p.fs.Files(), source, dst, k);
      written := written + w.value;
    }
    CopiedFile(t, p.fs.Files(), source, dst, k + 1);
    TakenNext(source, k);
    ok := true;
  }

  lemma TakenNext(s: Source, k: nat)
    requires SourceOk(s)
    ensures |Taken(s, k + 1)| == |Taken(s, k)| + |Piece(s, k)|
  {
  }

  /** What a read finds at the source. */
  lemma ReadFinds(p: Process, source: Source, dst: string, k: nat)
    requires p.Valid() && SourceOk(source) && SourceThere(p.fs.Files(), source, dst) && p.fs.ready
    ensures var e := SourceFd(source, k);
            && (e.kind == OnFile <==> source.OfFile?)
            && (e.kind == OnFile ==> p.fs.EntryAt(e.path) == Some(File(p.fs.BytesOf(e.path))))
            && (e.kind == DevRandom ==> source.OfDevice? && |source.feed(k)| >= BUFFER)
            && (forall input :: (source.OfDevice? ==> input == source.feed(k)) ==>
                  Piece(source, k) == Delivered(e, p.fs.BytesOf(e.path), BUFFER, input))
            && Moved(e, |Piece(source, k)|) == if Piece(source, k) == [] then e else SourceFd(source, k + 1)
  {
    hide NormalPath, View, SourceFd, Piece, Moved, DifferentFiles;
    if source.OfFile? {
      FileFinds(source, k);
    } else {
      DeviceFinds(source, k);
    }
  }

  lemma FileFinds(s: Source, k: nat)
    requires s.OfFile?
    ensures forall input :: Piece(s, k) == Delivered(SourceFd(s, k), s.bytes, BUFFER, input)
    ensures Moved(SourceFd(s, k), |Piece(s, k)|) == if Piece(s, k) == [] then SourceFd(s, k) else SourceFd(s, k + 1)
  {
    hide Piece;
    PieceOfFile(s, k);
    assert forall input :: Piece(s, k) == Delivered(SourceFd(s, k), s.bytes, BUFFER, input) by { PieceIs(s, k); }
  }

  lemma PieceIs(s: Source, k: nat)
    requires SourceOk(s)
    ensures s.OfFile? ==> forall input :: Piece(s, k) == Delivered(SourceFd(s, k), s.bytes, BUFFER, input)
    ensures s.OfDevice? ==> forall bytes :: Piece(s, k) == Delivered(SourceFd(s, k), bytes, BUFFER, s.feed(k))
  {
  }

  lemma DeviceFinds(s: Source, k: nat)
    requires SourceOk(s) && s.OfDevice?
    ensures s.kind == DevRandom ==> |s.feed(k)| >= BUFFER
    ensures forall bytes :: Piece(s, k) == Delivered(SourceFd(s, k), bytes, BUFFER, s.feed(k))
    ensures Moved(SourceFd(s, k), |Piece(s, k)|) == if Piece(s, k) == [] then SourceFd(s, k) else SourceFd(s, k + 1)
  {
    hide Piece;
    PieceIs(s, k);
    DevicePieces(s, k);
    WrapOn(k * BUFFER, BUFFER);
    assert (k + 1) * BUFFER == k * BUFFER + BUFFER;
  }

  lemma WrapOn(a: nat, b: nat)
    ensures (a % U64 + b) % U64 == (a + b) % U64
  {
    var q := a / U64;
    assert a + b == (a % U64 + b) + q * U64;
    WrapTurns(a % U64 + b, q);
  }

  lemma WrapTurns(a: nat, q: nat)
    ensures (a + q * U64) % U64 == a % U64
  {
    assert a + q * U64 == (a / U64 + q) * U64 + a % U64;
  }

  /** One round of the loop: what is read is written; the loop ends when nothing was read. */
  method Round(p: Process, from: nat, to: nat, input: seq<byte>, ghost fds: seq<Fd>, ghost source: Source, ghost dst: string,
               ghost t: Tree, ghost k: nat)
    returns (ok: bool, last: bool)
    requires p.Valid() && |fds| == FD_MAX && from < FD_MAX && to < FD_MAX && from != to && SourceOk(source)
    requires Midway(p, fds, from, to, source, dst, t, k) && (source.OfDevice? ==> input == source.feed(k))
    modifies p.fds, p.fs`nodesUsed, p.fs.nodes, p.fs.heap, p.fs.heap.bytes
    ensures p.Valid() && p.fs.heap.bytes == old(p.fs.heap.bytes) && p.fs.Foreign() == old(p.fs.Foreign())
    ensures ok && last <==> Piece(source, k) == []
    ensures ok && !last ==> Midway(p, fds, from, to, source, dst, t, k + 1) && |Taken(source, k + 1)| <= H.ARENA_SIZE
    ensures !ok || last ==> Copied(t, p.fs.Files(), source, dst, k) && exists j, n :: At(p, fds, from, to, source, dst, j, n)
    ensures !ok ==> NoRoom(p.fs.heap.blocks, source, k)
  {
    hide NormalPath, Parent, Copied, Sound, Owned, H.Live, H.Arena.Valid, H.Kept, View, Written, GrownByDirs, WriteAt, FdOk,
         Process.CanOpen, Process.CanWriteTo, Piece, Taken, SourceFd, Delivered, Moved, NoRoom;
    assert SourceThere(p.fs.Files(), source, dst) by { CopiedThere(t, p.fs.Files(), source, dst, k); }
    ReadFinds(p, source, dst, k);
    var got, buffer := p.Read(from, BUFFER, input);
    if got.None? {
      assert false;
    }
    if got.value == 0 {
      assert At(p, fds, from, to, source, dst, k, |Taken(source, k)|);
      return true, true;
    }
    ok := WriteOut(p, buffer, fds, from, to, source, dst, t, k);
    last := false;
  }

  lemma CopiedThere(t: Tree, t2: Tree, source: Source, dst: string, k: nat)
    requires SourceOk(source) && Copied(t, t2, source, dst, k)
    ensures SourceThere(t2, source, dst)
  {
  }

  /** The loop of ush_copy_file. */
  method Transfer(p: Process, from: nat, to: nat, feed: nat -> seq<byte>, ghost fds: seq<Fd>, ghost source: Source, ghost dst: string,
                  ghost t: Tree) returns (ok: bool, k: nat)
    requires p.Valid() && |fds| == FD_MAX && from < FD_MAX && to < FD_MAX && from != to && SourceOk(source)
    requires Midway(p, fds, from, to, source, dst, t, 0) && (source.OfDevice? ==> source.feed == feed)
    modifies p.fds, p.fs`nodesUsed, p.fs.nodes, p.fs.heap, p.fs.heap.bytes
    ensures p.Valid() && p.fs.heap.bytes == old(p.fs.heap.bytes) && p.fs.Foreign() == old(p.fs.Foreign())
    ensures Copied(t, p.fs.Files(), source, dst, k) && exists j, n :: At(p, fds, from, to, source, dst, j, n)
    ensures forall j :: 0 <= j < k ==> Piece(source, j) != []
    ensures if ok then Piece(source, k) == [] else Piece(source, k) != [] && NoRoom(p.fs.heap.blocks, source, k)
  {
    hide NormalPath, Parent, Copied, Sound, Owned, H.Live, H.Arena.Valid, H.Kept, View, Written, Piece, Taken, SourceFd, NoRoom, At;
    k := 0;
    ok := true;
    var last := false;
    assert |Taken(source, 0)| == 0 by { NothingTaken(source); }
    MidwayIs(p, fds, from, to, source, dst, t, 0);
    while ok && !last
      invariant p.Valid() && p.fs.heap.bytes == old(p.fs.heap.bytes) && p.fs.Foreign() == old(p.fs.Foreign())
      invariant forall j :: 0 <= j < k ==> Piece(source, j) != []
      invariant ok && !last ==> Midway(p, fds, from, to, source, dst, t, k) && |Taken(source, k)| <= H.ARENA_SIZE
      invariant ok && last ==> Piece(source, k) == []
      invariant !ok ==> Piece(source, k) != [] && NoRoom(p.fs.heap.blocks, source, k)
      invariant Copied(t, p.fs.Files(), source, dst, k) && exists j, n :: At(p, fds, from, to, source, dst, j, n)
      decreases ok && !last, H.ARENA_SIZE - |Taken(source, k)|
    {
      ok, last := Round(p, from, to, feed(k), fds, source, dst, t, k);
      if ok && !last {
        TakenNext(source, k);
        k := k + 1;
        MidwayIs(p, fds, from, to, source, dst, t, k);
      }
    }
  }

  lemma NothingTaken(s: Source)
    requires SourceOk(s)
    ensures Taken(s, 0) == []
  {
  }

  lemma MidwayIs(p: Process, fds: seq<Fd>, from: nat, to: nat, source: Source, dst: string, t: Tree, k: nat)
    requires p.Valid() && |fds| == FD_MAX && from < FD_MAX && to < FD_MAX && SourceOk(source)
    requires Midway(p, fds, from, to, source, dst, t, k)
    ensures Copied(t, p.fs.Files(), source, dst, k) && exists j, n :: At(p, fds, from, to, source, dst, j, n)
  {
  }

  // ----- the command -----

  /** What cp reads, once the destination has been opened: a file that is also the destination is
      empty by then. */
  function SourceOf(t: Tree, src: string, dst: string, feed: nat -> seq<byte>): Source {
    if DeviceName(src) then OfDevice(DeviceKind(src), feed)
    else OfFile(src, if DifferentFiles(src, dst) && NormalPath(src, PATH_MAX).Some? then Before(t, NameOf(src)) else [])
  }

  ghost predicate TwoFree(fds: seq<Fd>) {
    exists i, j :: 0 <= i < j < |fds| && !fds[i].used && !fds[j].used
  }

  /** The destination can be emptied or made: it has a name, no directory is in its place and no
      file on the way, and the table has room for what is missing. */
  ghost predicate CanReplace(ready: bool, t: Tree, dst: string) {
    && ready && CanName(dst)
    && match EntryIn(t, dst)
       case Some(File(_)) => true
       case Some(Dir) => false
       case None => !FileOnTheWay(t, Parent(NameOf(dst))) && Room(t, NameOf(dst))
  }

  lemma CanReplaceIs(p: Process, dst: string)
    requires p.Valid()
    ensures p.CanOpen(dst, REPLACE) <==> CanReplace(p.fs.ready, p.fs.Files(), dst)
  {
    hide NormalPath, Parent, FileOnTheWay, Room, View, H.Live, Sound, H.Arena.Valid, InTemp;
  }

  /** The source can be read as long as it has to be. */
  lemma SourceIsOk(t: Tree, src: string, dst: string, feed: nat -> seq<byte>)
    requires DeviceName(src) && DeviceKind(src) == DevRandom ==> forall k: nat :: |feed(k)| >= BUFFER
    ensures SourceOk(SourceOf(t, src, dst, feed))
    ensures SourceOf(t, src, dst, feed).OfDevice? ==> SourceOf(t, src, dst, feed).feed == feed
  {
  }

  /** What cp needs to begin: a source that is there as a file, two descriptors, and a destination
      that can be opened for writing. */
  ghost predicate CanBegin(p: Process, src: string, dst: string)
    reads p, p.fds, p.fs, p.fs.nodes, p.fs.heap, p.fs.heap.bytes
    requires p.Valid()
  {
    && p.fs.ready && p.fs.EntryAt(src).Some? && p.fs.EntryAt(src).value.File?
    && |src| < PATH_MAX && |dst| < PATH_MAX && TwoFree(p.fds[..]) && CanReplace(p.fs.ready, p.fs.Files(), dst)
  }

  lemma NoChange(t: Tree, path: string)
    ensures Quiet(t, t, path)
  {
  }

  lemma ClosedSlots(p: Process)
    requires p.Valid()
    ensures forall i :: 0 <= i < FD_MAX && !p.fds[i].used ==> p.fds[i] == CLOSED
  {
  }

  /** A path under /temp is no device. */
  lemma NoDevice(dst: string)
    requires UnderTemp(dst)
    ensures !DeviceName(dst) && dst != "" && dst[0] == '/'
  {
  }

  lemma NamedSource(src: string)
    requires NormalPath(src, PATH_MAX).Some?
    ensures src != "" && src[0] == '/'
  {
  }

  /** Right behind the opening of the destination nothing has been copied. */
  lemma Begun(t: Tree, t2: Tree, src: string, dst: string, feed: nat -> seq<byte>)
    requires CanName(dst) && Written(t, t2, NameOf(dst), []) && SourceOk(SourceOf(t, src, dst, feed))
    requires EntryIn(t, src).Some? && EntryIn(t, src).value.File?
    ensures Copied(t, t2, SourceOf(t, src, dst, feed), dst, 0)
    ensures SourceFd(SourceOf(t, src, dst, feed), 0)
         == if DeviceName(src) then Fd(true, DeviceKind(src), READ_ONLY, 0, "") else Fd(true, OnFile, READ_ONLY, 0, src)
  {
  }

  ghost predicate OneFree(fds: seq<Fd>) {
    exists i :: 0 <= i < |fds| && !fds[i].used
  }

  /** With one of them used, there is another one exactly when there were two. */
  lemma StillFree(fds: seq<Fd>, from: nat, e: Fd)
    requires from < |fds| && !fds[from].used && e.used
    ensures OneFree(fds[from := e]) <==> TwoFree(fds)
  {
    var rest := fds[from := e];
    if OneFree(rest) {
      var i :| 0 <= i < |rest| && !rest[i].used;
      assert !fds[i].used && i != from;
      assert i < from || from < i;
    }
    if TwoFree(fds) {
      var i, j :| 0 <= i < j < |fds| && !fds[i].used && !fds[j].used;
      assert !rest[if i == from then j else i].used;
    }
  }

  lemma NoneFree(fds: seq<Fd>)
    requires !OneFree(fds)
    ensures !TwoFree(fds)
  {
  }

  /** Opens the source, which is there as a file. */
  method OpenSource(p: Process, src: string) returns (from: Option<nat>)
    requires p.Valid() && p.fs.ready && p.fs.EntryAt(src).Some? && p.fs.EntryAt(src).value.File?
    modifies p.fds, p.fs`nodesUsed, p.fs.nodes, p.fs.heap, p.fs.heap.bytes
    ensures p.Valid() && p.fs.heap.bytes == old(p.fs.heap.bytes) && p.fs.Foreign() == old(p.fs.Foreign())
    ensures p.fs.Files() == old(p.fs.Files())
    ensures from.Some? <==> |src| < PATH_MAX && OneFree(old(p.fds[..]))
    ensures from == None ==> p.fds[..] == old(p.fds[..])
    ensures from.Some? ==>
              var e := if DeviceName(src) then Fd(true, DeviceKind(src), READ_ONLY, 0, "") else Fd(true, OnFile, READ_ONLY, 0, src);
              && from.value < FD_MAX && old(p.fds[..])[from.value] == CLOSED && p.fds[..] == old(p.fds[..])[from.value := e]
  {
    hide NormalPath, Parent, Sound, Owned, H.Live, H.Arena.Valid, H.Kept, View, Written, GrownByDirs, FdOk, Quiet, DeviceName, DeviceKind;
    ClosedSlots(p);
    NamedSource(src);
    from := p.Open(src, READ_ONLY);
  }

  /** Opens the destination, with the source already open. */
  method OpenDestination(p: Process, dst: string) returns (to: Option<nat>)
    requires p.Valid() && UnderTemp(dst)
    modifies p.fds, p.fs`nodesUsed, p.fs.nodes, p.fs.heap, p.fs.heap.bytes
    ensures p.Valid() && p.fs.heap.bytes == old(p.fs.heap.bytes) && p.fs.Foreign() == old(p.fs.Foreign())
    ensures to.Some? <==> |dst| < PATH_MAX && old(CanReplace(p.fs.ready, p.fs.Files(), dst)) && OneFree(old(p.fds[..]))
    ensures to == None ==> p.fds[..] == old(p.fds[..]) && Quiet(old(p.fs.Files()), p.fs.Files(), dst)
    ensures to.Some? ==>
              && to.value < FD_MAX && old(p.fds[..])[to.value] == CLOSED
              && p.fds[..] == old(p.fds[..])[to.value := Fd(true, OnFile, REPLACE, 0, dst)]
              && CanName(dst) && Written(old(p.fs.Files()), p.fs.Files(), NameOf(dst), [])
  {
    hide NormalPath, Parent, Sound, Owned, H.Live, H.Arena.Valid, H.Kept, View, Written, GrownByDirs, FdOk, Quiet, DeviceName, DeviceKind,
         Process.CanOpen, CanReplace;
    ClosedSlots(p);
    NoDevice(dst);
    CanReplaceIs(p, dst);
    to := p.Open(dst, REPLACE);
  }

  /** The part of ush_copy_file behind the opening of both files. */
  method CopyOpened(p: Process, from: nat, to: nat, feed: nat -> seq<byte>, ghost fds: seq<Fd>, ghost source: Source, ghost dst: string,
                    ghost t: Tree) returns (ok: bool, k: nat)
    requires p.Valid() && |fds| == FD_MAX && from < FD_MAX && to < FD_MAX && from != to && fds[from] == fds[to] == CLOSED
    requires SourceOk(source) && (source.OfDevice? ==> source.feed == feed)
    requires Copied(t, p.fs.Files(), source, dst, 0) && At(p, fds, from, to, source, dst, 0, 0) && p.fs.ready
    modifies p.fds, p.fs`nodesUsed, p.fs.nodes, p.fs.heap, p.fs.heap.bytes
    ensures p.Valid() && p.fs.heap.bytes == old(p.fs.heap.bytes) && p.fs.Foreign() == old(p.fs.Foreign())
    ensures p.fds[..] == fds && Copied(t, p.fs.Files(), source, dst, k)
    ensures forall j :: 0 <= j < k ==> Piece(source, j) != []
    ensures if ok then Piece(source, k) == [] else Piece(source, k) != [] && NoRoom(p.fs.heap.blocks, source, k)
  {
    hide NormalPath, Parent, Copied, Sound, Owned, H.Live, H.Arena.Valid, H.Kept, View, Written, FdOk, SourceFd, Piece, Taken, NoRoom,
         SourceOk;
    NothingTaken(source);
    ok, k := Transfer(p, from, to, feed, fds, source, dst, t);
    var _ := p.Close(to);
    var _ := p.Close(from);
  }

  /** What has been copied of a file when a read delivers nothing: all of it, and it is still
      there, unless it is itself the destination. */
  lemma FileCopied(t: Tree, t2: Tree, src: string, dst: string, feed: nat -> seq<byte>, k: nat)
    requires !DeviceName(src) && EntryIn(t, src).Some? && EntryIn(t, src).value.File?
    requires var source := SourceOf(t, src, dst, feed); Copied(t, t2, source, dst, k) && Piece(source, k) == []
    ensures CanName(dst)
    ensures Written(t, t2, NameOf(dst), if DifferentFiles(src, dst) then EntryIn(t, src).value.bytes else [])
    ensures DifferentFiles(src, dst) ==> EntryIn(t2, dst) == EntryIn(t2, src) == EntryIn(t, src)
  {
    hide NormalPath, Parent, Piece, Taken, Written, DeviceName;
    var source := SourceOf(t, src, dst, feed);
    FileAllRead(source, k);
    CopiedFile(t, t2, source, dst, k);
  }

  /** Zeros and random numbers are never used up, so that copying them only ends when there is no
      more room; the null device leaves an empty file. */
  lemma DeviceCopied(t: Tree, t2: Tree, src: string, dst: string, feed: nat -> seq<byte>, k: nat)
    requires DeviceName(src) && SourceOk(SourceOf(t, src, dst, feed))
    requires var source := SourceOf(t, src, dst, feed);
             Copied(t, t2, source, dst, k) && (forall j :: 0 <= j < k ==> Piece(source, j) != []) && Piece(source, k) == []
    ensures DeviceKind(src) != DevZero && DeviceKind(src) != DevRandom
    ensures DeviceKind(src) == DevNull ==> EntryIn(t2, dst) == Some(File([]))
  {
    hide NormalPath, Parent, Piece, Taken, Written, DeviceName, SourceThere;
    var source := SourceOf(t, src, dst, feed);
    DevicePieces(source, k);
    DevicePieces(source, 0);
    NothingTaken(source);
    CopiedFile(t, t2, source, dst, k);
  }

  /** ush_copy_file, for a destination under /temp. It gets to copying if and only if it can begin;
      then the destination holds what `k` reads delivered. On success the next read delivers
      nothing; on failure there is no room for what it delivers. The descriptor table is in any
      case as before. */
  method CopyFile(p: Process, src: string, dst: string, feed: nat -> seq<byte>) returns (ok: bool, rounds: Option<nat>)
    requires p.Valid() && UnderTemp(dst) && (DeviceName(src) && DeviceKind(src) == DevRandom ==> forall k: nat :: |feed(k)| >= BUFFER)
    modifies p.fds, p.fs`nodesUsed, p.fs.nodes, p.fs.heap, p.fs.heap.bytes
    ensures p.Valid() && p.fs.heap.bytes == old(p.fs.heap.bytes) && p.fs.Foreign() == old(p.fs.Foreign())
    ensures p.fds[..] == old(p.fds[..])
    ensures rounds.Some? <==> old(CanBegin(p, src, dst))
    ensures rounds == None ==> !ok && Quiet(old(p.fs.Files()), p.fs.Files(), dst)
    ensures SourceOk(SourceOf(old(p.fs.Files()), src, dst, feed))
    ensures rounds.Some? ==>
              var source, k := SourceOf(old(p.fs.Files()), src, dst, feed), rounds.value;
              && Copied(old(p.fs.Files()), p.fs.Files(), source, dst, k)
              && (forall j :: 0 <= j < k ==> Piece(source, j) != [])
              && if ok then Piece(source, k) == [] else Piece(source, k) != [] && NoRoom(p.fs.heap.blocks, source, k)
    ensures ok && !DeviceName(src) ==> old(p.fs.EntryAt(src)).Some? && old(p.fs.EntryAt(src)).value.File? && CanName(dst)
    ensures ok && !DeviceName(src) ==> Written(old(p.fs.Files()), p.fs.Files(), NameOf(dst),
                                               if DifferentFiles(src, dst) then old(p.fs.EntryAt(src)).value.bytes else [])
    ensures ok && !DeviceName(src) && DifferentFiles(src, dst) ==> p.fs.EntryAt(dst) == p.fs.EntryAt(src) == old(p.fs.EntryAt(src))
    ensures ok && DeviceName(src) ==> DeviceKind(src) != DevZero && DeviceKind(src) != DevRandom
    ensures ok && DeviceName(src) && DeviceKind(src) == DevNull ==> p.fs.EntryAt(dst) == Some(File([]))
  {
    hide NormalPath, Parent, Copied, Sound, Owned, H.Live, H.Arena.Valid, H.Kept, View, Written, FdOk, Quiet, TwoFree,
         DeviceName, DeviceKind, SourceFd, Piece, Taken, NoRoom, CanReplace, SourceOf, SourceOk, DifferentFiles;
    ghost var t, fds, source := p.fs.Files(), p.fds[..], SourceOf(p.fs.Files(), src, dst, feed);
    NoChange(t, dst);
    SourceIsOk(t, src, dst, feed);
    var info := p.fs.Stat(src);
    if info.None? || info.value.0 != FileNode {
      return false, None;
    }
    var from := OpenSource(p, src);
    if from.None? {
      if |src| < PATH_MAX { NoneFree(fds); }
      return false, None;
    }
    StillFree(fds, from.value, p.fds[from.value]);
    var to := OpenDestination(p, dst);
    if to.None? {
      var closed := p.Close(from.value);
      assert p.fds[..] == fds;
      return false, None;
    }
    Begun(t, p.fs.Files(), src, dst, feed);
    var k;
    ok, k := CopyOpened(p, from.value, to.value, feed, fds, source, dst, t);
    rounds := Some(k);
    if ok && DeviceName(src) {
      DeviceCopied(t, p.fs.Files(), src, dst, feed, k);
    } else if ok {
      FileCopied(t, p.fs.Files(), src, dst, feed, k);
    }
  }
}
