/** Whole runs of file-system requests: the contents of every file are what replaying the
    requests that name it gives, and the rest of the tree is left alone. */
module FsRuns {
  import opened Machine
  import opened Paths
  import opened FsTable
  import FsRoom
  import opened Fs
  import H = Heap

  datatype Request = WriteFile(path: string, data: seq<byte>) | AppendFile(path: string, data: seq<byte>)
                   | RemoveEntry(path: string) | MakeDir(path: string)

  predicate Names(path: string, p: string) {
    NormalPath(path, PATH_MAX) == Some(p)
  }

  /** What one request does to file `p`, given whether it was reported as done. */
  function Effect(r: Request, ok: bool, p: string, was: Option<seq<byte>>): Option<seq<byte>> {
    if !ok || !Names(r.path, p) then was
    else
      match r
      case WriteFile(_, data) => Some(data)
      case AppendFile(_, data) => Some((if was.Some? then was.value else []) + data)
      case RemoveEntry(_) => None
      case MakeDir(_) => was
  }

  /** File `p` after the requests, as its own history tells. */
  function Replay(rs: seq<Request>, oks: seq<bool>, p: string, was: Option<seq<byte>>): Option<seq<byte>>
    requires |rs| == |oks|
  {
    if rs == [] then was
    else Effect(rs[|rs|-1], oks[|rs|-1], p, Replay(rs[..|rs|-1], oks[..|rs|-1], p, was))
  }

  /** Outside the temp directory nothing differs, and the temp directory itself is not lost. */
  ghost predicate SameOutsideTemp(t: Tree, t2: Tree) {
    && (forall q :: !InTemp(q) ==> (q in t <==> q in t2) && (q in t ==> t2[q] == t[q]))
    && ("temp" in t && t["temp"] == Dir ==> "temp" in t2 && t2["temp"] == Dir)
  }

  lemma WrittenOutside(t: Tree, t2: Tree, p: string, data: seq<byte>)
    requires IsTempFile(p) && InTemp(Parent(p)) && Written(t, t2, p, data)
    ensures SameOutsideTemp(t, t2)
    ensures forall q :: FileAt(t2, q) == if q == p then Some(data) else FileAt(t, q)
  {
  }

  // ----- what the file system promises of one request -----

  ghost predicate Quiet(t: Tree, t2: Tree, path: string) {
    || t2 == t
    || (InReach(path) && GrownByDirs(t, t2, NameOf(path)))
    || (CanName(path) && GrownByDirs(t, t2, Parent(NameOf(path))))
  }

  /** A write that failed: at most directories above the file are new. */
  ghost predicate Unwritten(t: Tree, t2: Tree, path: string) {
    t2 == t || (CanName(path) && GrownByDirs(t, t2, Parent(NameOf(path))))
  }

  function Before(t: Tree, p: string): seq<byte> {
    if p in t && t[p].File? then t[p].bytes else []
  }

  ghost predicate Answer(t: Tree, r: Request, ok: bool, t2: Tree) {
    if !ok then Quiet(t, t2, r.path)
    else
      match r
      case WriteFile(path, data) => CanName(path) && Written(t, t2, NameOf(path), data)
      case AppendFile(path, data) => CanName(path) && Written(t, t2, NameOf(path), Before(t, NameOf(path)) + data)
      case RemoveEntry(path) => InReach(path) && NameOf(path) != "temp" && NameOf(path) in t && t2 == t - {NameOf(path)}
      case MakeDir(path) => InReach(path) && GrownByDirs(t, t2, NameOf(path)) && NameOf(path) in t2 && t2[NameOf(path)] == Dir
  }

  lemma QuietOutside(t: Tree, t2: Tree, path: string)
    requires Quiet(t, t2, path)
    ensures SameOutsideTemp(t, t2) && forall q :: FileAt(t2, q) == FileAt(t, q)
  {
  }

  lemma AnswerEffect(t: Tree, r: Request, ok: bool, t2: Tree)
    requires Answer(t, r, ok, t2)
    ensures SameOutsideTemp(t, t2)
    ensures forall q :: FileAt(t2, q) == Effect(r, ok, q, FileAt(t, q))
  {
    hide NormalPath, GrownByDirs, Parent, Written;
    if !ok || r.MakeDir? {
      QuietOutside(t, t2, r.path);
    } else if !r.RemoveEntry? {
      TempFileParent(r.path, NameOf(r.path));
      WrittenOutside(t, t2, NameOf(r.path), if r.WriteFile? then r.data else Before(t, NameOf(r.path)) + r.data);
    }
  }

  /** The trees between the requests of a run. */
  ghost predicate Run(ts: seq<Tree>, rs: seq<Request>, oks: seq<bool>) {
    && |ts| == |rs| + 1 && |oks| == |rs|
    && forall i, j :: 0 <= i < |rs| && j == i + 1 ==> Answer(ts[i], rs[i], oks[i], ts[j])
  }

  /** In every run, each file holds what its own history says, nothing outside the temp
      directory ever changes, and the temp directory stays. */
  lemma {:induction false} EveryRun(ts: seq<Tree>, rs: seq<Request>, oks: seq<bool>)
    requires Run(ts, rs, oks)
    ensures SameOutsideTemp(ts[0], ts[|rs|])
    ensures forall p :: FileAt(ts[|rs|], p) == Replay(rs, oks, p, FileAt(ts[0], p))
    decreases |rs|
  {
    hide Answer, Effect, FileAt;
    if rs != [] {
      var n := |rs| - 1;
      var ts1, rs1, oks1 := ts[..n+1], rs[..n], oks[..n];
      assert forall i, j :: 0 <= i < n && j == i + 1 ==> Answer(ts1[i], rs1[i], oks1[i], ts1[j]);
      EveryRun(ts1, rs1, oks1);
      AnswerEffect(ts[n], rs[n], oks[n], ts[n+1]);
    }
  }

  /** A file that the rest of the run does not name holds what was last written to it. */
  lemma {:induction false} LastWriteStays(ts: seq<Tree>, rs: seq<Request>, oks: seq<bool>, k: nat, p: string)
    requires Run(ts, rs, oks) && k < |rs| && oks[k] && rs[k].WriteFile? && Names(rs[k].path, p)
    requires forall j :: k < j < |rs| && oks[j] ==> !Names(rs[j].path, p)
    ensures p in ts[|rs|] && ts[|rs|][p] == File(rs[k].data)
    decreases |rs|
  {
    hide Answer, Names;
    var n := |rs| - 1;
    AnswerEffect(ts[n], rs[n], oks[n], ts[n+1]);
    assert FileAt(ts[n+1], p) == Effect(rs[n], oks[n], p, FileAt(ts[n], p));
    if k < n {
      LastWriteStays(ts[..n+1], rs[..n], oks[..n], k, p);
      assert FileAt(ts[n], p) == Some(rs[k].data);
    }
  }

  /** Carries out one request whose data, if any, lies outside the heap. */
  method Serve(fs: FileSystem, r: Request) returns (ok: bool)
    requires fs.Valid() && ((r.WriteFile? || r.AppendFile?) ==> |r.data| <= MAX_OBJECT)
    modifies fs`nodesUsed, fs.nodes, fs.heap, fs.heap.bytes
    ensures fs.Valid() && fs.heap.bytes == old(fs.heap.bytes) && fs.Foreign() == old(fs.Foreign())
    ensures Answer(old(fs.Files()), r, ok, fs.Files())
  {
    hide View, NormalPath, Parent, Written, GrownByDirs, HasChild, FsTable.Sound, FsTable.Owned, H.Live, H.Arena.Valid, H.Kept,
         FileSystem.CanWrite, FileSystem.CanAppend, FsRoom.Room, FileOnTheWay;
    if r.WriteFile? || r.AppendFile? { assert r.data[..|r.data|] == r.data; }
    match r
    case WriteFile(path, data) => ok := fs.WriteAll(path, Const(data), |data|);
    case AppendFile(path, data) => ok := fs.Append(path, Const(data), |data|);
    case RemoveEntry(path) => ok := fs.Remove(path);
    case MakeDir(path) => ok := fs.Mkdir(path);
  }

  /** Carries out a list of requests. */
  method Play(fs: FileSystem, rs: seq<Request>) returns (oks: seq<bool>, ghost ts: seq<Tree>)
    requires fs.Valid()
    requires forall r :: r in rs && (r.WriteFile? || r.AppendFile?) ==> |r.data| <= MAX_OBJECT
    modifies fs`nodesUsed, fs.nodes, fs.heap, fs.heap.bytes
    ensures fs.Valid() && fs.heap.bytes == old(fs.heap.bytes) && fs.Foreign() == old(fs.Foreign())
    ensures Run(ts, rs, oks) && ts[0] == old(fs.Files()) && ts[|rs|] == fs.Files()
    ensures SameOutsideTemp(old(fs.Files()), fs.Files())
    ensures forall p :: FileAt(fs.Files(), p) == Replay(rs, oks, p, old(FileAt(fs.Files(), p)))
  {
    hide View, Answer, FsTable.Sound, FsTable.Owned, H.Live, H.Arena.Valid, Replay, SameOutsideTemp, FileAt;
    oks, ts := [], [fs.Files()];
    var i := 0;
    while i < |rs|
      invariant i <= |rs| && fs.Valid() && fs.heap.bytes == old(fs.heap.bytes) && fs.Foreign() == old(fs.Foreign())
      invariant Run(ts, rs[..i], oks) && ts[0] == old(fs.Files()) && ts[i] == fs.Files()
    {
      var ok := Serve(fs, rs[i]);
      oks, ts := oks + [ok], ts + [fs.Files()];
      i := i + 1;
    }
    assert rs[..i] == rs;
    EveryRun(ts, rs, oks);
  }
}
