/** The RAM-disk file system (clks/kernel/fs.c) as an object that owns heap blocks. */
module Fs {
  import opened Machine
  import opened Paths
  import opened FsTable
  import opened FsRoom
  import opened FsInstall
  import opened Splice
  import H = Heap
  import Ramdisk

  // ----- path text -----

  const NUL: char := 0 as char

  /** The buffer holds `s` and a terminator. */
  ghost predicate HoldsText(out: array<char>, cap: nat, s: string)
    reads out
  {
    |s| < cap <= out.Length && out[..|s|] == s && out[|s|] == NUL
  }

  lemma DotsOf(path: string, i: nat, j: nat)
    requires i < j <= |path|
    ensures path[i..j] == "." <==> j - i == 1 && path[i] == '.'
    ensures path[i..j] == ".." <==> j - i == 2 && path[i] == '.' && path[i+1] == '.'
  {
    assert path[i..j][0] == path[i];
    assert j - i == 2 ==> path[i..j][1] == path[i+1];
  }

  /** The part of clks_fs_normalize_external_path that copies one component behind the `n`
      characters that are there */
  method AddComp(path: string, start: nat, size: nat, out: array<char>, n: nat, cap: nat) returns (len: Option<nat>)
    requires start + size <= |path| && n < cap <= out.Length
    modifies out
    ensures var text := (if n == 0 then "" else old(out[..n]) + "/") + path[start..start+size];
            if |text| < cap then len == Some(|text|) && out[..|text|] == text else len == None
    ensures forall k :: cap <= k < out.Length ==> out[k] == old(out[k])
  {
    var at := n;
    if at != 0 {
      if at + 1 >= cap {
        return None;
      }
      out[at] := '/';
      at := at + 1;
    }
    if at + size >= cap {
      return None;
    }
    ghost var front := out[..at];
    assert n != 0 ==> front == old(out[..n]) + "/";
    forall k | 0 <= k < size { out[at+k] := path[start+k]; }
    assert out[..at+size] == front + path[start..start+size];
    return Some(at + size);
  }

  /** clks_fs_normalize_external_path, into the first `cap` characters of `out` */
  method NormalizeInto(path: string, out: array<char>, cap: nat) returns (len: Option<nat>)
    requires cap <= out.Length
    modifies out
    ensures len.Some? <==> NormalPath(path, cap).Some?
    ensures len.Some? ==> len.value == |NormalPath(path, cap).value| && HoldsText(out, cap, NormalPath(path, cap).value)
    ensures forall k :: cap <= k < out.Length ==> out[k] == old(out[k])
  {
    hide Comps, Join, NoDots;
    if cap == 0 || path == "" || path[0] != '/' {
      return None;
    }
    var i := SkipSlashes(path, 0);
    var n: nat := 0;
    ghost var done: seq<string> := [];
    assert path[0..] == path;
    NormalStart();
    while i < |path|
      invariant i <= |path| && (i < |path| ==> path[i] != '/')
      invariant Comps(path) == done + Comps(path[i..]) && AreComps(done)
      invariant ".." !in done && n < cap && out[..n] == Join(NoDots(done))
      invariant forall k :: cap <= k < out.Length ==> out[k] == old(out[k])
    {
      var j := ReadComp(path, i);
      ghost var comp := path[i..j];
      assert Comps(path) == (done + [comp]) + Comps(path[j..]);
      NormalStep(done, comp);
      DotsOf(path, i, j);
      done := done + [comp];
      var start, size := i, j - i;
      i := SkipSlashes(path, j);
      if size == 1 && path[start] == '.' {
        continue;
      }
      if size == 2 && path[start] == '.' && path[start+1] == '.' {
        assert comp in done;
        return None;
      }
      len := AddComp(path, start, size, out, n, cap);
      if len.None? {
        TooLong(Comps(path), done, Comps(path[i..]), cap);
        return None;
      }
      n := len.value;
    }
    NoComps();
    assert path[i..] == "" && done + [] == done;
    out[n] := NUL;
    return Some(n);
  }

  /** The same, with a buffer of its own as the callers have it */
  method Normalize(path: string, cap: nat) returns (r: Option<string>)
    ensures r == NormalPath(path, cap)
  {
    var out := new char[cap];
    var len := NormalizeInto(path, out, cap);
    return if len.None? then None else Some(out[..len.value]);
  }

  lemma NormalStart()
    ensures Join(NoDots([])) == ""
  {
  }

  lemma NormalStep(done: seq<string>, comp: string)
    requires AreComps(done) && IsComp(comp)
    ensures Join(NoDots(done)) == "" <==> NoDots(done) == []
    ensures comp == "." ==> NoDots(done + [comp]) == NoDots(done)
    ensures comp != "." ==> (Join(NoDots(done + [comp]))
              == if Join(NoDots(done)) == "" then comp else Join(NoDots(done)) + "/" + comp)
  {
    assert (done + [comp])[..|done|] == done;
    if NoDots(done) != [] { JoinNonEmpty(NoDots(done)); }
    JoinAppend(NoDots(done), comp);
  }

  /** clks_fs_split_parent, into the first `cap` characters of `out` */
  method SplitParentInto(p: string, out: array<char>, cap: nat) returns (len: Option<nat>)
    requires cap <= out.Length
    modifies out
    ensures len == if |Parent(p)| < cap then Some(|Parent(p)|) else None
    ensures len.Some? ==> HoldsText(out, cap, Parent(p))
    ensures forall k :: cap <= k < out.Length ==> out[k] == old(out[k])
  {
    if cap == 0 {
      return None;
    }
    if p == "" {
      out[0] := NUL;
      return Some(0);
    }
    var i := |p|;
    while i != 0
      invariant 0 <= i <= |p| && '/' !in p[i..] && out[..] == old(out[..])
    {
      if p[i-1] == '/' {
        assert forall k :: i <= k < |p| ==> p[k] == p[i..][k-i];
        var size := i - 1;
        if size >= cap {
          return None;
        }
        forall k | 0 <= k < size { out[k] := p[k]; }
        out[size] := NUL;
        assert out[..size] == p[..size];
        return Some(size);
      }
      i := i - 1;
    }
    assert p[0..] == p;
    out[0] := NUL;
    return Some(0);
  }

  /** The same, with a buffer of its own as the callers have it */
  method SplitParent(p: string, cap: nat) returns (r: Option<string>)
    ensures r == if |Parent(p)| >= cap then None else Some(Parent(p))
  {
    var out := new char[cap];
    var len := SplitParentInto(p, out, cap);
    return if len.None? then None else Some(out[..len.value]);
  }

  /** The paths that can be changed: absolute, short enough, without "..", in the temp tree. */
  predicate InReach(path: string) {
    NormalPath(path, PATH_MAX).Some? && InTemp(NormalPath(path, PATH_MAX).value)
  }

  /** The paths that can be written: those in reach, except the temp directory itself. */
  predicate CanName(path: string) {
    InReach(path) && IsTempFile(NameOf(path))
  }

  function NameOf(path: string): string
    requires NormalPath(path, PATH_MAX).Some?
  {
    NormalPath(path, PATH_MAX).value
  }

  lemma NormalFits(path: string)
    requires NormalPath(path, PATH_MAX).Some?
    ensures |NormalPath(path, PATH_MAX).value| < PATH_MAX
  {
  }

  /** What a lookup of an external path finds in a tree. */
  function EntryIn(t: Tree, path: string): Option<Entry> {
    match NormalPath(path, PATH_MAX)
    case None => None
    case Some(p) => if p in t then Some(t[p]) else None
  }

  ghost predicate ReadableIn(live: map<int, nat>, data: Ptr, size: nat) {
    match data
    case Nil => true
    case Const(bs) => size <= |bs| <= MAX_OBJECT
    case InHeap(a) => exists p :: p in live && p <= a && a + size <= p + live[p]
  }

  lemma PatchedBlock(mem: seq<byte>, now: seq<byte>, m: nat, total: nat, off: nat, n: nat, data: seq<byte>)
    requires |mem| == |now| && m + total <= |mem| && off + n <= total
    requires BytesAt(now, InHeap(m), off + n) == BytesAt(mem, InHeap(m), off) + data
    requires forall k :: 0 <= k < |mem| && !(m + off <= k < m + off + n) ==> now[k] == mem[k]
    ensures |BytesAt(mem, InHeap(m), total)| == total && |data| == n
    ensures BytesAt(now, InHeap(m), total) == Patch(BytesAt(mem, InHeap(m), total), off, data)
  {
    assert |now[m..m+off+n]| == off + n && |mem[m..m+off]| == off;
    assert data == now[m..m+off+n][off..] == now[m+off..m+off+n];
  }

  const STANDARD: seq<string> := ["/system", "/shell", "/temp", "/driver", "/dev"]

  class FileSystem {
    var nodes: array<Node>
    var nodesUsed: nat
    var ready: bool
    const heap: H.Arena

    ghost function Table(): seq<Node>
      reads this, nodes
      requires nodesUsed <= nodes.Length
    {
      nodes[..nodesUsed]
    }

    ghost function Live(): map<int, nat>
      reads heap
    {
      H.Live(heap.blocks)
    }

    ghost function Files(): Tree
      reads this, nodes, heap, heap.bytes
      requires nodesUsed <= nodes.Length
    {
      View(Table(), heap.bytes[..])
    }

    ghost function EntryAt(path: string): Option<Entry>
      reads this, nodes, heap, heap.bytes
      requires nodesUsed <= nodes.Length
    {
      EntryIn(Files(), path)
    }

    ghost predicate Valid()
      reads this, nodes, heap
    {
      && nodes.Length == MAX_NODES && nodesUsed <= nodes.Length
      && heap.Valid()
      && Sound(Table(), Live())
    }

    /** The start of clks_fs_init: an empty table with the root directory in slot 0. */
    constructor (arena: H.Arena)
      requires arena.Valid()
      ensures Valid() && fresh(nodes) && heap == arena && !ready && Table() == [ROOT]
    {
      heap := arena;
      nodes := new Node[MAX_NODES](i => UNUSED);
      nodesUsed, ready := 0, false;
      new;
      var root := CreateOrUpdate("", DirNode, 0, Nil, 0);
      assert Table() == [ROOT];
    }

    /** clks_fs_find_node_by_internal */
    method FindNode(p: string) returns (r: int)
      requires nodesUsed <= nodes.Length
      ensures r == if Find(Table(), p) < nodesUsed then Find(Table(), p) else -1
    {
      var i := 0;
      while i < nodesUsed
        invariant 0 <= i <= nodesUsed
        invariant forall j :: 0 <= j < i ==> !(nodes[j].used && nodes[j].path == p)
      {
        if nodes[i].used && nodes[i].path == p {
          FindIs(Table(), p, i);
          return i;
        }
        i := i + 1;
      }
      FindIs(Table(), p, nodesUsed);
      return -1;
    }

    /** clks_fs_alloc_slot */
    method AllocSlot() returns (r: int)
      requires nodes.Length == MAX_NODES && nodesUsed <= nodes.Length
      modifies this`nodesUsed
      ensures var s := FreeSlot(old(Table()));
              if s == MAX_NODES then r == -1 && nodesUsed == old(nodesUsed)
              else r == s && nodesUsed == if s == old(nodesUsed) then s + 1 else old(nodesUsed)
    {
      var i := 0;
      while i < nodesUsed
        invariant 0 <= i <= nodesUsed && nodesUsed == old(nodesUsed)
        invariant forall j :: 0 <= j < i ==> nodes[j].used
      {
        if !nodes[i].used {
          return i;
        }
        i := i + 1;
      }
      if nodesUsed >= MAX_NODES {
        return -1;
      }
      nodesUsed := nodesUsed + 1;
      return nodesUsed - 1;
    }

    /** clks_fs_create_or_update_node */
    method CreateOrUpdate(p: string, kind: Kind, parent: nat, data: Ptr, size: nat) returns (r: int)
      requires nodes.Length == MAX_NODES && nodesUsed <= nodes.Length
      modifies this`nodesUsed, nodes
      ensures nodesUsed <= nodes.Length
      ensures var (ns, i) := Put(old(Table()), p, kind, parent, data, size);
              Table() == ns && r == match i { case Some(k) => k case None => -1 }
    {
      hide Find, FreeSlot;
      if |p| >= PATH_MAX {
        return -1;
      }
      var existing := FindNode(p);
      if existing >= 0 {
        if nodes[existing].kind != kind {
          return -1;
        }
        nodes[existing] := nodes[existing].(parent := parent);
        if kind == FileNode {
          nodes[existing] := nodes[existing].(data := data, size := size, ownsData := false);
        }
        nodes[existing] := nodes[existing].(used := true);
        return existing;
      }
      ghost var ns := Table();
      var slot := AllocSlot();
      if slot < 0 {
        return -1;
      }
      nodes[slot] := Made(p, kind, parent, data, size);
      assert Table() == AddAt(ns, slot, Made(p, kind, parent, data, size));
      return slot;
    }

    /** One component of clks_fs_ensure_dir_hierarchy: finds or creates directory `q`, whose
        parent directory is node `parent`. */
    method EnterDir(q: string, parent: nat) returns (r: int)
      requires Valid() && q != "" && |q| < PATH_MAX
      requires parent < nodesUsed && nodes[parent].used && nodes[parent].kind == DirNode && nodes[parent].path == Parent(q)
      modifies this`nodesUsed, nodes
      ensures Valid() && Owned(Table()) == old(Owned(Table()))
      ensures r >= 0 ==> r < nodesUsed && nodes[r].used && nodes[r].kind == DirNode && nodes[r].path == q
      ensures r >= 0 ==> Files() == old(Files())[q := Dir] && (q in old(Files()) ==> old(Files())[q] == Dir)
      ensures r < 0 ==> Files() == old(Files()) && if q in Files() then Files()[q].File? else Full(Table())
    {
      hide View, Parent, Put;
      ghost var ns, mem := Table(), heap.bytes[..];
      ViewFind(ns, mem, q);
      r := FindNode(q);
      if r >= 0 {
        if nodes[r].kind != DirNode {
          return -1;
        }
        return;
      }
      PutNewDir(ns, q, parent, Live(), mem);
      ghost var (added, index) := Put(ns, q, DirNode, parent, Nil, 0);
      r := CreateOrUpdate(q, DirNode, parent, Nil, 0);
      assert heap.bytes[..] == mem;
    }

    /** clks_fs_ensure_dir_hierarchy */
    method EnsureDirs(p: string) returns (ok: bool)
      requires Valid()
      modifies this`nodesUsed, nodes
      ensures Valid() && Owned(Table()) == old(Owned(Table()))
      ensures GrownByDirs(old(Files()), Files(), p)
      ensures ok && p != "" && p[|p|-1] != '/' ==> p in Files() && Files()[p] == Dir
      ensures !ok ==> !PlainText(p) || Stuck(Table(), Files(), p) || FileOnTheWay(old(Files()), p)
    {
      hide View, Parent, Put, Sound, Owned, H.Live, GrownByDirs, FileOnTheWay, H.Arena.Valid, NodeOk, Full, PlainText, Stuck, OnTheWay;
      RootIs(Table(), Live());
      GrowNone(Files(), p);
      if p == "" {
        return true;
      }
      assert Table()[0] == nodes[0];
      var prefix, i, parent := "", 0, 0;
      while i < |p|
        invariant Walked(p, prefix, i)
        invariant Valid() && Owned(Table()) == old(Owned(Table()))
        invariant parent < nodesUsed && nodes[parent].used && nodes[parent].kind == DirNode && nodes[parent].path == prefix
        invariant GrownByDirs(old(Files()), Files(), p)
        invariant prefix != "" ==> prefix in Files() && Files()[prefix] == Dir
      {
        var start := i;
        while i < |p| && p[i] != '/'
          invariant start <= i <= |p| && '/' !in p[start..i]
        {
          i := i + 1;
        }
        var comp := p[start..i];
        NotPlain(p, prefix, start, i);
        if |comp| == 0 {
          return false;
        }
        WalkOn(p, prefix, start, i);
        if prefix != "" {
          if |prefix| + 1 >= PATH_MAX {
            return false;
          }
          prefix := prefix + "/";
        }
        if |prefix| + |comp| >= PATH_MAX {
          return false;
        }
        prefix := prefix + comp;
        ghost var was := Files();
        var index := EnterDir(prefix, parent);
        GrowStep(old(Files()), was, prefix, p);
        if index < 0 {
          if prefix !in Files() { StuckAt(Table(), Files(), prefix, p); }
          return false;
        }
        parent := index;
        if i < |p| && p[i] == '/' {
          i := i + 1;
        }
      }
      WalkEnds(p, prefix);
      return true;
    }

    lemma WalkEnds(p: string, prefix: string)
      requires Walked(p, prefix, |p|)
      ensures p != "" && p[|p|-1] != '/' ==> prefix == p
    {
    }

    // ----- payloads -----

    /** A buffer that a caller may pass: `size` readable bytes outside the heap, or inside one
        live payload, possibly the payload of the very file that is written. */
    ghost predicate Readable(data: Ptr, size: nat)
      reads heap
    {
      ReadableIn(Live(), data, size)
    }

    /** clks_memcpy from `src` to a heap address */
    method CopyIn(dst: int, src: Ptr, size: nat)
      requires heap.bytes.Length == H.ARENA_SIZE && 0 <= dst && dst + size <= H.ARENA_SIZE
      requires src.Const? ==> size <= |src.bytes|
      requires src.InHeap? ==> 0 <= src.at && src.at + size <= H.ARENA_SIZE && (src.at + size <= dst || dst + size <= src.at)
      requires src != Nil
      modifies heap.bytes
      ensures heap.bytes[dst..dst+size] == old(BytesAt(heap.bytes[..], src, size))
      ensures forall k :: 0 <= k < H.ARENA_SIZE && !(dst <= k < dst + size) ==> heap.bytes[k] == old(heap.bytes[k])
    {
      ghost var source := BytesAt(heap.bytes[..], src, size);
      var i := 0;
      while i < size
        invariant 0 <= i <= size
        invariant forall k :: 0 <= k < i ==> heap.bytes[dst+k] == source[k]
        invariant forall k :: 0 <= k < H.ARENA_SIZE && !(dst <= k < dst + i) ==> heap.bytes[k] == old(heap.bytes[k])
      {
        heap.bytes[dst+i] := if src.Const? then src.bytes[i] else heap.bytes[src.at+i];
        i := i + 1;
      }
    }

    /** clks_fs_build_file_payload */
    method BuildPayload(data: Ptr, size: nat) returns (ok: bool, payload: Ptr, owned: bool)
      requires heap.Valid() && size < U64 && Readable(data, size)
      modifies heap, heap.bytes
      ensures heap.Valid() && heap.bytes == old(heap.bytes)
      ensures H.Kept(old(Live()), old(heap.bytes[..]), heap.bytes[..])
      ensures !ok ==> heap.blocks == old(heap.blocks)
      ensures ok <==> size == 0 || (data != Nil && H.Malloc(old(heap.blocks), size).1 != None)
      ensures ok ==> BytesAt(heap.bytes[..], payload, size) == old(BytesAt(heap.bytes[..], data, size))
      ensures ok && !owned ==> payload == Const([0]) && size == 0 && heap.blocks == old(heap.blocks)
      ensures ok && owned ==> payload.InHeap? && 0 < size && data != Nil && H.Handed(old(Live()), Live(), payload.at, size)
      ensures ok && owned ==> H.Malloc(old(heap.blocks), size) == (heap.blocks, Some(payload.at))
    {
      hide H.Live, H.Malloc, H.AlignUp, H.Kept, H.Ok, H.Arena.Valid;
      HeapOk();
      H.KeptSame(Live(), heap.bytes[..]);
      if size == 0 {
        return true, Const([0]), false;
      }
      if data == Nil {
        return false, Nil, false;
      }
      ghost var was, before := Live(), heap.bytes[..];
      ghost var p :| data.InHeap? ==> p in Live() && p <= data.at && data.at + size <= p + Live()[p];
      if data.InHeap? { H.Apart(heap.blocks, p, p); }
      var q := heap.Kmalloc(size);
      if q == H.NULL {
        return false, Nil, false;
      }
      ghost var middle := heap.bytes[..];
      HeapOk();
      if data.InHeap? {
        H.Apart(heap.blocks, p, q);
        H.KeptSlice(was, before, middle, p, data.at, size);
      }
      assert BytesAt(middle, data, size) == BytesAt(before, data, size);
      CopyIn(q, data, size);
      H.FillKeeps(heap.blocks, was, q, size, before, middle, heap.bytes[..]);
      return true, InHeap(q), true;
    }

    lemma HeapOk()
      requires heap.Valid()
      ensures H.Ok(heap.blocks) && heap.bytes.Length == H.ARENA_SIZE
    {
    }

    /** Heap blocks that are live and do not belong to the file system. */
    ghost function Foreign(): map<int, nat>
      reads this, nodes, heap
      requires nodesUsed <= nodes.Length
    {
      Live() - Owned(Table())
    }

    /** clks_fs_node_release_heap_data and the clearing of the ownership flag */
    method ReleaseData(i: nat)
      requires nodes.Length == MAX_NODES && i < nodesUsed <= nodes.Length && heap.Valid() && DataOk(nodes[i], Live())
      modifies nodes, heap, heap.bytes
      ensures heap.Valid() && heap.bytes == old(heap.bytes)
      ensures Table() == old(Table())[i := old(nodes[i]).(ownsData := false)]
      ensures Live() == old(Live()) - (if old(nodes[i]).ownsData then {At(old(nodes[i]))} else {})
      ensures H.Kept(Live(), old(heap.bytes[..]), heap.bytes[..])
    {
      hide H.Live, H.Linked, H.Ok;
      if nodes[i].kind != FileNode {
        return;
      }
      if nodes[i].ownsData && nodes[i].data != Nil {
        heap.Kfree(nodes[i].data.at);
      }
      nodes[i] := nodes[i].(ownsData := false);
    }

    /** clks_kfree of a block that does not belong to the file system */
    method FreeForeign(p: int)
      requires Valid() && p in Foreign()
      modifies heap, heap.bytes
      ensures Valid() && heap.bytes == old(heap.bytes)
      ensures Files() == old(Files()) && Foreign() == old(Foreign()) - {p}
      ensures H.Legal(old(heap.blocks), H.Release(p)) && heap.blocks == H.Apply(old(heap.blocks), H.Release(p))
      ensures H.Kept(Foreign(), old(heap.bytes[..]), heap.bytes[..])
    {
      hide View, H.Live, H.Linked, H.Ok, Sound, H.Kept, Owned;
      ghost var ns, mem, live := Table(), heap.bytes[..], Live();
      heap.Kfree(p);
      WithoutBlock(ns, p, live, mem, heap.bytes[..]);
      H.KeptFewer(Live(), Foreign(), mem, heap.bytes[..]);
    }

    /** The last part of clks_fs_write_all for a file that is there: its payload goes, and the
        node takes over the one that was built. */
    method CommitOver(p: string, parent: nat, existing: nat, payload: Ptr, size: nat, owned: bool)
      requires Valid() && Storable(Table(), Stored(p, parent, payload, size, owned), Live())
      requires existing == Find(Table(), p) && existing < nodesUsed && nodes[existing].kind == FileNode
      modifies this`nodesUsed, nodes, heap, heap.bytes
      ensures Valid() && heap.bytes == old(heap.bytes)
      ensures Files() == old(Files())[p := File(old(BytesAt(heap.bytes[..], payload, size)))]
      ensures Foreign() == old(Foreign()) - (if owned then {payload.at} else {})
      ensures H.Kept(Foreign(), old(heap.bytes[..]), heap.bytes[..])
    {
      hide View, Put, Find, Parent, H.Live, H.Linked, H.Ok, Sound, DataOk, H.Kept, Owned, Storable;
      ghost var ns, mem, live := Table(), heap.bytes[..], Live();
      ghost var node := Stored(p, parent, payload, size, owned);
      CommitFacts(ns, node, existing, live);
      PutStored(ns, live, p, parent, payload, size, existing);
      ReleaseData(existing);
      StoreExisting(ns, existing, node, live, Live(), mem, heap.bytes[..]);
      var index := CreateOrUpdate(p, FileNode, parent, payload, size);
      nodes[index] := nodes[index].(ownsData := owned);
      assert Table() == ns[existing := node];
      H.KeptFewer(Live(), Foreign(), mem, heap.bytes[..]);
    }

    /** The last part of clks_fs_write_all for a new file; without a free node the payload that
        was built is released again. */
    method CommitNew(p: string, parent: nat, payload: Ptr, size: nat, owned: bool) returns (ok: bool)
      requires Valid() && Storable(Table(), Stored(p, parent, payload, size, owned), Live())
      requires Find(Table(), p) == nodesUsed
      modifies this`nodesUsed, nodes, heap, heap.bytes
      ensures Valid() && heap.bytes == old(heap.bytes)
      ensures ok ==> Files() == old(Files())[p := File(old(BytesAt(heap.bytes[..], payload, size)))]
      ensures !ok ==> Files() == old(Files()) && Full(Table()) && p !in Files()
      ensures !ok && !owned ==> heap.blocks == old(heap.blocks)
      ensures !ok && owned ==> H.Legal(old(heap.blocks), H.Release(payload.at))
                               && heap.blocks == H.Apply(old(heap.blocks), H.Release(payload.at))
      ensures Foreign() == old(Foreign()) - (if owned then {payload.at} else {})
      ensures H.Kept(Foreign(), old(heap.bytes[..]), heap.bytes[..])
    {
      hide AddAt, View, Put, Find, Parent, H.Live, H.Linked, H.Ok, Sound, DataOk, H.Kept, Owned, Storable;
      ghost var ns, mem, live := Table(), heap.bytes[..], Live();
      ghost var node := Stored(p, parent, payload, size, owned);
      ViewFind(ns, mem, p);
      CommitFacts(ns, node, -1, live);
      PutStored(ns, live, p, parent, payload, size, -1);
      ghost var s := FreeSlot(ns);
      var index := CreateOrUpdate(p, FileNode, parent, payload, size);
      if index < 0 {
        assert Table() == ns;
        H.KeptSame(Foreign(), mem);
        if owned {
          FreeForeign(payload.at);
        }
        return false;
      }
      AddAtThen(ns, s, Made(p, FileNode, parent, payload, size), node);
      ghost var added := Table();
      nodes[index] := nodes[index].(ownsData := owned);
      assert Table() == added[s := node];
      StoreNew(ns, node, live, mem);
      H.KeptSame(Foreign(), mem);
      assert heap.bytes[..] == mem;
      return true;
    }

    lemma CommitFacts(ns: seq<Node>, n: Node, existing: int, live: map<int, nat>)
      requires Sound(ns, live) && Storable(ns, n, live)
      requires existing == if Find(ns, n.path) < |ns| then Find(ns, n.path) else -1
      ensures |n.path| < PATH_MAX && EntryOf(n, []).File?
      ensures existing >= 0 ==> ns[existing].used && ns[existing].path == n.path && DataOk(ns[existing], live)
      ensures n.ownsData ==> n.data.InHeap? && n.data.at in live && n.data.at !in Owned(ns)
    {
    }

    /** Builds the payload while the table stays as it is. */
    method Prepare(data: Ptr, size: nat) returns (ok: bool, payload: Ptr, owned: bool)
      requires Valid() && size < U64 && Readable(data, size)
      modifies heap, heap.bytes
      ensures Valid() && heap.bytes == old(heap.bytes) && Files() == old(Files())
      ensures H.Kept(old(Foreign()), old(heap.bytes[..]), heap.bytes[..])
      ensures !ok ==> heap.blocks == old(heap.blocks)
      ensures ok <==> size == 0 || (data != Nil && H.Malloc(old(heap.blocks), size).1 != None)
      ensures ok ==> BytesAt(heap.bytes[..], payload, size) == old(BytesAt(heap.bytes[..], data, size))
      ensures ok && !owned ==> Foreign() == old(Foreign())
      ensures ok && owned ==> payload.InHeap? && payload.at !in old(Foreign()) && payload.at in Foreign()
                              && Foreign() == old(Foreign())[payload.at := Foreign()[payload.at]]
                              && H.Malloc(old(heap.blocks), size) == (heap.blocks, Some(payload.at))
      ensures ok && !owned ==> heap.blocks == old(heap.blocks)
      ensures ok ==> forall q, parent :: DataOk(Stored(q, parent, payload, size, owned), Live())
    {
      hide View, H.Live, H.Linked, H.Ok, Sound, H.Kept, Owned, H.Malloc, H.AlignUp;
      ghost var ns, mem, live := Table(), heap.bytes[..], Live();
      ReadableSize(data, size);
      ok, payload, owned := BuildPayload(data, size);
      if ok && owned {
        WithBlock(ns, payload.at, live, Live(), mem, heap.bytes[..]);
      } else {
        KeptView(ns, live, mem, heap.bytes[..]);
      }
      H.KeptFewer(live, live - Owned(ns), mem, heap.bytes[..]);
    }

    lemma ReadableSize(data: Ptr, size: nat)
      requires heap.Valid() && Readable(data, size)
      ensures data == Nil || size <= MAX_OBJECT
    {
      if data.InHeap? {
        var p :| p in Live() && p <= data.at && data.at + size <= p + Live()[p];
        H.Apart(heap.blocks, p, p);
      }
    }

    /** The part of clks_fs_write_all after the directories above the file are there. */
    method Store(p: string, parent: nat, existing: int, data: Ptr, size: nat) returns (ok: bool)
      requires Valid() && size < U64 && Readable(data, size) && p != "" && |p| < PATH_MAX
      requires parent < nodesUsed && nodes[parent].used && nodes[parent].kind == DirNode && nodes[parent].path == Parent(p)
      requires existing == if Find(Table(), p) < nodesUsed then Find(Table(), p) else -1
      requires existing >= 0 ==> nodes[existing].kind == FileNode
      modifies this`nodesUsed, nodes, heap, heap.bytes
      ensures Valid() && heap.bytes == old(heap.bytes)
      ensures Foreign() == old(Foreign()) && H.Kept(Foreign(), old(heap.bytes[..]), heap.bytes[..])
      ensures ok ==> Files() == old(Files())[p := File(old(BytesAt(heap.bytes[..], data, size)))]
      ensures !ok ==> Files() == old(Files()) && heap.blocks == old(heap.blocks)
      ensures ok ==> size == 0 || (data != Nil && H.Malloc(old(heap.blocks), size).1 != None)
      ensures !ok ==> (data == Nil && size > 0) || (Full(Table()) && p !in Files()) || (size > 0 && H.Malloc(old(heap.blocks), size).1 == None)
    {
      hide View, Find, Parent, H.Live, H.Linked, H.Ok, Sound, H.Kept, Owned, H.Malloc, H.AlignUp, H.Apply, H.Legal, DataOk, Full;
      ghost var foreign, before, bs := Foreign(), heap.bytes[..], heap.blocks;
      var built, payload, owned := Prepare(data, size);
      if !built {
        H.KeptSame(foreign, before);
        return false;
      }
      ghost var middle := heap.bytes[..];
      if existing >= 0 {
        CommitOver(p, parent, existing, payload, size, owned);
        ok := true;
      } else {
        ok := CommitNew(p, parent, payload, size, owned);
        if !ok && owned { H.ReleaseUndoesAllocate(bs, size); }
      }
      assert Foreign() == foreign;
      H.KeptTwice(foreign, before, middle, heap.bytes[..]);
    }

    /** What a write to file `p` needs: data, no file among its directories and no directory in its
        place, nodes for what is missing, and a block for the payload. */
    static ghost predicate CanWrite(t: Tree, bs: seq<H.Block>, p: string, data: Ptr, size: nat)
      requires size < U64
    {
      && !FileOnTheWay(t, Parent(p)) && !(p in t && t[p] == Dir) && Room(t, p)
      && (size == 0 || (data != Nil && H.Malloc(bs, size).1 != None))
    }

    /** The part of clks_fs_write_all for a file with the internal path `p` */
    method Place(p: string, data: Ptr, size: nat) returns (ok: bool)
      requires Valid() && size < U64 && Readable(data, size)
      requires |p| < PATH_MAX && p != "" && p[|p|-1] != '/' && InTemp(Parent(p)) && PlainText(Parent(p))
      requires Parent(p)[|Parent(p)|-1] != '/'
      modifies this`nodesUsed, nodes, heap, heap.bytes
      ensures Valid() && heap.bytes == old(heap.bytes)
      ensures Foreign() == old(Foreign()) && H.Kept(Foreign(), old(heap.bytes[..]), heap.bytes[..])
      ensures ok <==> CanWrite(old(Files()), old(heap.blocks), p, data, size)
      ensures ok ==> Written(old(Files()), Files(), p, old(BytesAt(heap.bytes[..], data, size)))
      ensures !ok ==> GrownByDirs(old(Files()), Files(), Parent(p)) && heap.blocks == old(heap.blocks)
    {
      hide View, NormalPath, Find, Parent, H.Live, H.Linked, H.Ok, Sound, H.Kept, Owned, H.Malloc, H.AlignUp, GrownByDirs,
           FileOnTheWay, Written, DataOk, Room, Stuck, Full, PlainText;
      H.KeptSame(Foreign(), heap.bytes[..]);
      GrowNone(Files(), Parent(p));
      var parent := SplitParent(p, PATH_MAX);
      if parent.None? || !InTemp(parent.value) {
        assert false;
      }
      ghost var source := BytesAt(heap.bytes[..], data, size);
      ghost var was := Files();
      var dirs := EnsureDirs(parent.value);
      if !dirs {
        if Stuck(Table(), Files(), Parent(p)) { StuckHadNoRoom(Table(), Live(), heap.bytes[..], was, p); }
        return false;
      }
      var parentIndex := FindNode(parent.value);
      ViewFind(Table(), heap.bytes[..], parent.value);
      if parentIndex < 0 || nodes[parentIndex].kind != DirNode {
        assert false;
      }
      var nodeIndex := FindNode(p);
      GrownEntry(was, Files(), Parent(p), p);
      if nodeIndex >= 0 && nodes[nodeIndex].kind != FileNode {
        FileThere(Table(), heap.bytes[..], p, nodeIndex);
        return false;
      }
      ViewFind(Table(), heap.bytes[..], p);
      WrittenAfter(was, Files(), p, source);
      ok := Store(p, parentIndex, nodeIndex, data, size);
      if ok {
        WriteHadRoom(Table(), Live(), heap.bytes[..], was, p, source);
      } else if Full(Table()) && p !in Files() {
        StuckHadNoRoom(Table(), Live(), heap.bytes[..], was, p);
      }
    }

    /** clks_fs_write_all */
    method WriteAll(path: string, data: Ptr, size: nat) returns (ok: bool)
      requires Valid() && size < U64 && Readable(data, size)
      modifies this`nodesUsed, nodes, heap, heap.bytes
      ensures Valid() && heap.bytes == old(heap.bytes)
      ensures Foreign() == old(Foreign()) && H.Kept(Foreign(), old(heap.bytes[..]), heap.bytes[..])
      ensures ok <==> ready && CanName(path) && CanWrite(old(Files()), old(heap.blocks), NameOf(path), data, size)
      ensures ok ==> Written(old(Files()), Files(), NameOf(path), old(BytesAt(heap.bytes[..], data, size)))
      ensures !ok ==> if ready && CanName(path) then GrownByDirs(old(Files()), Files(), Parent(NameOf(path)))
                      else Files() == old(Files())
      ensures !ok ==> heap.blocks == old(heap.blocks)
    {
      hide View, NormalPath, Find, Parent, H.Live, H.Linked, H.Ok, Sound, H.Kept, Owned, H.Malloc, H.AlignUp, GrownByDirs,
           Written, DataOk, CanWrite;
      H.KeptSame(Foreign(), heap.bytes[..]);
      if !ready {
        return false;
      }
      var internal := Normalize(path, PATH_MAX);
      if internal.None? || !IsTempFile(internal.value) {
        return false;
      }
      NormalFits(path);
      TempFileParent(path, internal.value);
      ok := Place(internal.value, data, size);
    }

    /** clks_fs_read_all: where the bytes of a file are, if there is one at `path` */
    method ReadAll(path: string) returns (r: Option<(Ptr, nat)>)
      requires Valid()
      ensures r.Some? <==> ready && EntryAt(path).Some? && EntryAt(path).value.File?
      ensures r.Some? ==> Readable(r.value.0, r.value.1) && r.value.1 <= MAX_OBJECT && r.value.0 != Nil
      ensures r.Some? ==> EntryAt(path) == Some(File(BytesAt(heap.bytes[..], r.value.0, r.value.1)))
      ensures r.Some? ==> |EntryAt(path).value.bytes| == r.value.1
    {
      hide View, NormalPath, H.Live, H.Linked, H.Ok;
      if !ready {
        return None;
      }
      var internal := Normalize(path, PATH_MAX);
      if internal.None? {
        return None;
      }
      var index := FindNode(internal.value);
      ViewFind(Table(), heap.bytes[..], internal.value);
      if index < 0 || nodes[index].kind != FileNode {
        return None;
      }
      ReadableNode(index);
      if nodes[index].size == 0 {
        return Some((Const([0]), 0));
      }
      return Some((nodes[index].data, nodes[index].size));
    }

    /** clks_fs_stat: the kind and size of the entry at `path` */
    method Stat(path: string) returns (r: Option<(Kind, nat)>)
      requires Valid()
      ensures r.Some? <==> ready && EntryAt(path).Some?
      ensures r.Some? ==> (r.value.0 == DirNode <==> EntryAt(path).value == Dir)
      ensures r.Some? && EntryAt(path).value.File? ==> r.value.1 == |EntryAt(path).value.bytes| <= MAX_OBJECT
    {
      hide View, NormalPath, H.Live, H.Linked;
      if !ready {
        return None;
      }
      var internal := Normalize(path, PATH_MAX);
      if internal.None? {
        return None;
      }
      var index := FindNode(internal.value);
      ViewFind(Table(), heap.bytes[..], internal.value);
      if index < 0 {
        return None;
      }
      if nodes[index].kind == FileNode { ReadableNode(index); }
      return Some((nodes[index].kind, nodes[index].size));
    }

    lemma ReadableNode(i: nat)
      requires Valid() && i < nodesUsed && nodes[i].used && nodes[i].kind == FileNode
      ensures |BytesAt(heap.bytes[..], nodes[i].data, nodes[i].size)| == nodes[i].size
      ensures Readable(nodes[i].data, nodes[i].size) && nodes[i].size <= MAX_OBJECT && nodes[i].data != Nil
    {
      hide H.Live, H.Linked, H.Ok;
      assert DataOk(Table()[i], Live());
      if nodes[i].ownsData { H.Apart(heap.blocks, nodes[i].data.at, nodes[i].data.at); }
    }

    /** clks_fs_mkdir */
    method Mkdir(path: string) returns (ok: bool)
      requires Valid()
      modifies this`nodesUsed, nodes
      ensures Valid() && Foreign() == old(Foreign())
      ensures ok ==> ready && InReach(path) && EntryAt(path) == Some(Dir)
      ensures if ready && InReach(path) then GrownByDirs(old(Files()), Files(), NameOf(path)) else Files() == old(Files())
      ensures ok <==> ready && InReach(path) && !FileOnTheWay(old(Files()), NameOf(path)) && Room(old(Files()), NameOf(path))
    {
      hide View, NormalPath, Find, H.Live, H.Linked, H.Ok, Sound, Owned, GrownByDirs, FileOnTheWay, Room, Stuck, Full;
      if !ready {
        return false;
      }
      var internal := Normalize(path, PATH_MAX);
      if internal.None? || !InTemp(internal.value) {
        return false;
      }
      var p := internal.value;
      TempPath(path, p);
      ghost var was := Files();
      ok := EnsureDirs(p);
      if !ok {
        if Stuck(Table(), Files(), p) { StuckInReach(Table(), Live(), heap.bytes[..], was, p); }
        return;
      }
      var index := FindNode(p);
      ViewFind(Table(), heap.bytes[..], p);
      if index < 0 {
        assert false;
      }
      DirHadRoom(Table(), Live(), heap.bytes[..], was, p);
      return nodes[index].kind == DirNode;
    }

    // ----- heap blocks that callers use beside the file system -----

    /** clks_kmalloc for a caller of the file system */
    method Acquire(size: nat) returns (p: int)
      requires Valid() && size <= 2 * MAX_OBJECT
      modifies heap, heap.bytes
      ensures Valid() && heap.bytes == old(heap.bytes) && Files() == old(Files())
      ensures H.Kept(old(Live()), old(heap.bytes[..]), heap.bytes[..])
      ensures p == H.NULL ==> heap.blocks == old(heap.blocks) && H.Malloc(old(heap.blocks), size).1 == None
      ensures p != H.NULL ==> H.Malloc(old(heap.blocks), size) == (heap.blocks, Some(p))
      ensures p != H.NULL ==>
                && p !in old(Live()) && p in Foreign() && Foreign()[p] >= size && H.Handed(old(Live()), Live(), p, size)
                && Foreign() == old(Foreign())[p := Foreign()[p]]
    {
      hide View, H.Live, H.Linked, H.Ok, Sound, H.Kept, Owned, H.Malloc, H.AlignUp;
      ghost var ns, mem, live := Table(), heap.bytes[..], Live();
      p := heap.Kmalloc(size);
      if p != H.NULL {
        WithBlock(ns, p, live, Live(), mem, heap.bytes[..]);
      } else {
        KeptView(ns, live, mem, heap.bytes[..]);
      }
    }

    /** A source that a copy into block `p` does not touch. */
    ghost predicate ReadableBeside(p: int, src: Ptr, n: nat)
      reads heap
    {
      match src
      case Nil => false
      case Const(bs) => n <= |bs| <= MAX_OBJECT
      case InHeap(a) => exists q :: q in Live() && q != p && q <= a && a + n <= q + Live()[q]
    }

    lemma FilledBytes(mem: seq<byte>, now: seq<byte>, p: nat, off: nat, src: Ptr, n: nat)
      requires |mem| == |now| && p + off + n <= |mem|
      requires now[p+off..p+off+n] == BytesAt(mem, src, n)
      requires forall k :: 0 <= k < |mem| && !(p + off <= k < p + off + n) ==> now[k] == mem[k]
      ensures BytesAt(now, InHeap(p), off + n) == BytesAt(mem, InHeap(p), off) + BytesAt(mem, src, n)
    {
      TwoSlices(now, p, off, n);
      SameSlice(mem, now, p, off);
    }

    lemma TwoSlices(xs: seq<byte>, p: nat, off: nat, n: nat)
      requires p + off + n <= |xs|
      ensures xs[p..p+off+n] == xs[p..p+off] + xs[p+off..p+off+n]
    {
    }

    lemma SameSlice(xs: seq<byte>, ys: seq<byte>, p: nat, n: nat)
      requires p + n <= |xs| == |ys| && forall k :: p <= k < p + n ==> xs[k] == ys[k]
      ensures xs[p..p+n] == ys[p..p+n]
    {
    }

    /** clks_memcpy into a block that does not belong to the file system */
    method Fill(p: int, off: nat, src: Ptr, n: nat)
      requires Valid() && p in Foreign() && off + n <= Foreign()[p] && ReadableBeside(p, src, n)
      modifies heap.bytes
      ensures Valid() && Files() == old(Files())
      ensures 0 <= p && p + Foreign()[p] <= H.ARENA_SIZE
      ensures BytesAt(heap.bytes[..], InHeap(p), off + n)
           == old(BytesAt(heap.bytes[..], InHeap(p), off)) + old(BytesAt(heap.bytes[..], src, n))
      ensures forall k :: 0 <= k < H.ARENA_SIZE && !(p + off <= k < p + off + n) ==> heap.bytes[k] == old(heap.bytes[k])
      ensures H.Kept(Live() - {p}, old(heap.bytes[..]), heap.bytes[..])
    {
      hide View, H.Live, H.Arena.Valid, H.Ok, Sound, Owned, H.Kept, BytesAt;
      HeapOk();
      ghost var ns, mem, live := Table(), heap.bytes[..], Live();
      H.Apart(heap.blocks, p, p);
      if src.InHeap? {
        ghost var q :| q in live && q != p && q <= src.at && src.at + n <= q + live[q];
        H.Apart(heap.blocks, p, q);
      }
      CopyIn(p + off, src, n);
      ghost var now := heap.bytes[..];
      FilledBytes(mem, now, p, off, src, n);
      FilledView(ns, heap.blocks, live, p, mem, now);
      H.KeptSame(live - {p}, mem);
      H.FillKeeps(heap.blocks, live - {p}, p, live[p], mem, mem, now);
    }

    /** A source that was readable is readable beside a block that was handed out since, and
        holds the same bytes. */
    lemma StillReadable(live: map<int, nat>, p: int, src: Ptr, n: nat, before: seq<byte>)
      requires heap.Valid() && p in Live() && live == Live() - {p}
      requires H.Kept(live, before, heap.bytes[..]) && src != Nil && ReadableIn(live, src, n)
      ensures ReadableBeside(p, src, n)
      ensures BytesAt(heap.bytes[..], src, n) == BytesAt(before, src, n)
    {
    }

    /** One of the copies that fill block `m`, whose source was there when it was allocated. */
    method CopyPart(m: int, off: nat, src: Ptr, n: nat, ghost live: map<int, nat>, ghost before: seq<byte>)
      requires Valid() && m in Foreign() && off + n <= Foreign()[m] && live == Live() - {m}
      requires H.Kept(live, before, heap.bytes[..]) && ReadableIn(live, src, n) && (n > 0 ==> src != Nil)
      modifies heap.bytes
      ensures Valid() && Files() == old(Files())
      ensures H.Kept(live, before, heap.bytes[..])
      ensures BytesAt(heap.bytes[..], InHeap(m), off + n)
           == old(BytesAt(heap.bytes[..], InHeap(m), off)) + BytesAt(before, src, n)
      ensures 0 <= m && m + Foreign()[m] <= H.ARENA_SIZE
      ensures forall k :: 0 <= k < H.ARENA_SIZE && !(m + off <= k < m + off + n) ==> heap.bytes[k] == old(heap.bytes[k])
    {
      hide View, H.Live, H.Ok, H.Arena.Valid, Sound, H.Kept, Owned, ReadableIn;
      HeapOk();
      if n == 0 {
        H.Apart(heap.blocks, m, m);
        assert BytesAt(before, src, 0) == [];
        return;
      }
      StillReadable(live, m, src, n, before);
      ghost var middle := heap.bytes[..];
      Fill(m, off, src, n);
      H.KeptTwice(live, before, middle, heap.bytes[..]);
    }

    lemma NoBytes(mem: seq<byte>, p: Ptr)
      ensures BytesAt(mem, p, 0) == []
    {
    }

    lemma ReadableBlock(m: int, n: nat)
      requires m in Live() && n <= Live()[m]
      ensures Readable(InHeap(m), n)
    {
    }

    // ----- append -----

    /** A new block with the bytes of `a` and then those of `b`, or NULL. */
    method Merge(a: Ptr, an: nat, b: Ptr, bn: nat) returns (m: int)
      requires Valid() && Readable(a, an) && Readable(b, bn)
      requires (an > 0 ==> a != Nil) && (bn > 0 ==> b != Nil) && an <= MAX_OBJECT && bn <= MAX_OBJECT
      modifies heap, heap.bytes
      ensures Valid() && heap.bytes == old(heap.bytes) && Files() == old(Files())
      ensures H.Kept(old(Live()), old(heap.bytes[..]), heap.bytes[..])
      ensures m == H.NULL ==> heap.blocks == old(heap.blocks) && H.Malloc(old(heap.blocks), an + bn).1 == None
      ensures m != H.NULL ==> m !in old(Foreign()) && m in Foreign() && Readable(InHeap(m), an + bn)
      ensures m != H.NULL ==> Foreign() == old(Foreign())[m := Foreign()[m]]
      ensures m != H.NULL ==> H.Malloc(old(heap.blocks), an + bn) == (heap.blocks, Some(m))
      ensures m != H.NULL ==> (BytesAt(heap.bytes[..], InHeap(m), an + bn)
                               == old(BytesAt(heap.bytes[..], a, an)) + old(BytesAt(heap.bytes[..], b, bn)))
    {
      hide View, H.Live, H.Linked, H.Ok, Sound, H.Kept, Owned, H.Malloc, H.AlignUp, ReadableIn, BytesAt, Valid, H.Arena.Valid;
      ghost var live, before := Live(), heap.bytes[..];
      m := Acquire(an + bn);
      if m == H.NULL {
        return;
      }
      assert Live() - {m} == live;
      NoBytes(heap.bytes[..], InHeap(m));
      CopyPart(m, 0, a, an, live, before);
      CopyPart(m, an, b, bn, live, before);
      ReadableBlock(m, an + bn);
    }

    /** The bytes of the file at `path`, none when there is no file. */
    ghost function BytesOf(path: string): seq<byte>
      reads this, nodes, heap, heap.bytes
      requires nodesUsed <= nodes.Length
    {
      match EntryAt(path)
      case Some(File(bs)) => bs
      case _ => []
    }

    /** The heap can hold a merged copy and then the payload that is made from it. */
    static ghost predicate FitsTwice(bs: seq<H.Block>, n: nat) {
      n == 0 || (n < U64 && H.FitTwo(bs, n))
    }

    /** What an append to file `p` needs: what a write needs when the file is not there. */
    static ghost predicate CanAppend(t: Tree, bs: seq<H.Block>, p: string, data: Ptr, size: nat)
      requires size < U64
    {
      if p in t && t[p].File? then (size == 0 || data != Nil) && FitsTwice(bs, |t[p].bytes| + size)
      else CanWrite(t, bs, p, data, size)
    }

    /** A file that is there has its node, and only directories above it. */
    lemma ThereCanWrite(p: string)
      requires Valid() && p in Files() && Files()[p].File? && Parent(p) != ""
      ensures Room(Files(), p) && !FileOnTheWay(Files(), Parent(p))
    {
      hide View, Parent, Sound, Room;
      HadRoom(Table(), Live(), heap.bytes[..], Files(), p);
      if FileOnTheWay(Files(), Parent(p)) {
        var q :| q in Files() && Files()[q].File? && OnTheWay(q, Parent(p));
        WayUp(q, p);
      }
    }

    lemma NamedCanWrite(path: string)
      requires Valid() && CanName(path) && EntryAt(path).Some? && EntryAt(path).value.File?
      ensures Room(Files(), NameOf(path)) && !FileOnTheWay(Files(), Parent(NameOf(path)))
      ensures NameOf(path) in Files() && Files()[NameOf(path)].File?
    {
      hide View, NormalPath, Parent, Room, Sound;
      TempFileParent(path, NameOf(path));
      ThereCanWrite(NameOf(path));
    }

    /** The part of clks_fs_append for a file that is there. */
    method AppendTo(path: string, was: Ptr, wasSize: nat, data: Ptr, size: nat) returns (ok: bool)
      requires Valid() && Readable(was, wasSize) && Readable(data, size)
      requires (wasSize > 0 ==> was != Nil) && (size > 0 ==> data != Nil) && wasSize <= MAX_OBJECT && size <= MAX_OBJECT
      requires ready && CanName(path) && NameOf(path) in Files() && Files()[NameOf(path)].File?
      modifies this`nodesUsed, nodes, heap, heap.bytes
      ensures Valid() && heap.bytes == old(heap.bytes)
      ensures Foreign() == old(Foreign()) && H.Kept(Foreign(), old(heap.bytes[..]), heap.bytes[..])
      ensures ok <==> FitsTwice(old(heap.blocks), wasSize + size)
      ensures ok ==> Written(old(Files()), Files(), NameOf(path),
                             old(BytesAt(heap.bytes[..], was, wasSize)) + old(BytesAt(heap.bytes[..], data, size)))
      ensures !ok ==> GrownByDirs(old(Files()), Files(), Parent(NameOf(path))) && heap.blocks == old(heap.blocks)
    {
      hide View, H.Live, H.Linked, H.Ok, Sound, H.Kept, Owned, H.Malloc, H.AlignUp, ReadableIn, BytesAt,
           H.Arena.Valid, Written, GrownByDirs, NormalPath, Parent, Room, FileOnTheWay;
      ghost var foreign, before, bs := Foreign(), heap.bytes[..], heap.blocks;
      ghost var p := NameOf(path);
      TempFileParent(path, p);
      GrowNone(Files(), Parent(p));
      ThereCanWrite(p);
      H.KeptSame(foreign, before);
      HeapOk();
      if wasSize > U64 - 1 - size {
        return false;
      }
      if wasSize + size == 0 {
        NoBytes(before, was);
        NoBytes(before, data);
        NoBytes(before, Const([0]));
        assert BytesAt(before, was, 0) + BytesAt(before, data, 0) == [];
        EmptyReadable();
        ok := WriteAll(path, Const([0]), 0);
        return;
      }
      var merged := Merge(was, wasSize, data, size);
      H.KeptFewer(old(Live()), foreign, before, heap.bytes[..]);
      if merged == H.NULL {
        return false;
      }
      ghost var more, middle := Foreign(), heap.bytes[..];
      ok := WriteAll(path, InHeap(merged), wasSize + size);
      ghost var later := heap.bytes[..];
      if !ok { H.ReleaseUndoesAllocate(bs, wasSize + size); }
      FreeForeign(merged);
      assert Foreign() == foreign;
      H.KeptFewer(more, foreign, middle, later);
      H.KeptTwice(foreign, before, middle, later);
      H.KeptTwice(foreign, before, later, heap.bytes[..]);
    }

    lemma EmptyReadable()
      ensures Readable(Const([0]), 0)
    {
    }

    /** clks_fs_append */
    method Append(path: string, data: Ptr, size: nat) returns (ok: bool)
      requires Valid() && size < U64 && Readable(data, size)
      modifies this`nodesUsed, nodes, heap, heap.bytes
      ensures Valid() && heap.bytes == old(heap.bytes)
      ensures Foreign() == old(Foreign()) && H.Kept(Foreign(), old(heap.bytes[..]), heap.bytes[..])
      ensures ok <==> ready && CanName(path) && CanAppend(old(Files()), old(heap.blocks), NameOf(path), data, size)
      ensures ok ==> Written(old(Files()), Files(), NameOf(path),
                             old(BytesOf(path)) + old(BytesAt(heap.bytes[..], data, size)))
      ensures !ok ==> if ready && CanName(path) then GrownByDirs(old(Files()), Files(), Parent(NameOf(path)))
                      else Files() == old(Files())
      ensures !ok ==> heap.blocks == old(heap.blocks)
    {
      hide View, NormalPath, Find, H.Live, H.Linked, H.Ok, Sound, H.Kept, Owned, H.Malloc, H.AlignUp, ReadableIn, BytesAt,
           H.Arena.Valid, Written, GrownByDirs, Parent, Room, FileOnTheWay, FitsTwice;
      ghost var before := heap.bytes[..];
      H.KeptSame(Foreign(), before);
      if CanName(path) { GrowNone(Files(), Parent(NameOf(path))); }
      if !ready {
        return false;
      }
      if size > 0 && data == Nil {
        return false;
      }
      var internal := Normalize(path, PATH_MAX);
      if internal.None? || !IsTempFile(internal.value) {
        return false;
      }
      var index := FindNode(internal.value);
      ViewFind(Table(), before, internal.value);
      if index < 0 {
        assert [] + BytesAt(before, data, size) == BytesAt(before, data, size);
        ok := WriteAll(path, data, size);
        return;
      }
      if nodes[index].kind != FileNode {
        return false;
      }
      ReadableNode(index);
      ReadableSize(data, size);
      ok := AppendTo(path, nodes[index].data, nodes[index].size, data, size);
    }

    /** The last part of clks_fs_remove: the payload goes, and the slot is free again. */
    method Unlink(index: nat)
      requires Valid() && 0 < index < nodesUsed && nodes[index].used && DataOk(nodes[index], Live())
      requires forall k :: 0 <= k < nodesUsed && nodes[k].used ==> nodes[k].parent != index
      modifies nodes, heap, heap.bytes
      ensures Valid() && heap.bytes == old(heap.bytes)
      ensures Foreign() == old(Foreign()) && H.Kept(Foreign(), old(heap.bytes[..]), heap.bytes[..])
      ensures Files() == old(Files()) - {old(nodes[index].path)}
    {
      hide View, H.Live, H.Linked, H.Ok, Sound, H.Kept, Owned, H.Arena.Valid, DataOk;
      ghost var ns, live, before := Table(), Live(), heap.bytes[..];
      ReleaseData(index);
      RemoveNode(ns, index, live, Live(), before, heap.bytes[..]);
      nodes[index] := nodes[index].(used := false, kind := FileNode, parent := 0, data := Nil, size := 0, path := "");
      assert Table() == ns[index := UNUSED];
      H.KeptFewer(Live(), Foreign(), before, heap.bytes[..]);
    }

    /** clks_fs_remove */
    method Remove(path: string) returns (ok: bool)
      requires Valid()
      modifies nodes, heap, heap.bytes
      ensures Valid() && heap.bytes == old(heap.bytes)
      ensures Foreign() == old(Foreign()) && H.Kept(Foreign(), old(heap.bytes[..]), heap.bytes[..])
      ensures ok <==> old(ready && InReach(path) && NameOf(path) != "temp" && EntryAt(path).Some?
                      && (EntryAt(path) == Some(Dir) ==> !HasChild(Files(), NameOf(path))))
      ensures Files() == if ok then old(Files()) - {NameOf(path)} else old(Files())
    {
      hide View, NormalPath, Find, H.Live, H.Linked, H.Ok, Sound, H.Kept, Owned, H.Arena.Valid, Parent, HasChild, DataOk;
      ghost var ns, before := Table(), heap.bytes[..];
      H.KeptSame(Foreign(), before);
      if !ready {
        return false;
      }
      var internal := Normalize(path, PATH_MAX);
      if internal.None? || !InTemp(internal.value) {
        return false;
      }
      if internal.value == "temp" {
        return false;
      }
      var index := FindNode(internal.value);
      ViewFind(ns, before, internal.value);
      if index < 0 {
        return false;
      }
      NotRoot(index);
      ParentOfSome(ns, index, Live(), before);
      if nodes[index].kind == DirNode {
        var i := 0;
        while i < nodesUsed
          invariant i <= nodesUsed && forall k :: 0 <= k < i && nodes[k].used ==> nodes[k].parent != index
        {
          if nodes[i].used && nodes[i].parent == index {
            return false;
          }
          i := i + 1;
        }
      } else {
        FilesHaveNoChild(ns, index, Live());
      }
      Unlink(index);
      return true;
    }

    lemma NotRoot(i: nat)
      requires Valid() && i < nodesUsed && nodes[i].used && nodes[i].path != ""
      ensures i > 0 && DataOk(nodes[i], Live())
    {
      hide H.Live;
      assert NodeOk(Table(), i) && DataOk(Table()[i], Live());
    }

    // ----- start-up -----

    /** clks_fs_ramdisk_visit */
    method Visit(entry: ImageEntry) returns (ok: bool)
      requires Valid() && Owned(Table()) == {} && NoSlashEnds(Files()) && ImagePath(entry.path)
      requires entry.ImageFile? ==> |entry.bytes| <= MAX_OBJECT
      modifies this`nodesUsed, nodes
      ensures Valid() && Owned(Table()) == {} && NoSlashEnds(Files())
      ensures Install(old(Files()), entry) == if ok then Some(Files()) else None
      ensures !ok ==> GrownByDirs(old(Files()), Files(), if entry.ImageDir? then entry.path else Parent(entry.path))
    {
      hide View, Parent, Put, Sound, Owned, H.Live, GrownByDirs, Written, NoSlashEnds, H.Arena.Valid, FileOnTheWay, Find,
           CanInstall, Install, Room, Stuck, PlainText;
      if entry.ImageDir? {
        ok := VisitDir(entry);
      } else {
        ok := VisitFile(entry);
      }
    }

    method VisitDir(entry: ImageEntry) returns (ok: bool)
      requires Valid() && Owned(Table()) == {} && NoSlashEnds(Files()) && ImagePath(entry.path) && entry.ImageDir?
      modifies this`nodesUsed, nodes
      ensures Valid() && Owned(Table()) == {} && NoSlashEnds(Files())
      ensures Install(old(Files()), entry) == if ok then Some(Files()) else None
      ensures !ok ==> GrownByDirs(old(Files()), Files(), entry.path)
    {
      hide View, Parent, Put, Sound, Owned, H.Live, GrownByDirs, Written, NoSlashEnds, H.Arena.Valid, FileOnTheWay, Find,
           Room, Stuck, PlainText;
      ghost var was := Files();
      ok := EnsureDirs(entry.path);
      GrownNoSlashEnds(was, Files(), entry.path);
      if ok {
        DirInstalled(Table(), Live(), heap.bytes[..], was, entry);
      } else if Stuck(Table(), Files(), entry.path) {
        StuckInReach(Table(), Live(), heap.bytes[..], was, entry.path);
      }
    }

    method VisitFile(entry: ImageEntry) returns (ok: bool)
      requires Valid() && Owned(Table()) == {} && NoSlashEnds(Files()) && ImagePath(entry.path)
      requires entry.ImageFile? && |entry.bytes| <= MAX_OBJECT
      modifies this`nodesUsed, nodes
      ensures Valid() && Owned(Table()) == {} && NoSlashEnds(Files())
      ensures Install(old(Files()), entry) == if ok then Some(Files()) else None
      ensures !ok ==> GrownByDirs(old(Files()), Files(), Parent(entry.path))
    {
      hide View, Parent, Put, Sound, Owned, H.Live, GrownByDirs, Written, NoSlashEnds, H.Arena.Valid, FileOnTheWay, Find,
           Room, Stuck, PlainText, Full, CanInstall, Install;
      ghost var was := Files();
      GrowNone(was, Parent(entry.path));
      var parent := SplitParent(entry.path, PATH_MAX);
      if parent.None? {
        TooLongToInstall(was, entry);
        return false;
      }
      var dirs := EnsureDirs(parent.value);
      GrownNoSlashEnds(was, Files(), parent.value);
      if !dirs {
        NoDirs(was, entry);
        return false;
      }
      var parentIndex := FindNode(parent.value);
      ViewFind(Table(), heap.bytes[..], parent.value);
      if parentIndex < 0 {
        NoParent(was, entry);
        return false;
      }
      ghost var ns, mem := Table(), heap.bytes[..];
      ParentIsDir(ns, Live(), mem, parent.value);
      PutImageFile(ns, Live(), mem, entry.path, parentIndex, entry.bytes);
      WrittenAfter(was, Files(), entry.path, entry.bytes);
      ghost var (added, at) := Put(ns, entry.path, FileNode, parentIndex, Const(entry.bytes), |entry.bytes|);
      var index := CreateOrUpdate(entry.path, FileNode, parentIndex, Const(entry.bytes), |entry.bytes|);
      assert heap.bytes[..] == mem;
      WrittenNoSlashEnds(View(ns, mem), entry.path, entry.bytes);
      NodeRefused(ns, Live(), mem, was, entry, parentIndex);
      if index >= 0 { FileInstalled(Table(), Live(), mem, was, entry); }
      return index >= 0;
    }

    lemma TooLongToInstall(t: Tree, e: ImageEntry)
      requires |Parent(e.path)| >= PATH_MAX
      ensures Install(t, e) == None
    {
    }

    /** Why an entry is refused when its directory cannot be entered. */
    lemma NoDirs(t: Tree, e: ImageEntry)
      requires Valid() && ImagePath(e.path) && e.ImageFile? && GrownByDirs(t, Files(), Parent(e.path))
      requires !PlainText(Parent(e.path)) || Stuck(Table(), Files(), Parent(e.path)) || FileOnTheWay(t, Parent(e.path))
      ensures Install(t, e) == None
    {
      hide View, Parent, Sound, H.Live, H.Arena.Valid, PlainText, FileOnTheWay, Room, Stuck, GrownByDirs;
      if PlainText(e.path) { PlainUp(e.path); }
      if Stuck(Table(), Files(), Parent(e.path)) { StuckHadNoRoom(Table(), Live(), heap.bytes[..], t, e.path); }
    }

    /** And when its directory is not found: the path has two slashes there. */
    lemma NoParent(t: Tree, e: ImageEntry)
      requires Valid() && ImagePath(e.path) && Parent(e.path) !in Files()
      requires Parent(e.path) != "" && Parent(e.path)[|Parent(e.path)|-1] != '/' ==> Parent(e.path) in Files()
      ensures Install(t, e) == None
    {
      hide View, Parent, Sound, H.Live, H.Arena.Valid, PlainText, FileOnTheWay, Room;
      SoundIsRooted(Table(), Live(), heap.bytes[..]);
      if PlainText(e.path) { PlainUp(e.path); }
    }

    /** Why the last step, the node update, refuses a file. */
    lemma NodeRefused(ns: seq<Node>, live: map<int, nat>, mem: seq<byte>, t: Tree, e: ImageEntry, parent: nat)
      requires Sound(ns, live) && e.ImageFile? && ImagePath(e.path) && GrownByDirs(t, View(ns, mem), Parent(e.path))
      requires |ns| <= MAX_NODES
      ensures var at := Put(ns, e.path, FileNode, parent, Const(e.bytes), |e.bytes|).1;
              if at == None then Install(t, e) == None else !(e.path in t && t[e.path] == Dir)
    {
      hide View, Parent, Sound, GrownByDirs, Room, FileOnTheWay;
      ViewFind(ns, mem, e.path);
      GrownEntry(t, View(ns, mem), Parent(e.path), e.path);
      if Full(ns) && e.path !in View(ns, mem) { StuckHadNoRoom(ns, live, mem, t, e.path); }
    }

    /** clks_fs_require_directory */
    method RequireDirectory(path: string) returns (ok: bool)
      requires Valid()
      ensures ok <==> EntryAt(path) == Some(Dir)
    {
      hide View, NormalPath, H.Live, H.Arena.Valid;
      var internal := Normalize(path, PATH_MAX);
      if internal.None? {
        return false;
      }
      var index := FindNode(internal.value);
      ViewFind(Table(), heap.bytes[..], internal.value);
      return index >= 0 && nodes[index].kind == DirNode;
    }

    /** The tree that an archive describes, if its headers are in order and its entries fit together. */
    static ghost function ArchiveTree(image: seq<byte>): Option<Tree> {
      match Ramdisk.Entries(image, 0)
      case None => None
      case Some(es) => InstallAll(es)
    }

    /** clks_ramdisk_iterate with clks_fs_ramdisk_visit for each entry */
    method Unpack(image: seq<byte>) returns (ok: bool)
      requires Valid() && Table() == [ROOT] && |image| <= MAX_OBJECT
      modifies this`nodesUsed, nodes
      ensures Valid() && Owned(Table()) == {}
      ensures ok <==> ArchiveTree(image).Some?
      ensures ok ==> ArchiveTree(image) == Some(Files())
    {
      hide View, NormalPath, Parent, Sound, Owned, H.Live, NoSlashEnds, H.Arena.Valid, Install, InstallAll, After,
           Ramdisk.Entries, Ramdisk.Octal, Ramdisk.PathOf, Ramdisk.ZeroBlock, Ramdisk.Padded, Ramdisk.Announced;
      OnlyRoot(heap.bytes[..]);
      var offset := 0;
      ghost var done: seq<ImageEntry> := [];
      ReadStart(image);
      while offset + Ramdisk.BLOCK <= |image|
        invariant Valid() && Owned(Table()) == {} && NoSlashEnds(Files())
        invariant Ramdisk.Entries(image, 0) == After(done, Ramdisk.Entries(image, offset))
        invariant InstallAll(done) == Some(Files())
        decreases |image| - offset
      {
        var header := image[offset..offset+Ramdisk.BLOCK];
        var zero := Ramdisk.IsZeroBlock(header);
        if zero {
          break;
        }
        ReadNext(image, offset, done);
        var size := Ramdisk.ParseOctal(header[124..136]);
        if size.None? {
          NothingAfter(done);
          return false;
        }
        var payload := offset + Ramdisk.BLOCK;
        if size.value > |image| - payload {
          NothingAfter(done);
          return false;
        }
        var entry := ReadEntry(header, image[payload..payload+size.value]);
        if entry.Some? {
          InstallNext(done, entry.value);
          ok := Visit(entry.value);
          done := done + [entry.value];
          if !ok {
            FailsAfter(done, Ramdisk.Entries(image, payload + Ramdisk.Padded(size.value)));
            return;
          }
        }
        offset := payload + Ramdisk.Padded(size.value);
      }
      ReadEnd(image, offset, done);
      return true;
    }

    lemma NothingAfter(done: seq<ImageEntry>)
      ensures After(done, None) == None
    {
    }

    lemma FailsAfter(done: seq<ImageEntry>, rest: Option<seq<ImageEntry>>)
      requires InstallAll(done) == None
      ensures After(done, rest).Some? ==> InstallAll(After(done, rest).value) == None
    {
      hide InstallAll;
      if rest.Some? { InstallFails(done, rest.value); }
    }

    /** The entry of a header, as clks_ramdisk_iterate builds it */
    method ReadEntry(header: seq<byte>, contents: seq<byte>) returns (r: Option<ImageEntry>)
      requires |header| == Ramdisk.BLOCK
      ensures r == Ramdisk.Announced(header, contents)
    {
      hide Ramdisk.PathOf;
      var path := Ramdisk.BuildPath(header);
      if path.None? {
        return None;
      }
      if header[156] == 53 {
        return Some(ImageDir(path.value));
      }
      if header[156] == 0 || header[156] == 48 {
        return Some(ImageFile(path.value, contents));
      }
      return None;
    }

    /** The entries that have been visited, in front of those to come. */
    ghost function After(done: seq<ImageEntry>, rest: Option<seq<ImageEntry>>): Option<seq<ImageEntry>> {
      if rest.Some? then Some(done + rest.value) else None
    }

    lemma ReadStart(image: seq<byte>)
      ensures Ramdisk.Entries(image, 0) == After([], Ramdisk.Entries(image, 0))
    {
      hide Ramdisk.Entries;
      var r := Ramdisk.Entries(image, 0);
      if r.Some? { assert [] + r.value == r.value; }
    }

    lemma ReadNext(image: seq<byte>, at: nat, done: seq<ImageEntry>)
      requires at + Ramdisk.BLOCK <= |image| && !Ramdisk.ZeroBlock(image[at..at+Ramdisk.BLOCK])
      ensures var h, from := image[at..at+Ramdisk.BLOCK], at + Ramdisk.BLOCK;
              match Ramdisk.Octal(h[124..136])
              case None => Ramdisk.Entries(image, at) == None
              case Some(size) =>
                if size > |image| - from then Ramdisk.Entries(image, at) == None
                else
                  var next := Ramdisk.Entries(image, from + Ramdisk.Padded(size));
                  var e := Ramdisk.Announced(h, image[from..from+size]);
                  After(done, Ramdisk.Entries(image, at)) == After(if e.Some? then done + [e.value] else done, next)
    {
      hide Ramdisk.Octal, Ramdisk.PathOf, Ramdisk.ZeroBlock, Ramdisk.Padded, Ramdisk.Announced;
      var r := Ramdisk.Entries(image, at);
      if r.Some? && r.value != [] { assert done + r.value == done + [r.value[0]] + r.value[1..]; }
    }

    lemma ReadEnd(image: seq<byte>, at: nat, done: seq<ImageEntry>)
      requires at + Ramdisk.BLOCK > |image| || Ramdisk.ZeroBlock(image[at..at+Ramdisk.BLOCK])
      ensures After(done, Ramdisk.Entries(image, at)) == Some(done)
    {
      assert done + [] == done;
    }

    /** The rest of clks_fs_init: the file system is ready if and only if the boot image is an
        archive whose entries fit together and have the five standard directories; the entries
        then are the tree. */
    method Mount(image: seq<byte>)
      requires Valid() && Table() == [ROOT] && |image| <= MAX_OBJECT
      modifies this`nodesUsed, this`ready, nodes
      ensures Valid() && Foreign() == Live()
      ensures ready <==> ArchiveTree(image).Some? && forall d :: d in STANDARD ==> EntryIn(ArchiveTree(image).value, d) == Some(Dir)
      ensures ready ==> ArchiveTree(image) == Some(Files())
    {
      hide View, NormalPath, Parent, Sound, Owned, H.Live, H.Arena.Valid, ArchiveTree;
      assert Live() - {} == Live();
      OnlyRoot(heap.bytes[..]);
      ready := false;
      if |image| == 0 {
        NoArchive();
        return;
      }
      var ok := Unpack(image);
      if !ok {
        return;
      }
      ready := LayoutFound();
    }

    /** No image has no directories. */
    lemma NoArchive()
      ensures ArchiveTree([]) == Some(BARE) && "/temp" in STANDARD && EntryIn(BARE, "/temp") == None
    {
    }

    /** What this means: every header is in order, the entries fit together, in whatever order they
        are, the paths are those that they need, and the last entry for a file gives its bytes. */
    lemma ArchiveExact(image: seq<byte>)
      ensures ArchiveTree(image).Some? <==> Ramdisk.Entries(image, 0).Some? && Fitting(Ramdisk.Entries(image, 0).value)
      ensures ArchiveTree(image).Some? ==> Unpacked(ArchiveTree(image).value, Ramdisk.Entries(image, 0).value)
    {
      hide InstallAll, Fitting, Unpacked;
      if Ramdisk.Entries(image, 0).Some? { InstallExact(Ramdisk.Entries(image, 0).value); }
    }

    method LayoutFound() returns (found: bool)
      requires Valid()
      ensures found <==> forall d :: d in STANDARD ==> EntryAt(d) == Some(Dir)
    {
      hide View, NormalPath, H.Live, H.Arena.Valid;
      var i := 0;
      while i < |STANDARD|
        invariant i <= |STANDARD| && forall j :: 0 <= j < i ==> EntryAt(STANDARD[j]) == Some(Dir)
      {
        found := RequireDirectory(STANDARD[i]);
        if !found {
          return false;
        }
        i := i + 1;
      }
      return true;
    }

    lemma OnlyRoot(mem: seq<byte>)
      ensures Owned([ROOT]) == {} && View([ROOT], mem) == map["" := Dir] && NoSlashEnds(View([ROOT], mem))
      ensures InstallAll([]) == Some(View([ROOT], mem))
    {
    }

    // ----- sources that belong to a caller -----

    lemma SourceInArena(src: Ptr, n: nat)
      requires heap.Valid() && Readable(src, n)
      ensures src.InHeap? ==> 0 <= src.at && src.at + n <= H.ARENA_SIZE
      ensures |heap.bytes[..]| == H.ARENA_SIZE
    {
      if src.InHeap? {
        var p :| p in Live() && p <= src.at && src.at + n <= p + Live()[p];
        H.Apart(heap.blocks, p, p);
      }
    }

    /** Bytes that a caller owns are inside the arena, can be read by the file system, and last
        as long as the caller's blocks keep their contents. */
    lemma SourceKept(src: Ptr, n: nat, before: seq<byte>, after: seq<byte>)
      requires heap.Valid() && nodesUsed <= nodes.Length && ReadableIn(Foreign(), src, n)
      requires |before| == H.ARENA_SIZE && H.Kept(Foreign(), before, after)
      ensures Readable(src, n) && BytesAt(after, src, n) == BytesAt(before, src, n)
      ensures src.InHeap? ==> 0 <= src.at && src.at + n <= H.ARENA_SIZE
      ensures src != Nil ==> |BytesAt(before, src, n)| == n
    {
      hide H.Live, H.Linked, H.Ok, Owned;
      if src.InHeap? {
        var p :| p in Foreign() && p <= src.at && src.at + n <= p + Foreign()[p];
        H.Apart(heap.blocks, p, p);
        H.KeptSlice(Foreign(), before, after, p, src.at, n);
      }
    }

    /** CopyPart into the middle of a block of `total` bytes. */
    method CopyOver(m: int, total: nat, off: nat, src: Ptr, n: nat, ghost live: map<int, nat>, ghost before: seq<byte>)
      requires Valid() && m in Foreign() && off + n <= total <= Foreign()[m] && live == Live() - {m}
      requires H.Kept(live, before, heap.bytes[..]) && ReadableIn(live, src, n) && (n > 0 ==> src != Nil)
      modifies heap.bytes
      ensures Valid() && Files() == old(Files())
      ensures H.Kept(live, before, heap.bytes[..])
      ensures |old(BytesAt(heap.bytes[..], InHeap(m), total))| == total && |BytesAt(before, src, n)| == n
      ensures BytesAt(heap.bytes[..], InHeap(m), total)
           == Patch(old(BytesAt(heap.bytes[..], InHeap(m), total)), off, BytesAt(before, src, n))
    {
      hide View, H.Live, H.Ok, H.Arena.Valid, Sound, H.Kept, Owned, ReadableIn;
      HeapOk();
      ghost var mem := heap.bytes[..];
      CopyPart(m, off, src, n, live, before);
      PatchedBlock(mem, heap.bytes[..], m, total, off, n, BytesAt(before, src, n));
    }

    lemma BlockFits(m: int)
      requires heap.Valid() && nodesUsed <= nodes.Length && m in Foreign()
      ensures Foreign()[m] <= H.ARENA_SIZE
    {
      hide H.Live, H.Linked, H.Ok;
      H.Apart(heap.blocks, m, m);
    }
  }
}
