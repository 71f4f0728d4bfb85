/** The node table of the RAM-disk file system (clks/kernel/fs.c) as a value: a flat list of
    slots that stands for a map from path to directory or file contents. */
module FsTable {
  import opened Machine
  import opened Paths
  import H = Heap

  const MAX_NODES: nat := 512
  const PATH_MAX: nat := 192

  /** No object in memory is longer than one half of the canonical x86_64 address space. */
  const MAX_OBJECT: nat := 0x8000_0000_0000

  /** Where bytes are read from: the heap arena, or memory outside it (the ramdisk image, the
      empty-file byte, a caller's buffer), which is represented by what it holds. */
  datatype Ptr = Nil | Const(bytes: seq<byte>) | InHeap(at: int)

  datatype Kind = FileNode | DirNode

  datatype Node = Node(used: bool, kind: Kind, parent: nat, ownsData: bool, data: Ptr, size: nat, path: string)

  const UNUSED: Node := Node(false, FileNode, 0, false, Nil, 0, "")
  const ROOT: Node := Node(true, DirNode, 0, false, Nil, 0, "")

  // ----- what the table stands for -----

  datatype Entry = Dir | File(bytes: seq<byte>)

  type Tree = map<string, Entry>

  function BytesAt(mem: seq<byte>, p: Ptr, n: nat): seq<byte> {
    match p
    case Nil => []
    case Const(bs) => if n <= |bs| then bs[..n] else bs
    case InHeap(a) => if 0 <= a && a + n <= |mem| then mem[a..a+n] else []
  }

  function EntryOf(n: Node, mem: seq<byte>): Entry {
    if n.kind == DirNode then Dir else File(BytesAt(mem, n.data, n.size))
  }

  function View(ns: seq<Node>, mem: seq<byte>): Tree {
    if ns == [] then map[]
    else if ns[0].used then View(ns[1..], mem)[ns[0].path := EntryOf(ns[0], mem)]
    else View(ns[1..], mem)
  }

  /** Index of the node a lookup finds: the first used one with this path, else the length. */
  function Find(ns: seq<Node>, p: string): (i: nat)
    ensures i <= |ns|
    ensures i < |ns| ==> ns[i].used && ns[i].path == p
    ensures forall j :: 0 <= j < i ==> !(ns[j].used && ns[j].path == p)
  {
    if ns == [] then 0
    else if ns[0].used && ns[0].path == p then 0
    else
      var k := Find(ns[1..], p);
      assert forall j :: 1 <= j < 1 + k ==> ns[j] == ns[1..][j-1];
      1 + k
  }

  lemma FindIs(ns: seq<Node>, p: string, i: nat)
    requires i <= |ns| && (i < |ns| ==> ns[i].used && ns[i].path == p)
    requires forall j :: 0 <= j < i ==> !(ns[j].used && ns[j].path == p)
    ensures Find(ns, p) == i
  {
  }

  lemma {:induction false} ViewFind(ns: seq<Node>, mem: seq<byte>, p: string)
    ensures p in View(ns, mem) <==> Find(ns, p) < |ns|
    ensures Find(ns, p) < |ns| ==> View(ns, mem)[p] == EntryOf(ns[Find(ns, p)], mem)
  {
    if ns != [] && !(ns[0].used && ns[0].path == p) {
      ViewFind(ns[1..], mem, p);
    }
  }

  // ----- the invariant -----

  ghost predicate NodeOk(ns: seq<Node>, i: nat)
    requires i < |ns|
  {
    var n := ns[i];
    n.used ==>
      && |n.path| < PATH_MAX
      && (i == 0 <==> n.path == "")
      && n.parent < |ns| && ns[n.parent].used && ns[n.parent].kind == DirNode
      && ns[n.parent].path == Parent(n.path)
  }

  ghost predicate PathsDistinct(ns: seq<Node>) {
    forall i, j :: 0 <= i < j < |ns| && ns[i].used && ns[j].used ==> ns[i].path != ns[j].path
  }

  /** Used nodes have distinct paths, node 0 is the root directory, and the parent of every
      used node is the used directory whose path is the node's path minus the last component. */
  ghost predicate TableOk(ns: seq<Node>) {
    && 0 < |ns| <= MAX_NODES
    && ns[0].used && ns[0].kind == DirNode
    && (forall i :: 0 <= i < |ns| ==> NodeOk(ns, i))
    && PathsDistinct(ns)
  }

  function At(n: Node): int {
    if n.data.InHeap? then n.data.at else -1
  }

  ghost predicate DataOk(n: Node, live: map<int, nat>) {
    && (n.ownsData ==> n.used && n.kind == FileNode && n.data.InHeap? && n.data.at in live
                       && 0 < n.size <= live[n.data.at] && n.size <= MAX_OBJECT)
    && (n.used && n.kind == FileNode && !n.ownsData ==>
          n.data.Const? && n.size <= |n.data.bytes| <= MAX_OBJECT)
  }

  /** Flagged nodes own live heap blocks, each its own one; other files point outside the heap. */
  ghost predicate DataOwned(ns: seq<Node>, live: map<int, nat>) {
    && (forall i :: 0 <= i < |ns| ==> DataOk(ns[i], live))
    && (forall i, j :: 0 <= i < j < |ns| && ns[i].ownsData && ns[j].ownsData ==> At(ns[i]) != At(ns[j]))
  }

  ghost predicate Sound(ns: seq<Node>, live: map<int, nat>) {
    TableOk(ns) && DataOwned(ns, live)
  }

  /** The heap blocks that belong to the file system. */
  ghost function Owned(ns: seq<Node>): set<int> {
    set i | 0 <= i < |ns| && ns[i].ownsData :: At(ns[i])
  }

  lemma RootIs(ns: seq<Node>, live: map<int, nat>)
    requires Sound(ns, live)
    ensures |ns| > 0 && ns[0].used && ns[0].kind == DirNode && ns[0].path == ""
  {
    assert NodeOk(ns, 0);
  }

  // ----- changing one slot -----

  lemma {:induction false} ViewAppend(a: seq<Node>, b: seq<Node>, mem: seq<byte>)
    ensures View(a + b, mem) == View(b, mem) + View(a, mem)
  {
    if a == [] {
      assert a + b == b;
    } else {
      assert (a + b)[1..] == a[1..] + b;
      ViewAppend(a[1..], b, mem);
    }
  }

  lemma ViewSplit(ns: seq<Node>, i: nat, n: Node, mem: seq<byte>)
    requires i < |ns|
    ensures View(ns[i := n], mem) == View(ns[i+1..], mem) + View([n], mem) + View(ns[..i], mem)
  {
    hide View;
    assert ns[i := n] == ns[..i] + ([n] + ns[i+1..]);
    ViewAppend(ns[..i], [n] + ns[i+1..], mem);
    ViewAppend([n], ns[i+1..], mem);
  }

  lemma PathElsewhere(ns: seq<Node>, i: nat, p: string, mem: seq<byte>)
    requires i < |ns| && forall j :: 0 <= j < |ns| && j != i && ns[j].used ==> ns[j].path != p
    ensures p !in View(ns[..i], mem) && p !in View(ns[i+1..], mem)
  {
    ViewFind(ns[..i], mem, p);
    ViewFind(ns[i+1..], mem, p);
  }

  /** Storing a node into slot `i` removes what the slot stood for and adds what it stands for. */
  lemma ViewUpdate(ns: seq<Node>, i: nat, n: Node, mem: seq<byte>)
    requires i < |ns| && PathsDistinct(ns) && PathsDistinct(ns[i := n])
    ensures View(ns[i := n], mem)
         == View(ns, mem) - (if ns[i].used then {ns[i].path} else {})
            + (if n.used then map[n.path := EntryOf(n, mem)] else map[])
  {
    hide View;
    ViewSplit(ns, i, n, mem);
    ViewSplit(ns, i, ns[i], mem);
    ViewOne(n, mem);
    ViewOne(ns[i], mem);
    assert ns[i := ns[i]] == ns;
    var r := ns[i := n];
    assert r[..i] == ns[..i] && r[i+1..] == ns[i+1..];
    if ns[i].used { PathElsewhere(ns, i, ns[i].path, mem); }
    assert r[i] == n;
    if n.used { PathElsewhere(r, i, n.path, mem); }
  }

  lemma ViewOne(n: Node, mem: seq<byte>)
    ensures View([n], mem) == if n.used then map[n.path := EntryOf(n, mem)] else map[]
  {
  }

  lemma {:induction false} ViewSameBytes(ns: seq<Node>, mem: seq<byte>, mem2: seq<byte>)
    requires forall i :: 0 <= i < |ns| && ns[i].used ==> EntryOf(ns[i], mem) == EntryOf(ns[i], mem2)
    ensures View(ns, mem) == View(ns, mem2)
  {
    if ns != [] {
      ViewSameBytes(ns[1..], mem, mem2);
    }
  }

  // ----- adding, replacing and clearing a node -----

  ghost predicate Fresh(ns: seq<Node>, p: string) {
    forall j :: 0 <= j < |ns| && ns[j].used ==> ns[j].path != p
  }

  function Grown(ns: seq<Node>, s: nat): seq<Node> {
    if s < |ns| then ns else ns + [UNUSED]
  }

  /** The table with node `n` in the unused slot `s`, which may be the one after the last. */
  function AddAt(ns: seq<Node>, s: nat, n: Node): seq<Node>
    requires s <= |ns|
  {
    Grown(ns, s)[s := n]
  }

  lemma AddAtThen(ns: seq<Node>, s: nat, a: Node, b: Node)
    requires s <= |ns|
    ensures s < |AddAt(ns, s, a)| && AddAt(ns, s, a)[s] == a && AddAt(ns, s, a)[s := b] == AddAt(ns, s, b)
  {
  }

  ghost predicate CanAdd(ns: seq<Node>, s: nat, n: Node, live: map<int, nat>) {
    && s <= |ns| && s < MAX_NODES && (s < |ns| ==> !ns[s].used)
    && n.used && n.path != "" && |n.path| < PATH_MAX && Fresh(ns, n.path)
    && n.parent < |ns| && ns[n.parent].used && ns[n.parent].kind == DirNode && ns[n.parent].path == Parent(n.path)
    && DataOk(n, live) && (n.ownsData ==> At(n) !in Owned(ns))
  }

  lemma AddTableOk(ns: seq<Node>, s: nat, n: Node, live: map<int, nat>)
    requires TableOk(ns) && CanAdd(ns, s, n, live)
    ensures TableOk(AddAt(ns, s, n))
  {
    var r := AddAt(ns, s, n);
    forall i | 0 <= i < |r|
      ensures NodeOk(r, i)
    {
      if i != s { assert NodeOk(ns, i); }
    }
  }

  lemma AddView(ns: seq<Node>, s: nat, n: Node, live: map<int, nat>, mem: seq<byte>)
    requires TableOk(ns) && CanAdd(ns, s, n, live)
    ensures View(AddAt(ns, s, n), mem) == View(ns, mem)[n.path := EntryOf(n, mem)]
  {
    AddTableOk(ns, s, n, live);
    var g := Grown(ns, s);
    if s == |ns| {
      ViewAppend(ns, [UNUSED], mem);
      ViewOne(UNUSED, mem);
    }
    ViewUpdate(g, s, n, mem);
  }

  lemma AddOwned(ns: seq<Node>, s: nat, n: Node, live: map<int, nat>)
    requires Sound(ns, live) && CanAdd(ns, s, n, live)
    ensures DataOwned(AddAt(ns, s, n), live)
    ensures Owned(AddAt(ns, s, n)) == Owned(ns) + (if n.ownsData then {At(n)} else {})
  {
    var r := AddAt(ns, s, n);
    assert r[s] == n;
    assert forall i :: 0 <= i < |r| && i != s ==> r[i] == ns[i];
    if s < |ns| { assert DataOk(ns[s], live); }
    forall a | a in Owned(ns)
      ensures a in Owned(r)
    {
      var i :| 0 <= i < |ns| && ns[i].ownsData && At(ns[i]) == a;
      assert r[i] == ns[i];
    }
  }

  /** What a table keeps of the heap when other blocks come and go. */
  ghost predicate StillLive(ns: seq<Node>, i: nat, live: map<int, nat>, live2: map<int, nat>) {
    forall j :: 0 <= j < |ns| && j != i && ns[j].ownsData ==>
      At(ns[j]) in live && At(ns[j]) in live2 && live2[At(ns[j])] == live[At(ns[j])]
  }

  lemma OwnedUpdate(ns: seq<Node>, i: nat, n: Node)
    requires i < |ns|
    requires forall j :: 0 <= j < |ns| && j != i && ns[j].ownsData && ns[i].ownsData ==> At(ns[j]) != At(ns[i])
    ensures Owned(ns[i := n]) == Owned(ns) - (if ns[i].ownsData then {At(ns[i])} else {})
                                 + (if n.ownsData then {At(n)} else {})
  {
    var r := ns[i := n];
    assert r[i] == n;
    forall a | a in Owned(ns) && !(ns[i].ownsData && a == At(ns[i]))
      ensures a in Owned(r)
    {
      var k :| 0 <= k < |ns| && ns[k].ownsData && At(ns[k]) == a;
      assert r[k] == ns[k];
    }
  }

  /** New contents for file `i`, with the heap as it is after the old payload is gone. */
  lemma ReplaceSound(ns: seq<Node>, i: nat, n: Node, live: map<int, nat>, live2: map<int, nat>)
    requires Sound(ns, live) && i < |ns| && ns[i].used && ns[i].kind == FileNode
    requires n == ns[i].(data := n.data, size := n.size, ownsData := n.ownsData) && DataOk(n, live2)
    requires StillLive(ns, i, live, live2)
    requires n.ownsData ==> forall j :: 0 <= j < |ns| && j != i && ns[j].ownsData ==> At(ns[j]) != At(n)
    ensures Sound(ns[i := n], live2)
    ensures Owned(ns[i := n]) == Owned(ns) - (if ns[i].ownsData then {At(ns[i])} else {})
                                 + (if n.ownsData then {At(n)} else {})
  {
    var r := ns[i := n];
    forall k | 0 <= k < |r|
      ensures DataOk(r[k], live2)
    {
      assert DataOk(ns[k], live);
    }
    SameShapeOk(ns, i, n);
    OwnedUpdate(ns, i, n);
  }

  lemma SameShapeOk(ns: seq<Node>, i: nat, n: Node)
    requires TableOk(ns) && i < |ns|
    requires n == ns[i].(data := n.data, size := n.size, ownsData := n.ownsData)
    ensures TableOk(ns[i := n])
  {
    var r := ns[i := n];
    forall k | 0 <= k < |r|
      ensures NodeOk(r, k)
    {
      assert NodeOk(ns, k);
    }
  }

  /** A node goes away; nothing refers to it. */
  lemma ClearSound(ns: seq<Node>, i: nat, live: map<int, nat>, live2: map<int, nat>)
    requires Sound(ns, live) && 0 < i < |ns| && ns[i].used
    requires forall k :: 0 <= k < |ns| && ns[k].used ==> ns[k].parent != i
    requires StillLive(ns, i, live, live2)
    ensures Sound(ns[i := UNUSED], live2)
    ensures Owned(ns[i := UNUSED]) == Owned(ns) - (if ns[i].ownsData then {At(ns[i])} else {})
  {
    var r := ns[i := UNUSED];
    forall k | 0 <= k < |r|
      ensures NodeOk(r, k) && DataOk(r[k], live2)
    {
      assert NodeOk(ns, k) && DataOk(ns[k], live);
    }
    OwnedUpdate(ns, i, r[i]);
  }

  // ----- clks_fs_create_or_update_node -----

  function FreeSlot(ns: seq<Node>): (s: nat)
    ensures s <= |ns|
    ensures s < |ns| ==> !ns[s].used
    ensures forall j :: 0 <= j < s ==> ns[j].used
  {
    if ns == [] then 0 else if !ns[0].used then 0
    else
      var k := FreeSlot(ns[1..]);
      assert forall j :: 1 <= j < 1 + k ==> ns[j] == ns[1..][j-1];
      1 + k
  }

  ghost predicate Full(ns: seq<Node>) {
    |ns| == MAX_NODES && forall j :: 0 <= j < |ns| ==> ns[j].used
  }

  function Made(p: string, kind: Kind, parent: nat, data: Ptr, size: nat): Node {
    if kind == FileNode then Node(true, kind, parent, false, data, size, p)
    else Node(true, kind, parent, false, Nil, 0, p)
  }

  /** The table and the node index after creating or updating the node for `p`; None on failure. */
  function Put(ns: seq<Node>, p: string, kind: Kind, parent: nat, data: Ptr, size: nat): (seq<Node>, Option<nat>)
    requires |ns| <= MAX_NODES
  {
    var i := Find(ns, p);
    var s := FreeSlot(ns);
    if |p| >= PATH_MAX then (ns, None)
    else if i < |ns| then
      if ns[i].kind != kind then (ns, None)
      else if kind == FileNode then (ns[i := ns[i].(parent := parent, data := data, size := size, ownsData := false)], Some(i))
      else (ns[i := ns[i].(parent := parent)], Some(i))
    else if s == MAX_NODES then (ns, None)
    else (AddAt(ns, s, Made(p, kind, parent, data, size)), Some(s))
  }

  // ----- changes of the tree -----

  /** `q` is a directory on the way to `p`, or `p` itself. */
  predicate OnTheWay(q: string, p: string) {
    q != "" && q <= p && q[|q|-1] != '/' && (|q| < |p| ==> p[|q|] == '/')
  }

  /** Nothing is lost or changed, and all that is new are directories on the way to `p`. */
  ghost predicate GrownByDirs(t: Tree, t2: Tree, p: string) {
    && (forall q :: q in t ==> q in t2 && t2[q] == t[q])
    && (forall q :: q in t2 && q !in t ==> t2[q] == Dir && OnTheWay(q, p))
  }

  /** File `p` holds `data`; apart from it only missing directories above it are new. */
  ghost predicate Written(t: Tree, t2: Tree, p: string, data: seq<byte>) {
    && p in t2 && t2[p] == File(data)
    && (forall q :: q in t && q != p ==> q in t2 && t2[q] == t[q])
    && (forall q :: q in t2 && q !in t && q != p ==> t2[q] == Dir && OnTheWay(q, Parent(p)))
  }

  ghost predicate HasChild(t: Tree, p: string) {
    exists q :: q in t && q != "" && Parent(q) == p
  }

  ghost predicate FileOnTheWay(t: Tree, p: string) {
    exists q :: q in t && t[q].File? && OnTheWay(q, p)
  }

  /** Text that the directory walk accepts: no empty component, and it fits a node. */
  ghost predicate PlainText(p: string) {
    && |p| < PATH_MAX && (p != "" ==> p[0] != '/')
    && forall i, j :: 0 <= i && j == i + 1 < |p| ==> !(p[i] == '/' && p[j] == '/')
  }

  // ----- the directory walk -----

  /** The walk along `p` has read `prefix` and stands at `i`. */
  ghost predicate Walked(p: string, prefix: string, i: nat) {
    && prefix <= p && i <= |p|
    && (prefix == "" ==> i == 0)
    && (prefix != "" ==> OnTheWay(prefix, p) && i == if |prefix| < |p| then |prefix| + 1 else |p|)
  }

  /** Reading the component up to `j` leads to the prefix of `p` of that length, one level down. */
  lemma WalkOn(p: string, prefix: string, i: nat, j: nat)
    requires Walked(p, prefix, i) && i < j <= |p| && '/' !in p[i..j] && (j < |p| ==> p[j] == '/')
    ensures p[..j] == if prefix == "" then p[i..j] else prefix + "/" + p[i..j]
    ensures Parent(p[..j]) == prefix && OnTheWay(p[..j], p)
    ensures Walked(p, p[..j], if j < |p| then j + 1 else j)
  {
  }

  /** Why the walk gives up. */
  lemma NotPlain(p: string, prefix: string, i: nat, j: nat)
    requires Walked(p, prefix, i) && i <= j <= |p| && i < |p|
    ensures i == j && p[j] == '/' ==> !PlainText(p)
    ensures prefix != "" && |prefix| + 1 >= PATH_MAX ==> !PlainText(p)
    ensures (if prefix == "" then 0 else |prefix| + 1) + (j - i) >= PATH_MAX ==> !PlainText(p)
  {
  }

  lemma GrowNone(t: Tree, p: string)
    ensures GrownByDirs(t, t, p)
  {
  }

  lemma GrowStep(t: Tree, t2: Tree, q: string, p: string)
    requires GrownByDirs(t, t2, p) && OnTheWay(q, p)
    ensures (q in t2 ==> t2[q] == Dir) ==> GrownByDirs(t, t2[q := Dir], p)
    ensures q in t2 && t2[q].File? ==> FileOnTheWay(t, p)
  {
  }

  lemma PutNewDir(ns: seq<Node>, q: string, parent: nat, live: map<int, nat>, mem: seq<byte>)
    requires Sound(ns, live) && Find(ns, q) == |ns| && q != "" && |q| < PATH_MAX
    requires parent < |ns| && ns[parent].used && ns[parent].kind == DirNode && ns[parent].path == Parent(q)
    ensures var (r, i) := Put(ns, q, DirNode, parent, Nil, 0);
            if Full(ns) then r == ns && i == None
            else i.Some? && i.value < |r| && r[i.value] == Made(q, DirNode, parent, Nil, 0)
                 && Sound(r, live) && View(r, mem) == View(ns, mem)[q := Dir] && Owned(r) == Owned(ns)
  {
    hide View, Parent;
    var s, n := FreeSlot(ns), Made(q, DirNode, parent, Nil, 0);
    if s < MAX_NODES {
      AddTableOk(ns, s, n, live);
      AddView(ns, s, n, live, mem);
      AddOwned(ns, s, n, live);
    }
  }

  // ----- external paths -----

  function NoDots(cs: seq<string>): (r: seq<string>)
    ensures AreComps(cs) ==> AreComps(r)
  {
    if cs == [] then []
    else if cs[|cs|-1] == "." then NoDots(cs[..|cs|-1])
    else NoDots(cs[..|cs|-1]) + [cs[|cs|-1]]
  }

  /** The internal name of an absolute path: its components without ".", joined by single
      slashes; a path with ".." or one that does not fit `cap` bytes has none. */
  function NormalPath(path: string, cap: nat): Option<string> {
    if path == "" || path[0] != '/' || ".." in Comps(path) || |Join(NoDots(Comps(path)))| >= cap then None
    else Some(Join(NoDots(Comps(path))))
  }

  lemma {:induction false} NoDotsAppend(a: seq<string>, b: seq<string>)
    ensures NoDots(a + b) == NoDots(a) + NoDots(b)
  {
    if b == [] {
      assert a + b == a;
    } else {
      assert (a + b)[..|a|+|b|-1] == a + b[..|b|-1];
      NoDotsAppend(a, b[..|b|-1]);
    }
  }

  lemma {:induction false} JoinGrows(a: seq<string>, b: seq<string>)
    ensures |Join(a + b)| >= |Join(a)|
  {
    if b == [] {
      assert a + b == a;
    } else {
      assert a + b == (a + b[..|b|-1]) + [b[|b|-1]];
      JoinGrows(a, b[..|b|-1]);
      JoinAppend(a + b[..|b|-1], b[|b|-1]);
    }
  }

  /** Reading on past what is already too long never makes it fit. */
  lemma TooLong(cs: seq<string>, done: seq<string>, rest: seq<string>, cap: nat)
    requires cs == done + rest && |Join(NoDots(done))| >= cap
    ensures |Join(NoDots(cs))| >= cap
  {
    NoDotsAppend(done, rest);
    JoinGrows(NoDots(done), NoDots(rest));
  }

  lemma {:induction false} JoinIsPlain(cs: seq<string>)
    requires AreComps(cs) && |Join(cs)| < PATH_MAX
    ensures PlainText(Join(cs))
  {
    if |cs| == 1 {
      assert cs[0] in cs;
      assert forall i :: 0 <= i < |cs[0]| ==> cs[0][i] in cs[0];
    } else if |cs| > 1 {
      var front, last := cs[..|cs|-1], cs[|cs|-1];
      JoinIsPlain(front);
      JoinNonEmpty(front);
      assert last in cs;
      assert forall i :: 0 <= i < |last| ==> last[i] in last;
    }
  }

  predicate InTemp(p: string) {
    |p| >= 4 && p[0] == 't' && p[1] == 'e' && p[2] == 'm' && p[3] == 'p' && (|p| == 4 || p[4] == '/')
  }

  predicate IsTempFile(p: string) {
    InTemp(p) && |p| > 4
  }

  /** What every normal path of a file under the temp directory satisfies. */
  lemma TempFileParent(path: string, p: string)
    requires NormalPath(path, PATH_MAX) == Some(p) && IsTempFile(p)
    ensures InTemp(Parent(p)) && PlainText(Parent(p)) && Parent(p)[|Parent(p)|-1] != '/' && p[|p|-1] != '/'
  {
    JoinIsPlain(NoDots(Comps(path)));
    JoinNonEmpty(NoDots(Comps(path)));
    var r := Parent(p);
    assert |r| >= 4;
  }

  lemma TempPath(path: string, p: string)
    requires NormalPath(path, PATH_MAX) == Some(p) && InTemp(p)
    ensures PlainText(p) && p[|p|-1] != '/'
  {
    JoinIsPlain(NoDots(Comps(path)));
    JoinNonEmpty(NoDots(Comps(path)));
  }

  // ----- contents across changes of the heap -----

  /** Files keep their bytes as long as the payloads the table owns keep theirs. */
  lemma KeptView(ns: seq<Node>, live: map<int, nat>, mem: seq<byte>, mem2: seq<byte>)
    requires Sound(ns, live) && H.Kept(live, mem, mem2)
    ensures View(ns, mem) == View(ns, mem2)
  {
    forall i | 0 <= i < |ns| && ns[i].used
      ensures EntryOf(ns[i], mem) == EntryOf(ns[i], mem2)
    {
      assert DataOk(ns[i], live);
      if ns[i].ownsData {
        assert At(ns[i]) in Owned(ns);
      }
    }
    ViewSameBytes(ns, mem, mem2);
  }

  // ----- the last step of a write -----

  function Stored(p: string, parent: nat, payload: Ptr, size: nat, owned: bool): Node {
    Made(p, FileNode, parent, payload, size).(ownsData := owned)
  }

  /** File node `n` fits into the tree and brings a payload that the table does not own yet. */
  ghost predicate Storable(ns: seq<Node>, n: Node, live: map<int, nat>) {
    && n == Stored(n.path, n.parent, n.data, n.size, n.ownsData)
    && n.path != "" && |n.path| < PATH_MAX
    && n.parent < |ns| && ns[n.parent].used && ns[n.parent].kind == DirNode && ns[n.parent].path == Parent(n.path)
    && DataOk(n, live) && (n.ownsData ==> At(n) !in Owned(ns))
  }

  /** Taking over a new payload for file `i` whose old payload, if it owned one, is gone. */
  lemma StoreExisting(ns: seq<Node>, i: nat, n: Node, live: map<int, nat>, live2: map<int, nat>, mem: seq<byte>, mem2: seq<byte>)
    requires Sound(ns, live) && i < |ns| && ns[i].used && ns[i].kind == FileNode
    requires Storable(ns, n, live) && n.path == ns[i].path
    requires live2 == live - (if ns[i].ownsData then {At(ns[i])} else {})
    requires H.Kept(live2, mem, mem2)
    ensures Sound(ns[i := n], live2)
    ensures View(ns[i := n], mem2) == View(ns, mem)[n.path := EntryOf(n, mem)]
    ensures live2 - Owned(ns[i := n]) == live - Owned(ns) - (if n.ownsData then {At(n)} else {})
  {
    hide View;
    var r := ns[i := n];
    assert NodeOk(ns, i) && DataOk(ns[i], live);
    SameParent(ns, i, n.parent);
    if ns[i].ownsData { assert At(ns[i]) in Owned(ns); }
    assert StillLive(ns, i, live, live2) by {
      forall j | 0 <= j < |ns| && j != i && ns[j].ownsData
        ensures At(ns[j]) in live && At(ns[j]) in live2
      {
        assert DataOk(ns[j], live);
      }
    }
    assert n.ownsData ==> forall j :: 0 <= j < |ns| && ns[j].ownsData ==> At(ns[j]) in Owned(ns);
    ReplaceSound(ns, i, n, live, live2);
    KeptView(r, live2, mem, mem2);
    ViewUpdate(ns, i, n, mem);
  }

  lemma SameParent(ns: seq<Node>, i: nat, parent: nat)
    requires TableOk(ns) && i < |ns| && ns[i].used
    requires parent < |ns| && ns[parent].used && ns[parent].path == Parent(ns[i].path)
    ensures ns[i].parent == parent
  {
    assert NodeOk(ns, i);
  }

  /** A block that the table does not own is released. */
  lemma WithoutBlock(ns: seq<Node>, a: int, live: map<int, nat>, mem: seq<byte>, mem2: seq<byte>)
    requires Sound(ns, live) && a !in Owned(ns) && H.Kept(live - {a}, mem, mem2)
    ensures Sound(ns, live - {a}) && View(ns, mem2) == View(ns, mem)
    ensures live - {a} - Owned(ns) == live - Owned(ns) - {a}
  {
    forall i | 0 <= i < |ns|
      ensures DataOk(ns[i], live - {a})
    {
      assert DataOk(ns[i], live);
      if ns[i].ownsData { assert At(ns[i]) in Owned(ns); }
    }
    KeptView(ns, live - {a}, mem, mem2);
  }

  lemma StoreNew(ns: seq<Node>, n: Node, live: map<int, nat>, mem: seq<byte>)
    requires Sound(ns, live) && Find(ns, n.path) == |ns| && FreeSlot(ns) < MAX_NODES
    requires Storable(ns, n, live)
    ensures var r := AddAt(ns, FreeSlot(ns), n);
            && Sound(r, live)
            && View(r, mem) == View(ns, mem)[n.path := EntryOf(n, mem)]
            && live - Owned(r) == live - Owned(ns) - (if n.ownsData then {At(n)} else {})
  {
    AddTableOk(ns, FreeSlot(ns), n, live);
    AddView(ns, FreeSlot(ns), n, live, mem);
    AddOwned(ns, FreeSlot(ns), n, live);
  }

  /** What the node update of a write does, given whether the file was there. */
  lemma PutStored(ns: seq<Node>, live: map<int, nat>, p: string, parent: nat, payload: Ptr, size: nat, existing: int)
    requires Sound(ns, live) && |p| < PATH_MAX
    requires existing == if Find(ns, p) < |ns| then Find(ns, p) else -1
    requires existing >= 0 ==> ns[existing].kind == FileNode
    ensures existing >= 0 ==>
              var ns2 := ns[existing := ns[existing].(ownsData := false)];
              Put(ns2, p, FileNode, parent, payload, size)
                == (ns[existing := Made(p, FileNode, parent, payload, size)], Some(existing as nat))
    ensures existing < 0 ==>
              Put(ns, p, FileNode, parent, payload, size)
                == if FreeSlot(ns) == MAX_NODES then (ns, None)
                   else (AddAt(ns, FreeSlot(ns), Made(p, FileNode, parent, payload, size)), Some(FreeSlot(ns)))
    ensures existing < 0 && FreeSlot(ns) == MAX_NODES ==> Full(ns)
  {
    if existing >= 0 {
      var ns2, n := ns[existing := ns[existing].(ownsData := false)], Made(p, FileNode, parent, payload, size);
      FindIs(ns2, p, existing);
      assert ns2[existing := n] == ns[existing := n];
    }
  }

  /** A further live block changes nothing for the table. */
  lemma WithBlock(ns: seq<Node>, a: int, live: map<int, nat>, live2: map<int, nat>, mem: seq<byte>, mem2: seq<byte>)
    requires Sound(ns, live) && a !in live && a in live2 && live2 == live[a := live2[a]] && H.Kept(live, mem, mem2)
    ensures Sound(ns, live2) && View(ns, mem2) == View(ns, mem)
    ensures a !in Owned(ns) && live2 - Owned(ns) == (live - Owned(ns))[a := live2[a]]
  {
    forall i | 0 <= i < |ns|
      ensures DataOk(ns[i], live2)
    {
      assert DataOk(ns[i], live);
    }
    KeptView(ns, live, mem, mem2);
  }

  lemma FileThere(ns: seq<Node>, mem: seq<byte>, p: string, i: nat)
    requires i == Find(ns, p) && i < |ns|
    ensures p in View(ns, mem) && (View(ns, mem)[p] == Dir <==> ns[i].kind == DirNode)
  {
    ViewFind(ns, mem, p);
  }

  lemma WrittenAfter(t: Tree, t2: Tree, p: string, data: seq<byte>)
    requires GrownByDirs(t, t2, Parent(p))
    ensures Written(t, t2[p := File(data)], p, data)
  {
  }

  /** Writing into a live block that the table does not own changes no file. */
  lemma FilledView(ns: seq<Node>, bs: seq<H.Block>, live: map<int, nat>, p: int, mem: seq<byte>, mem2: seq<byte>)
    requires H.Ok(bs) && live == H.Live(bs) && Sound(ns, live) && p in live && p !in Owned(ns)
    requires |mem| == |mem2| && forall k :: 0 <= k < |mem| && !(p <= k < p + live[p]) ==> mem2[k] == mem[k]
    ensures View(ns, mem2) == View(ns, mem)
  {
    hide H.Live;
    var rest := live - {p};
    forall q, k | q in rest && q <= k < q + rest[q] && 0 <= k < |mem|
      ensures mem[k] == mem2[k]
    {
      H.Apart(bs, p, q);
    }
    WithoutBlock(ns, p, live, mem, mem2);
  }

  // ----- removal -----

  /** A node is the parent of some used node exactly when its path has a child in the tree. */
  lemma ParentOfSome(ns: seq<Node>, i: nat, live: map<int, nat>, mem: seq<byte>)
    requires Sound(ns, live) && 0 < i < |ns| && ns[i].used
    ensures HasChild(View(ns, mem), ns[i].path) <==> exists k :: 0 <= k < |ns| && ns[k].used && ns[k].parent == i
  {
    hide View, Parent, DataOwned;
    if k :| 0 <= k < |ns| && ns[k].used && ns[k].parent == i {
      RootIs(ns, live);
      assert NodeOk(ns, k) && NodeOk(ns, i);
      var q := ns[k].path;
      ViewFind(ns, mem, q);
      assert Find(ns, q) < |ns|;
      assert q in View(ns, mem) && q != "" && Parent(q) == ns[i].path;
    }
    if HasChild(View(ns, mem), ns[i].path) {
      var q :| q in View(ns, mem) && q != "" && Parent(q) == ns[i].path;
      ViewFind(ns, mem, q);
      var k := Find(ns, q);
      assert NodeOk(ns, k) && NodeOk(ns, i);
      assert ns[k].parent == i;
    }
  }

  lemma FilesHaveNoChild(ns: seq<Node>, i: nat, live: map<int, nat>)
    requires Sound(ns, live) && i < |ns| && ns[i].used && ns[i].kind == FileNode
    ensures forall k :: 0 <= k < |ns| && ns[k].used ==> ns[k].parent != i
  {
    forall k | 0 <= k < |ns| && ns[k].used
      ensures ns[k].parent != i
    {
      assert NodeOk(ns, k);
    }
  }

  /** A node without children goes away, and with it the block it owned. */
  lemma RemoveNode(ns: seq<Node>, i: nat, live: map<int, nat>, live2: map<int, nat>, mem: seq<byte>, mem2: seq<byte>)
    requires Sound(ns, live) && 0 < i < |ns| && ns[i].used
    requires forall k :: 0 <= k < |ns| && ns[k].used ==> ns[k].parent != i
    requires live2 == live - (if ns[i].ownsData then {At(ns[i])} else {})
    requires H.Kept(live2, mem, mem2)
    ensures Sound(ns[i := UNUSED], live2)
    ensures View(ns[i := UNUSED], mem2) == View(ns, mem) - {ns[i].path}
    ensures live2 - Owned(ns[i := UNUSED]) == live - Owned(ns)
  {
    hide View;
    var r := ns[i := UNUSED];
    assert StillLive(ns, i, live, live2) by {
      forall j | 0 <= j < |ns| && j != i && ns[j].ownsData
        ensures At(ns[j]) in live && At(ns[j]) in live2
      {
        assert DataOk(ns[j], live);
      }
    }
    if ns[i].ownsData { assert At(ns[i]) in Owned(ns); }
    ClearSound(ns, i, live, live2);
    KeptView(r, live2, mem, mem2);
    ViewUpdate(ns, i, UNUSED, mem);
  }

  // ----- the shape of the tree -----

  /** The root is a directory, and the parent of every other entry is one. */
  ghost predicate Rooted(t: Tree) {
    && "" in t && t[""] == Dir
    && forall q :: q in t && q != "" ==> Parent(q) in t && t[Parent(q)] == Dir && |q| < PATH_MAX
  }

  lemma SoundIsRooted(ns: seq<Node>, live: map<int, nat>, mem: seq<byte>)
    requires Sound(ns, live)
    ensures Rooted(View(ns, mem))
  {
    hide View, Parent, DataOwned;
    RootIs(ns, live);
    FindIs(ns, "", 0);
    ViewFind(ns, mem, "");
    forall q | q in View(ns, mem) && q != ""
      ensures Parent(q) in View(ns, mem) && View(ns, mem)[Parent(q)] == Dir && |q| < PATH_MAX
    {
      ViewFind(ns, mem, q);
      assert NodeOk(ns, Find(ns, q));
      ViewFind(ns, mem, Parent(q));
    }
  }

  /** In a tree, all the prefixes of a path that end at a slash are directories. */
  lemma {:induction false} AncestorsAreDirs(t: Tree, p: string, q: string)
    requires Rooted(t) && p in t && OnTheWay(q, p) && q != p
    ensures q in t && t[q] == Dir
    decreases |p|
  {
    var r := Parent(p);
    assert |r| >= |q|;
    assert q == r[..|q|];
    if q != r { AncestorsAreDirs(t, r, q); }
  }

  // ----- entries of the boot image -----

  datatype ImageEntry = ImageDir(path: string) | ImageFile(path: string, bytes: seq<byte>)

  /** The paths that the archive reader produces. */
  predicate ImagePath(p: string) {
    p != "" && p[0] != '/' && p[|p|-1] != '/'
  }

  ghost predicate NoSlashEnds(t: Tree) {
    forall q :: q in t && q != "" ==> q[|q|-1] != '/'
  }

  lemma GrownNoSlashEnds(t: Tree, t2: Tree, p: string)
    requires NoSlashEnds(t) && GrownByDirs(t, t2, p)
    ensures NoSlashEnds(t2)
  {
  }

  lemma WrittenNoSlashEnds(t: Tree, p: string, bytes: seq<byte>)
    requires NoSlashEnds(t) && ImagePath(p)
    ensures NoSlashEnds(t[p := File(bytes)])
  {
  }

  /** A node found for the directory part of a path is a directory: the root, or one that the
      walk has just entered, since no path ends in a slash. */
  lemma ParentIsDir(ns: seq<Node>, live: map<int, nat>, mem: seq<byte>, p: string)
    requires Sound(ns, live) && NoSlashEnds(View(ns, mem)) && Find(ns, p) < |ns|
    requires p != "" && p[|p|-1] != '/' ==> p in View(ns, mem) && View(ns, mem)[p] == Dir
    ensures ns[Find(ns, p)].kind == DirNode
  {
    hide View;
    ViewFind(ns, mem, p);
    if p == "" { RootIs(ns, live); FindIs(ns, p, 0); }
  }

  /** What the start-up does with a file entry once its directory is there. */
  lemma PutImageFile(ns: seq<Node>, live: map<int, nat>, mem: seq<byte>, p: string, parent: nat, bytes: seq<byte>)
    requires Sound(ns, live) && Owned(ns) == {} && p != "" && |bytes| <= MAX_OBJECT
    requires parent < |ns| && ns[parent].used && ns[parent].kind == DirNode && ns[parent].path == Parent(p)
    ensures var (r, i) := Put(ns, p, FileNode, parent, Const(bytes), |bytes|);
            if i.None? then r == ns
            else Sound(r, live) && Owned(r) == {} && View(r, mem) == View(ns, mem)[p := File(bytes)]
  {
    hide View, Parent, StillLive;
    var n := Stored(p, parent, Const(bytes), |bytes|, false);
    assert bytes[..|bytes|] == bytes;
    assert forall i :: 0 <= i < |ns| && ns[i].ownsData ==> At(ns[i]) in Owned(ns);
    var i := Find(ns, p);
    if |p| < PATH_MAX && i < |ns| && ns[i].kind == FileNode {
      H.KeptSame(live, mem);
      StoreExisting(ns, i, n, live, live, mem, mem);
      OwnedUpdate(ns, i, n);
    } else if |p| < PATH_MAX && i == |ns| && FreeSlot(ns) < MAX_NODES {
      AddTableOk(ns, FreeSlot(ns), n, live);
      AddView(ns, FreeSlot(ns), n, live, mem);
      AddOwned(ns, FreeSlot(ns), n, live);
    }
  }

  /** Bytes of the last file entry for `p` in the image, if there is one. */
  function LastImage(es: seq<ImageEntry>, p: string): Option<seq<byte>> {
    if es == [] then None
    else
      var e := es[|es|-1];
      if e.ImageFile? && e.path == p then Some(e.bytes) else LastImage(es[..|es|-1], p)
  }

  function FileAt(t: Tree, p: string): Option<seq<byte>> {
    if p in t && t[p].File? then Some(t[p].bytes) else None
  }
}
