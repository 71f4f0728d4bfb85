/** When the node table of the file system (clks/kernel/fs.c) has room for a path. */
module FsRoom {
  import opened Machine
  import opened Paths
  import opened FsTable

  /** `p` itself and the directories on the way to it. */
  function Way(p: string): (w: set<string>)
    ensures forall q :: q in w <==> OnTheWay(q, p)
  {
    var w := set k | 0 < k <= |p| && OnTheWay(p[..k], p) :: p[..k];
    assert forall q :: OnTheWay(q, p) ==> p[..|q|] == q;
    w
  }

  /** With what is missing on the way, path `p` fits the table. */
  predicate Room(t: Tree, p: string) {
    |t.Keys + Way(p)| <= MAX_NODES
  }

  /** No slot is left although something is missing on the way. */
  ghost predicate Stuck(ns: seq<Node>, t: Tree, p: string) {
    Full(ns) && exists q :: OnTheWay(q, p) && q !in t
  }

  lemma StuckAt(ns: seq<Node>, t: Tree, q: string, p: string)
    requires Full(ns) && OnTheWay(q, p) && q !in t
    ensures Stuck(ns, t, p)
  {
  }

  // ----- counting -----

  lemma {:induction false} SubsetSize(a: set<string>, b: set<string>)
    requires a <= b
    ensures |a| <= |b|
  {
    if a != {} {
      var x :| x in a;
      SubsetSize(a - {x}, b - {x});
    }
  }

  function Used(ns: seq<Node>): nat {
    if ns == [] then 0 else Used(ns[1..]) + if ns[0].used then 1 else 0
  }

  lemma {:induction false} UsedBound(ns: seq<Node>)
    ensures Used(ns) <= |ns|
    ensures (forall j :: 0 <= j < |ns| ==> ns[j].used) ==> Used(ns) == |ns|
  {
    if ns != [] {
      assert forall j :: 0 <= j < |ns| - 1 ==> ns[1..][j] == ns[j+1];
      UsedBound(ns[1..]);
    }
  }

  /** The tree has as many paths as the table has nodes. */
  lemma {:induction false} TreeSize(ns: seq<Node>, mem: seq<byte>)
    requires PathsDistinct(ns)
    ensures |View(ns, mem).Keys| == Used(ns)
  {
    if ns != [] {
      var rest := ns[1..];
      assert forall j :: 0 <= j < |rest| ==> rest[j] == ns[j+1];
      TreeSize(rest, mem);
      if ns[0].used {
        ViewFind(rest, mem, ns[0].path);
        assert View(ns, mem).Keys == View(rest, mem).Keys + {ns[0].path};
      }
    }
  }

  lemma TreeFits(ns: seq<Node>, mem: seq<byte>)
    requires TableOk(ns)
    ensures |View(ns, mem).Keys| <= MAX_NODES && (Full(ns) ==> |View(ns, mem).Keys| == MAX_NODES)
  {
    hide View;
    TreeSize(ns, mem);
    UsedBound(ns);
  }

  // ----- what success and failure say about the room -----

  lemma WayUp(q: string, p: string)
    requires OnTheWay(q, Parent(p))
    ensures OnTheWay(q, p) && q != p
  {
  }

  /** A tree that holds `p` and all of `t` shows that there was room, and no file in the way. */
  lemma HadRoom(ns: seq<Node>, live: map<int, nat>, mem: seq<byte>, t: Tree, p: string)
    requires Sound(ns, live) && p in View(ns, mem)
    requires forall q :: q in t ==> q in View(ns, mem)
    ensures Room(t, p)
    ensures forall q :: OnTheWay(q, p) && q != p ==> q in View(ns, mem) && View(ns, mem)[q] == Dir
  {
    hide View, Parent, OnTheWay, Sound;
    var t2 := View(ns, mem);
    SoundIsRooted(ns, live, mem);
    forall q | OnTheWay(q, p) && q != p
      ensures q in t2 && t2[q] == Dir
    {
      AncestorsAreDirs(t2, p, q);
    }
    SoundIsTable(ns, live);
    TreeFits(ns, mem);
    SubsetSize(t.Keys + Way(p), t2.Keys);
  }

  lemma SoundIsTable(ns: seq<Node>, live: map<int, nat>)
    requires Sound(ns, live)
    ensures TableOk(ns)
  {
  }

  /** A full table without something on the way, which has grown only on the way, shows that there
      was no room. */
  lemma HadNoRoom(ns: seq<Node>, mem: seq<byte>, t: Tree, p: string)
    requires TableOk(ns) && Stuck(ns, View(ns, mem), p)
    requires forall q :: q in View(ns, mem) && q !in t ==> OnTheWay(q, p)
    ensures !Room(t, p)
  {
    hide View, OnTheWay, TableOk, Full;
    var t2 := View(ns, mem);
    TreeFits(ns, mem);
    var q :| OnTheWay(q, p) && q !in t2;
    assert |t2.Keys + {q}| == MAX_NODES + 1;
    SubsetSize(t2.Keys + {q}, t.Keys + Way(p));
  }

  /** What holds after a write that was done. */
  lemma WriteHadRoom(ns: seq<Node>, live: map<int, nat>, mem: seq<byte>, t: Tree, p: string, data: seq<byte>)
    requires Sound(ns, live) && Written(t, View(ns, mem), p, data)
    ensures Room(t, p) && !FileOnTheWay(t, Parent(p))
  {
    hide View, Parent, OnTheWay, Sound;
    HadRoom(ns, live, mem, t, p);
    if FileOnTheWay(t, Parent(p)) {
      var q :| q in t && t[q].File? && OnTheWay(q, Parent(p));
      WayUp(q, p);
    }
  }

  /** What holds after a directory was made. */
  lemma DirHadRoom(ns: seq<Node>, live: map<int, nat>, mem: seq<byte>, t: Tree, p: string)
    requires Sound(ns, live) && GrownByDirs(t, View(ns, mem), p) && p in View(ns, mem) && View(ns, mem)[p] == Dir
    ensures Room(t, p) && !FileOnTheWay(t, p)
  {
    hide View, Parent, OnTheWay, Sound;
    HadRoom(ns, live, mem, t, p);
  }

  /** What holds after a walk to the directory of `p`, or a new node for `p`, found no slot. */
  lemma StuckHadNoRoom(ns: seq<Node>, live: map<int, nat>, mem: seq<byte>, t: Tree, p: string)
    requires Sound(ns, live) && GrownByDirs(t, View(ns, mem), Parent(p)) && p != "" && p[|p|-1] != '/'
    requires Stuck(ns, View(ns, mem), Parent(p)) || (Full(ns) && p !in View(ns, mem))
    ensures !Room(t, p)
  {
    hide View, Parent, Sound, Full;
    var t2 := View(ns, mem);
    forall q | OnTheWay(q, Parent(p))
      ensures OnTheWay(q, p)
    {
      WayUp(q, p);
    }
    assert OnTheWay(p, p);
    SoundIsTable(ns, live);
    HadNoRoom(ns, mem, t, p);
  }

  lemma StuckInReach(ns: seq<Node>, live: map<int, nat>, mem: seq<byte>, t: Tree, p: string)
    requires Sound(ns, live) && GrownByDirs(t, View(ns, mem), p) && Stuck(ns, View(ns, mem), p)
    ensures !Room(t, p)
  {
    hide View, Parent, Sound, Stuck;
    SoundIsTable(ns, live);
    HadNoRoom(ns, mem, t, p);
  }

  /** An entry that is not on the way stays as it is or stays away, but for new directories. */
  lemma GrownEntry(t: Tree, t2: Tree, dir: string, p: string)
    requires GrownByDirs(t, t2, dir) && dir == Parent(p) && p != ""
    ensures p in t <==> p in t2
    ensures p in t ==> t[p] == t2[p]
  {
  }

  /** Directories on the way to `p` change nothing for what it still needs. */
  lemma GrownRoom(t: Tree, t2: Tree, p: string)
    requires GrownByDirs(t, t2, Parent(p)) && p != ""
    ensures Room(t2, p) <==> Room(t, p)
    ensures FileOnTheWay(t2, Parent(p)) <==> FileOnTheWay(t, Parent(p))
  {
    hide Parent, OnTheWay;
    forall q | q in t2 && q !in t
      ensures q in Way(p)
    {
      WayUp(q, p);
    }
    assert t2.Keys + Way(p) == t.Keys + Way(p);
    assert forall q :: q in t2 && t2[q].File? <==> q in t && t[q].File?;
  }
}
