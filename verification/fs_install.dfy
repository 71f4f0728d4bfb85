/** What an archive has to be to become the file system at start-up, and the tree that it then
    becomes (clks_fs_init in clks/kernel/fs.c), whatever the order of its entries. */
module FsInstall {
  import opened Machine
  import opened Paths
  import opened FsTable
  import opened FsRoom

  const BARE: Tree := map["" := Dir]

  /** The tree with all missing directories on the way to `p`, and at `p`. */
  function WithDirs(t: Tree, p: string): Tree {
    (map q | q in Way(p) :: Dir) + t
  }

  /** Entry `e` can be added to tree `t`. */
  ghost predicate CanInstall(t: Tree, e: ImageEntry) {
    && PlainText(e.path) && Room(t, e.path)
    && if e.ImageDir? then !FileOnTheWay(t, e.path)
       else !FileOnTheWay(t, Parent(e.path)) && !(e.path in t && t[e.path] == Dir)
  }

  ghost function Install(t: Tree, e: ImageEntry): Option<Tree> {
    if !CanInstall(t, e) then None
    else if e.ImageDir? then Some(WithDirs(t, e.path))
    else Some(WithDirs(t, Parent(e.path))[e.path := File(e.bytes)])
  }

  /** The tree after all entries, unless one cannot be added. */
  ghost function InstallAll(es: seq<ImageEntry>): Option<Tree> {
    if es == [] then Some(BARE)
    else
      match InstallAll(es[..|es|-1])
      case None => None
      case Some(t) => Install(t, es[|es|-1])
  }

  lemma {:induction false} InstallFails(done: seq<ImageEntry>, rest: seq<ImageEntry>)
    requires InstallAll(done) == None
    ensures InstallAll(done + rest) == None
  {
    hide Install;
    if rest == [] {
      assert done + rest == done;
    } else {
      assert (done + rest)[..|done + rest|-1] == done + rest[..|rest|-1];
      InstallFails(done, rest[..|rest|-1]);
    }
  }

  lemma InstallNext(done: seq<ImageEntry>, e: ImageEntry)
    ensures InstallAll(done + [e]) == match InstallAll(done) { case None => None case Some(t) => Install(t, e) }
  {
    hide Install;
    assert (done + [e])[..|done|] == done;
  }

  // ----- the table does it -----

  /** A path of a tree without slashes at ends of paths has no empty component. */
  lemma {:induction false} PlainInTree(t: Tree, p: string)
    requires Rooted(t) && NoSlashEnds(t) && p in t && (p != "" ==> p[0] != '/')
    ensures PlainText(p)
    decreases |p|
  {
    if p != "" {
      var r := Parent(p);
      PlainInTree(t, r);
    }
  }

  lemma PlainUp(p: string)
    requires PlainText(p) && ImagePath(p)
    ensures PlainText(Parent(p)) && (Parent(p) != "" ==> Parent(p)[|Parent(p)|-1] != '/')
  {
  }

  /** A tree that has grown by directories on the way to `p`, and has them all. */
  lemma GrownIsWithDirs(t: Tree, t2: Tree, p: string)
    requires GrownByDirs(t, t2, p) && forall q :: OnTheWay(q, p) ==> q in t2
    ensures t2 == WithDirs(t, p)
  {
    hide OnTheWay;
  }

  lemma WrittenIsWithDirs(t: Tree, t2: Tree, p: string, data: seq<byte>)
    requires Written(t, t2, p, data) && forall q :: OnTheWay(q, Parent(p)) ==> q in t2
    ensures t2 == WithDirs(t, Parent(p))[p := File(data)]
  {
    hide OnTheWay;
  }

  /** What holds after a directory entry was added. */
  lemma DirInstalled(ns: seq<Node>, live: map<int, nat>, mem: seq<byte>, t: Tree, e: ImageEntry)
    requires Sound(ns, live) && NoSlashEnds(View(ns, mem)) && e.ImageDir? && ImagePath(e.path)
    requires GrownByDirs(t, View(ns, mem), e.path) && e.path in View(ns, mem) && View(ns, mem)[e.path] == Dir
    ensures Install(t, e) == Some(View(ns, mem))
  {
    hide View, OnTheWay, Sound, Rooted, PlainText, Room, NoSlashEnds, GrownByDirs;
    GrownHas(t, View(ns, mem), e.path);
    DirHadRoom(ns, live, mem, t, e.path);
    HadRoom(ns, live, mem, t, e.path);
    SoundIsRooted(ns, live, mem);
    PlainInTree(View(ns, mem), e.path);
    GrownIsWithDirs(t, View(ns, mem), e.path);
  }

  /** What holds after a file entry was added. */
  lemma FileInstalled(ns: seq<Node>, live: map<int, nat>, mem: seq<byte>, t: Tree, e: ImageEntry)
    requires Sound(ns, live) && NoSlashEnds(View(ns, mem)) && e.ImageFile? && ImagePath(e.path)
    requires Written(t, View(ns, mem), e.path, e.bytes) && !(e.path in t && t[e.path] == Dir)
    ensures Install(t, e) == Some(View(ns, mem))
  {
    hide View, OnTheWay, Sound, Rooted, PlainText, Room, NoSlashEnds, Parent, Written;
    var p := e.path;
    WriteHadRoom(ns, live, mem, t, p, e.bytes);
    WrittenHas(t, View(ns, mem), p, e.bytes);
    HadRoom(ns, live, mem, t, p);
    SoundIsRooted(ns, live, mem);
    PlainInTree(View(ns, mem), p);
    forall q | OnTheWay(q, Parent(p))
      ensures q in View(ns, mem)
    {
      WayUp(q, p);
    }
    WrittenIsWithDirs(t, View(ns, mem), p, e.bytes);
  }

  lemma GrownHas(t: Tree, t2: Tree, p: string)
    requires GrownByDirs(t, t2, p)
    ensures forall q :: q in t ==> q in t2
  {
  }

  lemma WrittenHas(t: Tree, t2: Tree, p: string, data: seq<byte>)
    requires Written(t, t2, p, data)
    ensures forall q :: q in t ==> q in t2
    ensures p in t2 && t2[p] == File(data)
  {
  }

  // ----- whatever the order -----

  /** All paths that the entries need. */
  function Ways(es: seq<ImageEntry>): (w: set<string>)
    ensures forall q :: q in w <==> exists e :: e in es && OnTheWay(q, e.path)
  {
    if es == [] then {}
    else
      var w := Ways(es[..|es|-1]) + Way(es[|es|-1].path);
      assert es == es[..|es|-1] + [es[|es|-1]];
      w
  }

  /** Entry `f` makes a file of a path that entry `e` needs as a directory. */
  predicate Clash(e: ImageEntry, f: ImageEntry) {
    f.ImageFile? && OnTheWay(f.path, e.path) && (f.path != e.path || e.ImageDir?)
  }

  ghost predicate NoClash(es: seq<ImageEntry>) {
    forall e, f :: e in es && f in es ==> !Clash(e, f)
  }

  /** The entries fit together: no path has an empty component, none is a file and a directory,
      and with the root there are no more than the table has nodes. */
  ghost predicate Fitting(es: seq<ImageEntry>) {
    && (forall e :: e in es ==> PlainText(e.path)) && NoClash(es)
    && |Ways(es) + {""}| <= MAX_NODES
  }

  /** Tree `t` is what the entries make of a tree that has only a root. */
  ghost predicate Unpacked(t: Tree, es: seq<ImageEntry>) {
    && t.Keys == Ways(es) + {""}
    && forall p :: FileAt(t, p) == LastImage(es, p)
  }

  lemma {:induction false} LastImageSome(es: seq<ImageEntry>, p: string)
    ensures LastImage(es, p).Some? <==> exists f :: f in es && f.ImageFile? && f.path == p
  {
    if es != [] {
      var front, last := es[..|es|-1], es[|es|-1];
      LastImageSome(front, p);
      assert es == front + [last];
    }
  }

  lemma WayDown(q: string, p: string)
    requires OnTheWay(q, p) && q != p
    ensures OnTheWay(q, Parent(p))
  {
  }

  /** A file on the way in the tree is a file entry on the way. */
  lemma FilesOf(t: Tree, es: seq<ImageEntry>, q: string)
    requires Unpacked(t, es)
    ensures q in t && t[q].File? <==> exists f :: f in es && f.ImageFile? && f.path == q
  {
    hide Ways;
    LastImageSome(es, q);
    assert FileAt(t, q) == LastImage(es, q);
  }

  lemma ClashNext(es: seq<ImageEntry>, e: ImageEntry)
    requires NoClash(es)
    ensures NoClash(es + [e]) <==> forall f :: f in es ==> !Clash(e, f) && !Clash(f, e)
  {
    hide OnTheWay;
    if NoClash(es + [e]) {
      forall f | f in es
        ensures !Clash(e, f) && !Clash(f, e)
      {
        assert f in es + [e] && e in es + [e];
      }
    }
  }

  /** Where a file is to be put there is a directory exactly when some entry needs one there. */
  lemma DirsOf(t: Tree, es: seq<ImageEntry>, e: ImageEntry)
    requires Unpacked(t, es) && NoClash(es) && e.ImageFile? && ImagePath(e.path)
    ensures e.path in t && t[e.path] == Dir <==> exists f :: f in es && Clash(f, e)
  {
    hide OnTheWay, LastImage;
    FilesOf(t, es, e.path);
    if e.path in t && t[e.path] == Dir {
      var f :| f in es && OnTheWay(e.path, f.path);
      assert Clash(f, e);
    }
    if g :| g in es && Clash(g, e) {
      assert e.path in Ways(es);
      forall f | f in es && f.ImageFile?
        ensures f.path != e.path
      {
        assert !Clash(g, f);
      }
    }
  }

  /** A file that is in the way of `e` is that of an entry that clashes with it. */
  lemma BlockedBy(t: Tree, es: seq<ImageEntry>, e: ImageEntry)
    requires Unpacked(t, es)
    ensures FileOnTheWay(t, if e.ImageDir? then e.path else Parent(e.path)) <==> exists f :: f in es && Clash(e, f)
  {
    hide OnTheWay, LastImage, Ways, Parent;
    var p := if e.ImageDir? then e.path else Parent(e.path);
    if FileOnTheWay(t, p) {
      var q :| q in t && t[q].File? && OnTheWay(q, p);
      FilesOf(t, es, q);
      var f :| f in es && f.ImageFile? && f.path == q;
      if e.ImageFile? { WayUp(q, e.path); }
      assert Clash(e, f);
    }
    if f :| f in es && Clash(e, f) {
      FilesOf(t, es, f.path);
      if e.ImageFile? { WayDown(f.path, e.path); }
      assert f.path in t && t[f.path].File? && OnTheWay(f.path, p);
    }
  }

  lemma WaysNext(es: seq<ImageEntry>, e: ImageEntry)
    ensures Ways(es + [e]) == Ways(es) + Way(e.path)
  {
    assert (es + [e])[..|es|] == es;
  }

  lemma FitsNext(t: Tree, es: seq<ImageEntry>, e: ImageEntry)
    requires Unpacked(t, es) && Fitting(es) && ImagePath(e.path)
    ensures CanInstall(t, e) <==> Fitting(es + [e])
  {
    hide OnTheWay, LastImage, Ways, Parent, PlainText, NoClash, Clash, FileOnTheWay;
    WaysNext(es, e);
    assert t.Keys + Way(e.path) == Ways(es + [e]) + {""};
    ClashNext(es, e);
    BlockedBy(t, es, e);
    if e.ImageFile? { DirsOf(t, es, e); } else { DirEntry(es, e); }
  }

  lemma DirEntry(es: seq<ImageEntry>, e: ImageEntry)
    requires e.ImageDir?
    ensures forall f :: f in es ==> !Clash(f, e)
  {
  }

  lemma UnpackedNext(t: Tree, es: seq<ImageEntry>, e: ImageEntry)
    requires Unpacked(t, es) && CanInstall(t, e) && ImagePath(e.path)
    ensures Unpacked(Install(t, e).value, es + [e])
  {
    hide LastImage, Ways, Install, CanInstall, FileAt;
    WaysNext(es, e);
    Installed(t, e);
    var r := Install(t, e).value;
    forall p
      ensures FileAt(r, p) == LastImage(es + [e], p)
    {
      assert FileAt(t, p) == LastImage(es, p);
      LastNext(es, e, p);
    }
  }

  lemma Installed(t: Tree, e: ImageEntry)
    requires CanInstall(t, e) && ImagePath(e.path)
    ensures Install(t, e).Some?
    ensures var r := Install(t, e).value;
            && r.Keys == t.Keys + Way(e.path)
            && forall p :: FileAt(r, p) == if e.ImageFile? && e.path == p then Some(e.bytes) else FileAt(t, p)
  {
    hide CanInstall, OnTheWay, Way, Parent;
    WayOf(e.path);
  }

  lemma LastNext(es: seq<ImageEntry>, e: ImageEntry, p: string)
    ensures LastImage(es + [e], p) == if e.ImageFile? && e.path == p then Some(e.bytes) else LastImage(es, p)
  {
    assert (es + [e])[..|es|] == es;
  }

  lemma WayOf(p: string)
    requires ImagePath(p)
    ensures Way(p) == Way(Parent(p)) + {p}
  {
    forall q | q in Way(p) && q != p
      ensures q in Way(Parent(p))
    {
      WayDown(q, p);
    }
  }

  lemma FittingFront(es: seq<ImageEntry>, e: ImageEntry)
    requires Fitting(es + [e])
    ensures Fitting(es)
  {
    hide OnTheWay, PlainText, Ways;
    WaysNext(es, e);
    SubsetSize(Ways(es) + {""}, Ways(es + [e]) + {""});
  }

  /** The entries can all be added, one after the other, if and only if they fit together; then
      the tree has exactly the paths that they need, and each file holds the bytes of the last
      entry for it. */
  lemma {:induction false} InstallExact(es: seq<ImageEntry>)
    requires forall e :: e in es ==> ImagePath(e.path)
    ensures InstallAll(es).Some? <==> Fitting(es)
    ensures InstallAll(es).Some? ==> Unpacked(InstallAll(es).value, es)
  {
    hide Fitting, Unpacked, CanInstall, ImagePath;
    if es == [] {
      NothingUnpacked();
    } else {
      var front, e := es[..|es|-1], es[|es|-1];
      assert es == front + [e];
      InstallExact(front);
      if InstallAll(front).Some? {
        FitsNext(InstallAll(front).value, front, e);
        if CanInstall(InstallAll(front).value, e) { UnpackedNext(InstallAll(front).value, front, e); }
      } else if Fitting(es) {
        FittingFront(front, e);
      }
    }
  }

  lemma NothingUnpacked()
    ensures Fitting([]) && Unpacked(BARE, [])
  {
  }
}
