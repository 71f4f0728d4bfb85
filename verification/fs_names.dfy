/** Which paths the file system takes for the same, and which it takes at all (clks/kernel/fs.c). */
module FsNames {
  import opened Machine
  import opened Paths
  import opened FsTable
  import opened Fs
  import opened Resolve

  /** A path from the root, as far as it has been read. */
  predicate FromRoot(a: string) {
    a == "" || a[0] == '/'
  }

  lemma Halves(a: string, m: string, b: string)
    requires FromRoot(a) && m != "" && m[0] == '/' && m[|m|-1] == '/'
    ensures Comps(a + m + b) == Comps(a) + Comps(m) + Comps(b) && (a + m + b)[0] == '/'
  {
    hide Comps;
    var c := m[..|m|-1];
    assert m == c + "/";
    JoinedComps(a + c, b);
    JoinedComps(c, "");
    NoComps();
    CompsOfTwo(a, m);
    assert a + m + b == a + c + "/" + b && m == c + "/" + "";
    if c == "" {
      assert a + c == a;
    } else {
      assert c[0] == m[0];
      CompsOfTwo(a, c);
    }
    assert Comps(c) + [] == Comps(c) && Comps(a) + [] == Comps(a);
  }

  /** One dot between slashes counts for nothing. */
  lemma DotsVanish(a: string, b: string, cap: nat)
    requires FromRoot(a)
    ensures NormalPath(a + "/./" + b, cap) == NormalPath(a + "/" + b, cap)
  {
    hide Comps, Join, NoDots;
    Halves(a, "/./", b);
    Halves(a, "/", b);
    DotComps();
    var x, y := Comps(a), Comps(b);
    NoDotsAppend(x + ["."], y);
    NoDotsAppend(x, ["."]);
    NoDotsAppend(x, y);
    DotGone();
    assert NoDots(x) + [] == NoDots(x) && x + [] + y == x + y;
    assert ".." in x + ["."] + y <==> ".." in x + y;
  }

  lemma DotComps()
    ensures Comps("/./") == ["."] && Comps("/") == [] && Comps("//") == [] && Comps("/../") == [".."]
  {
    hide Comps;
    NoComps();
    SkipSlash("/");
    SkipSlash("//");
    SkipSlash("/./");
    SkipSlash("/../");
    JoinedComps(".", "");
    JoinedComps("..", "");
    OneComp(".");
    OneComp("..");
    assert "/"[1..] == "" && "//"[1..] == "/" && "/./"[1..] == "." + "/" + "" && "/../"[1..] == ".." + "/" + "";
    assert ["."] + [] == ["."] && [".."] + [] == [".."];
  }

  lemma DotGone()
    ensures NoDots(["."]) == []
  {
    assert ["."][..0] == [];
  }

  /** So does a second slash. */
  lemma SlashesMerge(a: string, b: string, cap: nat)
    requires FromRoot(a)
    ensures NormalPath(a + "//" + b, cap) == NormalPath(a + "/" + b, cap)
  {
    hide Comps, Join, NoDots;
    Halves(a, "//", b);
    Halves(a, "/", b);
    DotComps();
  }

  /** A path with two dots between slashes is refused, wherever they are. */
  lemma DotDotRefused(a: string, b: string, cap: nat)
    requires FromRoot(a)
    ensures NormalPath(a + "/../" + b, cap) == None && NormalPath(a + "/..", cap) == None
  {
    hide Comps, Join, NoDots;
    Halves(a, "/../", b);
    DotComps();
    assert ".." in Comps(a) + [".."] + Comps(b) by { assert (Comps(a) + [".."] + Comps(b))[|Comps(a)|] == ".."; }
    JoinedComps(a, "..");
    OneComp("..");
    assert a + "/" + ".." == a + "/..";
    assert (Comps(a) + [".."])[|Comps(a)|] == "..";
  }

  /** So is one that does not begin with a slash. */
  lemma RelativeRefused(p: string, cap: nat)
    requires p == "" || p[0] != '/'
    ensures NormalPath(p, cap) == None
  {
  }

  /** The path of proper components is taken without its slash, exactly when that fits. */
  lemma CleanIsItself(cs: seq<string>, cap: nat)
    requires Clean(cs)
    ensures NormalPath(Absolute(cs), cap) == if |Join(cs)| < cap then Some(Join(cs)) else None
  {
    hide Comps, Join, NoDots;
    AbsoluteComps(cs);
    NoDotsOfClean(cs);
  }

  /** What can be changed is /temp and what is below it, and only the latter has files: the first
      component is all that counts, not the first letters. */
  lemma TempIsTemp(cs: seq<string>)
    requires Clean(cs)
    ensures InReach(Absolute(cs)) <==> |Join(cs)| < 192 && cs != [] && cs[0] == "temp"
    ensures CanName(Absolute(cs)) <==> |Join(cs)| < 192 && |cs| >= 2 && cs[0] == "temp"
  {
    hide Comps, Join, NoDots, NormalPath;
    CleanIsItself(cs, 192);
    if cs != [] {
      FirstOfJoin(cs);
      TempText(cs[0], Join(cs), |cs| >= 2);
    } else {
      assert Join(cs) == "" by { NothingJoined(); }
    }
  }

  /** A joined path is its first component, followed by a slash if there is another one. */
  lemma {:induction false} FirstOfJoin(cs: seq<string>)
    requires AreComps(cs) && cs != []
    ensures cs[0] <= Join(cs) && cs[0] != "" && '/' !in cs[0]
    ensures if |cs| == 1 then Join(cs) == cs[0] else |Join(cs)| > |cs[0]| && Join(cs)[|cs[0]|] == '/'
  {
    assert cs[0] in cs;
    if |cs| > 1 {
      var front := cs[..|cs|-1];
      assert forall c :: c in front ==> c in cs;
      FirstOfJoin(front);
    }
  }

  lemma TempText(c: string, p: string, more: bool)
    requires c <= p && c != "" && '/' !in c
    requires if more then |p| > |c| && p[|c|] == '/' else p == c
    ensures InTemp(p) <==> c == "temp"
    ensures IsTempFile(p) <==> c == "temp" && more
  {
    assert forall k :: 0 <= k < |c| ==> c[k] == p[k] && c[k] != '/';
  }
}
