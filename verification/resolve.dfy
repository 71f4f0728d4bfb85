/** Path resolution against a current directory, written for user programs
    (cleonos/c/apps/cmd_runtime.c) and again in the kernel shell (clks/kernel/shell.c). */
module Resolve {
  import opened Machine
  import opened Paths
  import opened FsTable

  // ----- what is resolved -----

  /** One component on top of a directory. */
  function Enter(dir: seq<string>, c: string): seq<string> {
    if c == "." then dir
    else if c == ".." then if dir == [] then [] else dir[..|dir|-1]
    else dir + [c]
  }

  function Fold(dir: seq<string>, cs: seq<string>): seq<string> {
    if cs == [] then dir else Enter(Fold(dir, cs[..|cs|-1]), cs[|cs|-1])
  }

  function Absolute(dir: seq<string>): (p: string)
    ensures p != "" && p[0] == '/'
  {
    "/" + Join(dir)
  }

  /** No directory on the way is too long for a buffer of `size` characters. */
  predicate Fits(dir: seq<string>, cs: seq<string>, size: nat) {
    cs == [] || (Fits(dir, cs[..|cs|-1], size)
                 && (cs[|cs|-1] == "." || cs[|cs|-1] == ".." || |Absolute(Fold(dir, cs))| < size))
  }

  /** The components that are folded: those of the current directory, unless the argument is
      absolute, and then those of the argument. */
  function Walked(cwd: string, arg: string): seq<string> {
    if arg != "" && arg[0] == '/' then Comps(arg) else Comps(cwd) + Comps(arg)
  }

  /** The resolved path; None when some directory on the way does not fit. */
  function Resolved(cwd: string, arg: string, size: nat): Option<string> {
    if size >= 2 && Fits([], Walked(cwd, arg), size) then Some(Absolute(Fold([], Walked(cwd, arg)))) else None
  }

  // ----- clean directories -----

  /** Proper components without dots. */
  ghost predicate Clean(dir: seq<string>) {
    AreComps(dir) && "." !in dir && ".." !in dir
  }

  lemma {:induction false} FoldClean(dir: seq<string>, cs: seq<string>)
    requires Clean(dir) && AreComps(cs)
    ensures Clean(Fold(dir, cs))
  {
    if cs != [] {
      assert cs[|cs|-1] in cs;
      assert forall x :: x in cs[..|cs|-1] ==> x in cs;
      FoldClean(dir, cs[..|cs|-1]);
    }
  }

  /** Folding a clean list of components from the root gives it back. */
  lemma {:induction false} FoldOfClean(cs: seq<string>)
    requires Clean(cs)
    ensures Fold([], cs) == cs
  {
    if cs != [] {
      assert cs[|cs|-1] in cs;
      assert forall x :: x in cs[..|cs|-1] ==> x in cs;
      FoldOfClean(cs[..|cs|-1]);
    }
  }

  lemma {:induction false} CleanFits(cs: seq<string>, size: nat)
    requires Clean(cs) && |Absolute(cs)| < size
    ensures Fits([], cs, size)
  {
    if cs != [] {
      var front := cs[..|cs|-1];
      assert forall x :: x in front ==> x in cs;
      assert cs == front + [cs[|cs|-1]];
      JoinGrows(front, [cs[|cs|-1]]);
      CleanFits(front, size);
      FoldOfClean(cs);
    }
  }

  lemma AbsoluteComps(dir: seq<string>)
    requires AreComps(dir)
    ensures Comps(Absolute(dir)) == dir
  {
    var p := Absolute(dir);
    SkipSlash(p);
    assert p[1..] == Join(dir);
    CompsOfJoin(dir);
  }

  // ----- what callers rely on -----

  lemma ResolvedIsClean(cwd: string, arg: string, size: nat)
    requires Resolved(cwd, arg, size).Some?
    ensures var dir := Fold([], Walked(cwd, arg)); Clean(dir) && Resolved(cwd, arg, size) == Some(Absolute(dir))
  {
    FoldClean([], Walked(cwd, arg));
  }

  lemma {:induction false} FitsAtTheEnd(cs: seq<string>, size: nat)
    requires Fits([], cs, size) && size >= 2
    ensures |Absolute(Fold([], cs))| < size
  {
    if cs != [] {
      var front, c := cs[..|cs|-1], cs[|cs|-1];
      FitsAtTheEnd(front, size);
      var dir := Fold([], front);
      if c == ".." && dir != [] {
        assert dir == dir[..|dir|-1] + [dir[|dir|-1]];
        JoinGrows(dir[..|dir|-1], [dir[|dir|-1]]);
      }
    }
  }

  /** Resolving a resolved path, from any directory, changes nothing. */
  lemma Idempotent(cwd: string, arg: string, size: nat, cwd2: string)
    requires Resolved(cwd, arg, size).Some?
    ensures Resolved(cwd2, Resolved(cwd, arg, size).value, size) == Resolved(cwd, arg, size)
  {
    hide Fold, Fits, Join, Comps;
    var dir := Fold([], Walked(cwd, arg));
    ResolvedIsClean(cwd, arg, size);
    FitsAtTheEnd(Walked(cwd, arg), size);
    AbsoluteComps(dir);
    FoldOfClean(dir);
    CleanFits(dir, size);
  }

  lemma {:induction false} NoDotsOfClean(cs: seq<string>)
    requires Clean(cs)
    ensures NoDots(cs) == cs
  {
    if cs != [] {
      assert cs[|cs|-1] in cs;
      assert forall x :: x in cs[..|cs|-1] ==> x in cs;
      NoDotsOfClean(cs[..|cs|-1]);
    }
  }

  /** The file system takes a resolved path as the same path without its slash, if it fits. */
  lemma AcceptedByFs(cwd: string, arg: string, size: nat, cap: nat)
    requires Resolved(cwd, arg, size).Some? && |Resolved(cwd, arg, size).value| <= cap
    ensures NormalPath(Resolved(cwd, arg, size).value, cap) == Some(Resolved(cwd, arg, size).value[1..])
  {
    hide Fold, Fits, Join, Comps;
    var dir := Fold([], Walked(cwd, arg));
    ResolvedIsClean(cwd, arg, size);
    AbsoluteComps(dir);
    NoDotsOfClean(dir);
    assert Absolute(dir)[1..] == Join(dir);
  }

  /** ush_path_is_under_temp */
  predicate UnderTemp(path: string) {
    |path| >= 5 && path[..5] == "/temp" && (|path| == 5 || path[5] == '/')
  }

  /** The test of user programs and that of the file system agree on every resolved path. */
  lemma TempTestsAgree(cwd: string, arg: string, size: nat)
    requires Resolved(cwd, arg, size).Some?
    ensures var p := Resolved(cwd, arg, size).value; UnderTemp(p) <==> InTemp(p[1..])
  {
  }

  /** The parent of the root is the root, and leaving a directory that was entered comes back. */
  lemma UpUndoesDown(dir: seq<string>, c: string)
    requires Clean(dir) && IsComp(c) && c != "." && c != ".."
    ensures Fold(dir, [c, ".."]) == dir && Fold([], [".."]) == []
  {
    assert [c, ".."][..1] == [c] && [c][..0] == [] && [".."][..0] == [];
    assert (dir + [c])[..|dir|] == dir;
    assert Fold(dir, [c]) == Enter(Fold(dir, []), c);
    assert Fold([], [".."]) == Enter(Fold([], []), "..");
  }

  // ----- where an argument leads -----

  /** A relative argument starts from the current directory. */
  lemma RelativeFromCwd(cwd: string, arg: string, size: nat, cwd2: string)
    requires arg == "" || arg[0] != '/'
    ensures Resolved(cwd, arg, size) == Resolved(cwd2, "/" + cwd + "/" + arg, size)
    ensures cwd != "" && cwd[0] == '/' ==> Resolved(cwd, arg, size) == Resolved(cwd2, cwd + "/" + arg, size)
  {
    hide Comps, Fits, Fold;
    JoinedComps(cwd, arg);
    var whole := "/" + cwd + "/" + arg;
    SkipSlash(whole);
    assert whole[1..] == cwd + "/" + arg;
  }

  lemma JoinedComps(a: string, b: string)
    ensures Comps(a + "/" + b) == Comps(a) + Comps(b)
  {
    hide Comps;
    CompsOfTwo(a, "/" + b);
    SkipSlash("/" + b);
    assert ("/" + b)[1..] == b && a + "/" + b == a + ("/" + b);
  }

  /** An absolute one does not depend on it. */
  lemma AbsoluteFromRoot(cwd: string, arg: string, size: nat, cwd2: string)
    requires arg != "" && arg[0] == '/'
    ensures Resolved(cwd, arg, size) == Resolved(cwd2, arg, size)
  {
  }

  /** A directory as it is in a current directory or an absolute argument. */
  lemma FromClean(d: seq<string>, arg: string, size: nat)
    requires Clean(d) && |Absolute(d)| < size && (arg == "" || arg[0] != '/')
    ensures Resolved(Absolute(d), arg, size)
         == if size >= 2 && Fits(d, Comps(arg), size) then Some(Absolute(Fold(d, Comps(arg)))) else None
  {
    hide Comps, Fits, Fold, Absolute;
    AbsoluteComps(d);
    CleanFits(d, size);
    FoldOfClean(d);
    FoldOn([], d, Comps(arg), size);
  }

  lemma OneComp(c: string)
    requires IsComp(c)
    ensures Comps(c) == [c]
  {
    assert CompLen(c) == |c|;
    assert c[..|c|] == c && c[|c|..] == "";
  }

  /** From a directory, the name of an entry leads there, if that fits. */
  lemma Down(d: seq<string>, c: string, size: nat)
    requires Clean(d) && |Absolute(d)| < size && IsComp(c) && c != "." && c != ".."
    ensures Resolved(Absolute(d), c, size) == if |Absolute(d + [c])| < size then Some(Absolute(d + [c])) else None
  {
    hide Comps, Absolute, Join;
    OneComp(c);
    FromClean(d, c, size);
    FoldNone(d, size);
    FoldNext(d, [], c, size);
    assert [] + [c] == [c];
    RootFits(d, size);
  }

  lemma RootFits(d: seq<string>, size: nat)
    requires |Absolute(d)| < size
    ensures size >= 2
  {
  }

  /** Two dots lead to the directory above, or stay in the root. */
  lemma Up(d: seq<string>, size: nat)
    requires Clean(d) && |Absolute(d)| < size
    ensures Resolved(Absolute(d), "..", size) == Some(Absolute(if d == [] then [] else d[..|d|-1]))
  {
    hide Comps, Absolute, Join;
    OneComp("..");
    FromClean(d, "..", size);
    FoldNone(d, size);
    FoldNext(d, [], "..", size);
    assert [] + [".."] == [".."];
    RootFits(d, size);
  }

  /** One dot, or no argument at all, leads nowhere else. */
  lemma Stay(d: seq<string>, size: nat)
    requires Clean(d) && |Absolute(d)| < size
    ensures Resolved(Absolute(d), ".", size) == Resolved(Absolute(d), "", size) == Some(Absolute(d))
  {
    hide Comps, Absolute, Join;
    OneComp(".");
    NoComps();
    FromClean(d, ".", size);
    FromClean(d, "", size);
    FoldNone(d, size);
    FoldNext(d, [], ".", size);
    assert [] + ["."] == ["."];
    RootFits(d, size);
  }

  /** A path is resolved step by step: a part behind a slash is resolved from where the part in
      front of it leads. */
  lemma StepByStep(cwd: string, a: string, b: string, size: nat)
    requires b == "" || b[0] != '/'
    ensures Resolved(cwd, a + "/" + b, size)
         == if a == "" then Resolved("/", b, size)
            else if Resolved(cwd, a, size) == None then None
            else Resolved(Resolved(cwd, a, size).value, b, size)
  {
    hide Comps, Fits, Fold, Absolute, Join;
    JoinedComps(a, b);
    NoComps();
    if a == "" {
      SkipSlash("/");
      assert "/"[1..] == "";
    } else {
      var cs := Walked(cwd, a);
      assert Walked(cwd, a + "/" + b) == cs + Comps(b);
      FoldOn([], cs, Comps(b), size);
      if Resolved(cwd, a, size).Some? {
        ResolvedIsClean(cwd, a, size);
        FitsAtTheEnd(cs, size);
        FromClean(Fold([], cs), b, size);
      }
    }
  }

  // ----- the resolver, on a character buffer -----

  const NUL: char := 0 as char

  /** The buffer holds directory `dir` and a terminator. */
  ghost predicate HoldsDir(path: array<char>, size: nat, len: nat, dir: seq<string>)
    reads path
  {
    1 <= len < size <= path.Length && path[..len] == Absolute(dir) && path[len] == NUL
  }

  lemma AbsolutePush(dir: seq<string>, c: string)
    requires Clean(dir)
    ensures Absolute(dir + [c]) == if dir == [] then "/" + c else Absolute(dir) + "/" + c
    ensures |Absolute(dir)| == 1 <==> dir == []
  {
    hide Join;
    JoinAppend(dir, c);
    if dir != [] { JoinNonEmpty(dir); } else { NothingJoined(); }
  }

  lemma NothingJoined()
    ensures Join([]) == ""
  {
  }

  /** ush_path_push_component */
  method PushComponent(path: array<char>, size: nat, len: nat, comp: string, ghost dir: seq<string>) returns (ok: bool, len2: nat)
    requires Clean(dir) && IsComp(comp) && HoldsDir(path, size, len, dir)
    modifies path
    ensures ok == (|Absolute(dir + [comp])| < size)
    ensures ok ==> HoldsDir(path, size, len2, dir + [comp])
    ensures !ok ==> len2 == len && path[..] == old(path[..])
    ensures forall k :: 0 <= k < path.Length && (k > len2 || k >= size) ==> path[k] == old(path[k])
  {
    hide Join, Absolute;
    AbsolutePush(dir, comp);
    RootText();
    ghost var text := path[..len];
    var start := len;
    if len == 1 {
      if len + |comp| >= size {
        return false, len;
      }
    } else {
      if len + 1 + |comp| >= size {
        return false, len;
      }
      path[len] := '/';
      start := len + 1;
    }

    ghost var before := path[..start];
    var i := 0;
    while i < |comp|
      invariant i <= |comp| && path[..start] == before && path[start..start+i] == comp[..i]
      invariant forall k :: start + i <= k < path.Length ==> path[k] == old(path[k])
    {
      path[start+i] := comp[i];
      i := i + 1;
    }
    len2 := start + |comp|;
    path[len2] := NUL;
    assert path[..len2] == before + comp;
    assert before == if len == 1 then text else text + "/";
    ok := true;
  }

  /** clks_shell_path_push_component, the kernel shell's copy, which copies with memcpy; the rest of
      its resolver is the same text as that of user programs. */
  method ShellPushComponent(path: array<char>, size: nat, len: nat, comp: string, ghost dir: seq<string>) returns (ok: bool, len2: nat)
    requires Clean(dir) && IsComp(comp) && HoldsDir(path, size, len, dir)
    modifies path
    ensures ok == (|Absolute(dir + [comp])| < size)
    ensures ok ==> HoldsDir(path, size, len2, dir + [comp])
    ensures !ok ==> len2 == len && path[..] == old(path[..])
    ensures forall k :: 0 <= k < path.Length && (k > len2 || k >= size) ==> path[k] == old(path[k])
  {
    hide Join, Absolute;
    AbsolutePush(dir, comp);
    RootText();
    ghost var text := path[..len];
    if len == 1 {
      if len + |comp| >= size {
        return false, len;
      }
      forall k | 0 <= k < |comp| { path[1+k] := comp[k]; }
      len2 := 1 + |comp|;
      path[len2] := NUL;
      assert path[..len2] == text + comp;
      return true, len2;
    }
    if len + 1 + |comp| >= size {
      return false, len;
    }
    path[len] := '/';
    forall k | 0 <= k < |comp| { path[len+1+k] := comp[k]; }
    len2 := len + 1 + |comp|;
    path[len2] := NUL;
    assert path[..len2] == text + "/" + comp;
    ok := true;
  }

  lemma RootText()
    ensures Absolute([]) == "/"
  {
  }

  /** ush_path_pop_component */
  method PopComponent(path: array<char>, size: nat, len: nat, ghost dir: seq<string>) returns (len2: nat)
    requires Clean(dir) && HoldsDir(path, size, len, dir)
    modifies path
    ensures HoldsDir(path, size, len2, Enter(dir, ".."))
    ensures forall k :: 0 <= k < path.Length && k != len2 ==> path[k] == old(path[k])
    ensures forall k :: size <= k < path.Length ==> path[k] == old(path[k])
  {
    hide Join, Absolute;
    AbsolutePush(dir, "");
    RootText();
    if len <= 1 {
      path[0] := '/';
      path[1] := NUL;
      assert path[..1] == "/";
      return 1;
    }

    LastComp(dir);
    ghost var text, stop := path[..len], len - |dir[|dir|-1]|;
    assert path[stop-1] == text[stop-1] == '/' && forall k :: stop <= k < len ==> path[k] == text[stop..][k-stop] != '/';
    len2 := len;
    while len2 > 1 && path[len2-1] != '/'
      invariant stop <= len2 <= len && path[..] == old(path[..])
    {
      len2 := len2 - 1;
    }
    if len2 > 1 {
      len2 := len2 - 1;
    }
    path[len2] := NUL;
    assert path[..len2] == text[..len2];
  }

  /** A path ends with a slash and its last component. */
  lemma LastComp(dir: seq<string>)
    requires Clean(dir) && dir != []
    ensures var p, last := Absolute(dir), dir[|dir|-1]; var stop := |p| - |last|;
            && 1 <= stop < |p| && p[stop-1] == '/' && p[stop..] == last && '/' !in last
            && Absolute(dir[..|dir|-1]) == (if stop == 1 then p[..1] else p[..stop-1]) && Clean(dir[..|dir|-1])
  {
    hide Join, Absolute;
    var front, last := dir[..|dir|-1], dir[|dir|-1];
    assert dir == front + [last] && last in dir;
    assert forall x :: x in front ==> x in dir;
    AbsolutePush(front, last);
    RootText();
  }

  lemma {:induction false} FoldOn(dir: seq<string>, a: seq<string>, b: seq<string>, size: nat)
    ensures Fold(dir, a + b) == Fold(Fold(dir, a), b)
    ensures Fits(dir, a + b, size) <==> Fits(dir, a, size) && Fits(Fold(dir, a), b, size)
  {
    if b == [] {
      assert a + b == a;
    } else {
      assert (a + b)[..|a|+|b|-1] == a + b[..|b|-1];
      FoldOn(dir, a, b[..|b|-1], size);
    }
  }

  lemma FoldNext(dir: seq<string>, done: seq<string>, c: string, size: nat)
    ensures Fold(dir, done + [c]) == Enter(Fold(dir, done), c)
    ensures Fits(dir, done + [c], size)
       <==> Fits(dir, done, size) && (c == "." || c == ".." || |Absolute(Enter(Fold(dir, done), c))| < size)
  {
  }

  lemma FoldNone(dir: seq<string>, size: nat)
    ensures Fold(dir, []) == dir && Fits(dir, [], size)
  {
  }

  /** ush_path_parse_into */
  method ParseInto(src: string, path: array<char>, size: nat, len: nat, ghost dir: seq<string>) returns (ok: bool, len2: nat)
    requires Clean(dir) && HoldsDir(path, size, len, dir)
    modifies path
    ensures ok == Fits(dir, Comps(src), size)
    ensures ok ==> HoldsDir(path, size, len2, Fold(dir, Comps(src)))
    ensures forall k :: size <= k < path.Length ==> path[k] == old(path[k])
  {
    hide Join, Absolute, Fold, Fits, Comps, Enter, HoldsDir;
    len2 := len;
    var i := 0;
    assert src[0..] == src;
    if src != "" && src[0] == '/' {
      SkipSlash(src);
      i := 1;
    }

    ghost var done: seq<string> := [];
    FoldNone(dir, size);
    while i < |src|
      invariant i <= |src| && Comps(src) == done + Comps(src[i..]) && AreComps(done)
      invariant Fits(dir, done, size) && HoldsDir(path, size, len2, Fold(dir, done))
      invariant forall k :: size <= k < path.Length ==> path[k] == old(path[k])
    {
      i := SkipSlashes(src, i);
      if i == |src| {
        break;
      }
      var start := i;
      i := ReadComp(src, i);
      var comp := src[start..i];
      FoldClean(dir, done);
      FoldNext(dir, done, comp, size);
      FoldOn(dir, done + [comp], Comps(src[i..]), size);
      Named(comp);
      ghost var was := done;
      done := done + [comp];
      assert Comps(src) == done + Comps(src[i..]);
      if |comp| == 1 && comp[0] == '.' {
        Entering(Fold(dir, was), comp);
        continue;
      }
      if |comp| == 2 && comp[0] == '.' && comp[1] == '.' {
        len2 := PopComponent(path, size, len2, Fold(dir, was));
        continue;
      }
      Entering(Fold(dir, was), comp);
      ok, len2 := PushComponent(path, size, len2, comp, Fold(dir, was));
      if !ok {
        return;
      }
    }
    NoComps();
    assert src[i..] == "" && done + [] == done;
    ok := true;
  }

  lemma Named(comp: string)
    ensures |comp| == 1 && comp[0] == '.' <==> comp == "."
    ensures |comp| == 2 && comp[0] == '.' && comp[1] == '.' <==> comp == ".."
  {
  }

  lemma Entering(dir: seq<string>, comp: string)
    ensures comp == "." ==> Enter(dir, comp) == dir
    ensures comp != "." && comp != ".." ==> Enter(dir, comp) == dir + [comp]
  {
  }

  /** ush_resolve_path */
  method ResolvePath(cwd: string, arg: string, path: array<char>, size: nat) returns (ok: bool, ghost len: nat)
    requires size <= path.Length
    modifies path
    ensures ok == Resolved(cwd, arg, size).Some?
    ensures ok ==> len < size && path[..len] == Resolved(cwd, arg, size).value && path[len] == NUL
    ensures forall k :: size <= k < path.Length ==> path[k] == old(path[k])
  {
    hide Join, Absolute, Fold, Fits, Comps;
    if size < 2 {
      return false, 0;
    }
    path[0], path[1] := '/', NUL;
    RootText();
    assert path[..1] == "/";
    FoldNone([], size);
    NoComps();
    assert Clean([]) && Comps(cwd) + [] == Comps(cwd);
    if arg == "" {
      ok, len := ParseInto(cwd, path, size, 1, []);
      return;
    }
    var n := 1;
    ghost var dir: seq<string> := [];
    if arg[0] != '/' {
      FoldOn([], Comps(cwd), Comps(arg), size);
      FoldClean([], Comps(cwd));
      ok, n := ParseInto(cwd, path, size, n, []);
      if !ok {
        return false, 0;
      }
      dir := Fold([], Comps(cwd));
    }
    ok, len := ParseInto(arg, path, size, n, dir);
  }
}
