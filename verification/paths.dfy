/** Slash-separated paths as every layer of the system reads them: a path is a list of
    components, whatever the number of slashes between them. */
module Paths {
  import opened Machine

  /** A component is a non-empty piece of text without a slash. */
  predicate IsComp(c: string) {
    c != "" && '/' !in c
  }

  ghost predicate AreComps(cs: seq<string>) {
    forall c :: c in cs ==> IsComp(c)
  }

  /** Length of the text before the first slash. */
  function CompLen(s: string): (n: nat)
    ensures n <= |s| && '/' !in s[..n] && (n < |s| ==> s[n] == '/')
  {
    if s == "" || s[0] == '/' then 0
    else
      var n := 1 + CompLen(s[1..]);
      assert s[..n] == [s[0]] + s[1..][..n-1];
      n
  }

  function Comps(s: string): (cs: seq<string>)
    ensures AreComps(cs)
    decreases |s|
  {
    if s == "" then []
    else if s[0] == '/' then Comps(s[1..])
    else [s[..CompLen(s)]] + Comps(s[CompLen(s)..])
  }

  function Join(cs: seq<string>): string {
    if cs == [] then ""
    else if |cs| == 1 then cs[0]
    else Join(cs[..|cs|-1]) + "/" + cs[|cs|-1]
  }

  lemma {:induction false} CompsOfTwo(a: string, b: string)
    requires b == "" || b[0] == '/'
    ensures Comps(a + b) == Comps(a) + Comps(b)
    decreases |a|
  {
    hide Comps;
    if a == "" {
      assert a + b == b;
      NoComps();
    } else if a[0] == '/' {
      assert (a + b)[1..] == a[1..] + b;
      SkipSlash(a);
      SkipSlash(a + b);
      CompsOfTwo(a[1..], b);
    } else {
      var n := CompLen(a);
      assert a == a + "" && a[n..] == a[n..] + "";
      FirstComp(a, a, "");
      CompsOfTwo(a[n..], b);
      FirstComp(a + b, a, b);
      assert [a[..n]] + (Comps(a[n..]) + Comps(b)) == ([a[..n]] + Comps(a[n..])) + Comps(b);
    }
  }

  lemma NoComps()
    ensures Comps("") == []
  {
  }

  lemma SkipSlash(s: string)
    requires s != "" && s[0] == '/'
    ensures Comps(s) == Comps(s[1..])
  {
  }

  lemma FirstComp(s: string, a: string, b: string)
    requires s == a + b && a != "" && a[0] != '/' && (b == "" || b[0] == '/')
    ensures var n := CompLen(a); Comps(s) == [a[..n]] + Comps(a[n..] + b)
  {
    var n := CompLen(a);
    assert s[..n] == a[..n];
    assert s[n..] == a[n..] + b;
  }

  lemma CompsOfOne(c: string)
    requires IsComp(c)
    ensures Comps(c) == [c]
  {
    assert c[..|c|] == c && Comps(c[|c|..]) == [];
  }

  /** Reading a path back gives the components it was joined from. */
  lemma {:induction false} CompsOfJoin(cs: seq<string>)
    requires AreComps(cs)
    ensures Comps(Join(cs)) == cs
  {
    if |cs| == 1 {
      CompsOfOne(cs[0]);
    } else if |cs| > 1 {
      var front, last := cs[..|cs|-1], cs[|cs|-1];
      CompsOfJoin(front);
      CompsOfTwo(Join(front), "/" + last);
      CompsOfOne(last);
      assert ("/" + last)[1..] == last;
      assert Join(cs) == Join(front) + ("/" + last);
      assert cs == front + [last];
    }
  }

  lemma JoinAppend(cs: seq<string>, c: string)
    ensures Join(cs + [c]) == if cs == [] then c else Join(cs) + "/" + c
  {
  }

  lemma {:induction false} JoinNonEmpty(cs: seq<string>)
    requires AreComps(cs) && cs != []
    ensures Join(cs) != "" && Join(cs)[0] != '/' && Join(cs)[|Join(cs)|-1] != '/'
  {
    if |cs| > 1 {
      JoinNonEmpty(cs[..|cs|-1]);
      var last := cs[|cs|-1];
      assert last in cs && last[|last|-1] in last;
    } else {
      assert cs[0] in cs && cs[0][0] in cs[0] && cs[0][|cs[0]|-1] in cs[0];
    }
  }

  /** The directory part: the text before the last slash, empty when there is none. */
  function Parent(p: string): (r: string)
    ensures |r| <= |p| && r == p[..|r|]
    ensures p != "" ==> |r| < |p|
    ensures r != "" ==> p[|r|] == '/'
    ensures forall k :: |r| < k < |p| ==> p[k] != '/'
  {
    if p == "" then "" else if p[|p|-1] == '/' then p[..|p|-1]
    else
      var q := p[..|p|-1];
      var r := Parent(q);
      assert forall k :: |r| < k < |q| ==> p[k] == q[k];
      r
  }

  // ----- scanning, as every layer does it -----

  /** Skips slashes from `i` on. */
  method SkipSlashes(path: string, i: nat) returns (j: nat)
    requires i <= |path|
    ensures i <= j <= |path| && (j < |path| ==> path[j] != '/')
    ensures Comps(path[j..]) == Comps(path[i..])
  {
    j := i;
    while j < |path| && path[j] == '/'
      invariant i <= j <= |path| && Comps(path[j..]) == Comps(path[i..])
    {
      SkipSlash(path[j..]);
      assert path[j..][1..] == path[j+1..];
      j := j + 1;
    }
  }

  /** Reads one component. */
  method ReadComp(path: string, i: nat) returns (j: nat)
    requires i < |path| && path[i] != '/'
    ensures i < j <= |path| && '/' !in path[i..j]
    ensures Comps(path[i..]) == [path[i..j]] + Comps(path[j..])
  {
    j := i;
    while j < |path| && path[j] != '/'
      invariant i <= j <= |path| && '/' !in path[i..j]
    {
      j := j + 1;
    }
    var rest := path[i..];
    assert rest[..j-i] == path[i..j] && rest[j-i..] == path[j..];
  }
}
