/** A writer of ustar archives, against which the reader of the boot image is checked. */
module RamdiskWrite {
  import opened Machine
  import opened FsTable
  import opened Splice
  import opened Ramdisk

  /** `w` octal digits of a number. */
  function OctalDigits(n: nat, w: nat): (ds: seq<byte>)
    ensures |ds| == w && forall k :: 0 <= k < w ==> 48 <= ds[k] <= 55
  {
    if w == 0 then [] else OctalDigits(n / 8, w - 1) + [(48 + n % 8) as byte]
  }

  function Pow8(w: nat): nat {
    if w == 0 then 1 else 8 * Pow8(w - 1)
  }

  /** The number that reading `ds` after `value` leads to. */
  function Read(value: nat, ds: seq<byte>): nat
    requires forall k :: 0 <= k < |ds| ==> 48 <= ds[k] <= 55
  {
    if ds == [] then value else Read(value, ds[..|ds|-1]) * 8 + (ds[|ds|-1] as nat - 48)
  }

  lemma {:induction false} ReadDigits(n: nat, w: nat)
    requires n < Pow8(w)
    ensures Read(0, OctalDigits(n, w)) == n
  {
    if w > 0 {
      ReadDigits(n / 8, w - 1);
      assert OctalDigits(n, w)[..w-1] == OctalDigits(n / 8, w - 1);
    }
  }

  lemma {:induction false} OctalReads(f: seq<byte>, i: nat, j: nat, value: nat)
    requires i <= j <= |f| && forall k :: i <= k < j ==> 48 <= f[k] <= 55
    requires value < U64 && Read(value, f[i..j]) < U64
    ensures OctalFrom(f, i, value) == OctalFrom(f, j, Read(value, f[i..j]))
    decreases j - i
  {
    if i < j {
      assert f[i..j][..j-1-i] == f[i..j-1];
      assert Read(value, f[i..j]) == Read(value, f[i..j-1]) * 8 + (f[j-1] as nat - 48);
      OctalReads(f, i, j - 1, value);
    } else {
      assert f[i..j] == [];
    }
  }

  /** Eleven digits and a terminator are read back. */
  lemma SizeReadsBack(n: nat)
    requires n < Pow8(11)
    ensures Octal(OctalDigits(n, 11) + [0]) == Some(n)
  {
    hide OctalDigits, Read;
    var f := OctalDigits(n, 11) + [0];
    assert f[0..11] == OctalDigits(n, 11);
    ReadDigits(n, 11);
    OctalReads(f, 0, 11, 0);
  }

  /** Blanks are passed over, and digits are read up to where they end. */
  lemma OctalUpTo(f: seq<byte>, p: nat, q: nat)
    requires p <= q <= |f| && (p < |f| ==> f[p] != 32 && f[p] != 0)
    requires (forall k :: 0 <= k < p ==> f[k] == 32 || f[k] == 0) && forall k :: p <= k < q ==> 48 <= f[k] <= 55
    requires Read(0, f[p..q]) < U64
    ensures Octal(f) == OctalFrom(f, q, Read(0, f[p..q]))
  {
    hide Read, OctalFrom;
    assert BlankEnd(f) == p;
    OctalReads(f, p, q, 0);
  }

  /** A field in three parts. */
  lemma FieldParts(pad: seq<byte>, ds: seq<byte>, rest: seq<byte>)
    requires (forall k :: 0 <= k < |pad| ==> pad[k] == 32 || pad[k] == 0) && forall k :: 0 <= k < |ds| ==> 48 <= ds[k] <= 55
    ensures var f, p, q := pad + ds + rest, |pad|, |pad| + |ds|;
            && (forall k :: 0 <= k < p ==> f[k] == 32 || f[k] == 0) && (forall k :: p <= k < q ==> 48 <= f[k] <= 55)
            && f[p..q] == ds && (rest != [] ==> f[q] == rest[0]) && |f| == q + |rest|
  {
  }

  /** Any octal digits are read, behind any number of blanks, up to the end of the field or another
      blank, whatever follows that. */
  lemma OctalAccepts(pad: seq<byte>, ds: seq<byte>, rest: seq<byte>)
    requires (forall k :: 0 <= k < |pad| ==> pad[k] == 32 || pad[k] == 0) && forall k :: 0 <= k < |ds| ==> 48 <= ds[k] <= 55
    requires (rest == [] || rest[0] == 32 || rest[0] == 0) && (ds == [] ==> rest == []) && Read(0, ds) < U64
    ensures Octal(pad + ds + rest) == Some(Read(0, ds))
  {
    hide Read, Octal;
    FieldParts(pad, ds, rest);
    OctalUpTo(pad + ds + rest, |pad|, |pad| + |ds|);
  }

  /** Any other character among them makes the field malformed. */
  lemma OctalRejects(pad: seq<byte>, ds: seq<byte>, rest: seq<byte>)
    requires (forall k :: 0 <= k < |pad| ==> pad[k] == 32 || pad[k] == 0) && forall k :: 0 <= k < |ds| ==> 48 <= ds[k] <= 55
    requires rest != [] && rest[0] != 32 && rest[0] != 0 && (rest[0] < 48 || rest[0] > 55) && Read(0, ds) < U64
    ensures Octal(pad + ds + rest) == None
  {
    hide Read, Octal;
    FieldParts(pad, ds, rest);
    OctalUpTo(pad + ds + rest, |pad|, |pad| + |ds|);
  }

  /** Leading slashes and dot-slashes go, and trailing slashes, and nothing else. */
  lemma PathsStripped(s: string)
    ensures StripLead("/" + s) == StripLead("./" + s) == StripLead(s) && StripTrail(s + "/") == StripTrail(s)
    ensures s != "" && s[0] != '/' && s[0] != '.' ==> StripLead(s) == s
    ensures s != "" && s[|s|-1] != '/' ==> StripTrail(s) == s
    ensures |s| >= 2 && s[0] == '.' && s[1] != '/' ==> StripLead(s) == s
  {
    hide StripLead, StripTrail;
    StripLeadStep("/" + s);
    StripLeadStep("./" + s);
    StripLeadStep(s);
    StripTrailStep(s + "/");
    StripTrailStep(s);
    assert ("/" + s)[1..] == s && ("./" + s)[2..] == s && (s + "/")[..|s|] == s;
  }

  /** Type 5 is a directory, no type or 0 a file, and entries of any other type, or without a usable
      path, are passed over. */
  lemma EntryKinds(h: seq<byte>, contents: seq<byte>)
    requires |h| == BLOCK
    ensures Announced(h, contents)
         == if PathOf(h) == None then None
            else if h[156] == '5' as byte then Some(ImageDir(PathOf(h).value))
            else if h[156] == '0' as byte || h[156] == 0 then Some(ImageFile(PathOf(h).value, contents))
            else None
  {
  }

  // ----- entries -----

  function ContentsOf(e: ImageEntry): seq<byte> {
    if e.ImageFile? then e.bytes else []
  }

  /** The first slash from `i` on, or the length. */
  function SlashFrom(s: string, i: nat): (k: nat)
    requires i <= |s|
    ensures i <= k <= |s| && (k < |s| ==> s[k] == '/')
    decreases |s| - i
  {
    if i == |s| || s[i] == '/' then i else SlashFrom(s, i + 1)
  }

  /** Where a path is cut into prefix and name: nowhere when the name field holds it. */
  function Cut(path: string): (k: nat)
    ensures k <= |path| && (0 < k < |path| ==> path[k] == '/' && |path| - k - 1 <= 100)
  {
    if |path| <= 100 then 0 else SlashFrom(path, |path| - 101)
  }

  function PrefixPart(path: string): string {
    path[..Cut(path)]
  }

  function NamePart(path: string): string {
    if Cut(path) == 0 then path else if Cut(path) < |path| then path[Cut(path)+1..] else ""
  }

  /** Entries that a header can hold: the path fits the name field, or can be cut so that its parts
      fit name and prefix. */
  predicate Storable(e: ImageEntry) {
    && 0 < |e.path| < RAW_MAX && ImagePath(e.path) && StripLead(e.path) == e.path
    && (|e.path| <= 100 || 0 < Cut(e.path) <= 155) && Cut(e.path) < |e.path|
    && (forall k :: 0 <= k < |e.path| ==> 0 < e.path[k] as nat < 0x100)
    && |ContentsOf(e)| < Pow8(11)
  }

  lemma PartsOf(e: ImageEntry)
    requires Storable(e)
    ensures var prefix, name := PrefixPart(e.path), NamePart(e.path);
            && |prefix| <= 155 && 0 < |name| <= 100
            && (forall k :: 0 <= k < |prefix| ==> 0 < prefix[k] as nat < 0x100)
            && (forall k :: 0 <= k < |name| ==> 0 < name[k] as nat < 0x100)
            && e.path == (if prefix == "" then "" else prefix + "/") + name
  {
    hide StripLead, Pow8;
    var k := Cut(e.path);
    if 0 < k < |e.path| {
      assert e.path == e.path[..k] + [e.path[k]] + e.path[k+1..];
      assert k < |e.path| - 1;
    }
  }

  function NameBytes(s: string): (bs: seq<byte>)
    requires forall k :: 0 <= k < |s| ==> 0 < s[k] as nat < 0x100
    ensures |bs| == |s| && forall k :: 0 <= k < |bs| ==> bs[k] == s[k] as byte && bs[k] != 0
  {
    seq(|s|, i requires 0 <= i < |s| => s[i] as byte)
  }

  function Header(e: ImageEntry): (h: seq<byte>)
    requires Storable(e)
    ensures |h| == BLOCK
  {
    PartsOf(e);
    var prefix, name := PrefixPart(e.path), NamePart(e.path);
    NameBytes(name) + Zeros(124 - |name|) + OctalDigits(|ContentsOf(e)|, 11) + Zeros(21)
      + [if e.ImageDir? then 53 else 48] + Zeros(188) + NameBytes(prefix) + Zeros(167 - |prefix|)
  }

  function Stored(e: ImageEntry): seq<byte>
    requires Storable(e)
  {
    Header(e) + ContentsOf(e) + Zeros(Padded(|ContentsOf(e)|) - |ContentsOf(e)|)
  }

  /** The archive of some entries, with two empty blocks at its end. */
  function Archive(es: seq<ImageEntry>): seq<byte>
    requires forall e :: e in es ==> Storable(e)
  {
    if es == [] then Zeros(2 * BLOCK) else Stored(es[0]) + Archive(es[1..])
  }

  lemma HeaderFields(e: ImageEntry)
    requires Storable(e)
    ensures var h, prefix, name := Header(e), PrefixPart(e.path), NamePart(e.path);
            && |prefix| <= 155 && 0 < |name| <= 100
            && (forall k :: 0 <= k < |prefix| ==> 0 < prefix[k] as nat < 0x100)
            && (forall k :: 0 <= k < |name| ==> 0 < name[k] as nat < 0x100)
            && h[124..136] == OctalDigits(|ContentsOf(e)|, 11) + [0] && h[156] == (if e.ImageDir? then 53 else 48)
            && h[0..|name|] == NameBytes(name) && (forall k :: |name| <= k < 100 ==> h[k] == 0)
            && h[345..345+|prefix|] == NameBytes(prefix) && (forall k :: 345 + |prefix| <= k < 500 ==> h[k] == 0)
            && !ZeroBlock(h)
  {
    hide Storable, PrefixPart, NamePart, OctalDigits;
    PartsOf(e);
    var h, name, prefix := Header(e), NameBytes(NamePart(e.path)), NameBytes(PrefixPart(e.path));
    var size, kind := OctalDigits(|ContentsOf(e)|, 11), if e.ImageDir? then 53 else 48;
    var a := name + Zeros(124 - |name|);
    var b := a + size + Zeros(21) + [kind] + Zeros(188);
    assert h == b + prefix + Zeros(167 - |prefix|);
    assert |a| == 124 && |b| == 345 && b[124..136] == size + [0] && b[156] == kind;
    assert h[..345] == b && h[0] == name[0];
  }

  /** A name that is padded with zeros, or fills its field. */
  lemma NameReadsBack(f: seq<byte>, path: string)
    requires |path| <= |f| && forall k :: 0 <= k < |path| ==> 0 < path[k] as nat < 0x100
    requires f[0..|path|] == NameBytes(path) && forall k :: |path| <= k < |f| ==> f[k] == 0
    ensures FieldText(f) == path
  {
    assert forall k :: 0 <= k < |path| ==> f[k] == f[0..|path|][k];
    FieldLenIs(f, |path|);
  }

  lemma PathReadsBack(e: ImageEntry)
    requires Storable(e)
    ensures PathOf(Header(e)) == Some(e.path)
  {
    hide Header, OctalDigits, Pow8, StripTrail, StripLead, FieldText, NameBytes, Octal, ZeroBlock, PrefixPart, NamePart, Cut;
    PartsOf(e);
    HeaderFields(e);
    var h, prefix, name := Header(e), PrefixPart(e.path), NamePart(e.path);
    FieldAt(h, 0, 100, name);
    FieldAt(h, 345, 500, prefix);
    NoTrail(e.path);
  }

  /** A field of a header that holds `text`. */
  lemma FieldAt(h: seq<byte>, from: nat, to: nat, text: string)
    requires from + |text| <= to <= |h| && forall k :: 0 <= k < |text| ==> 0 < text[k] as nat < 0x100
    requires h[from..from+|text|] == NameBytes(text) && forall k :: from + |text| <= k < to ==> h[k] == 0
    ensures FieldText(h[from..to]) == text
  {
    hide FieldText;
    var f := h[from..to];
    assert f[0..|text|] == h[from..from+|text|];
    NameReadsBack(f, text);
  }

  lemma NoTrail(s: string)
    requires ImagePath(s)
    ensures StripTrail(s) == s
  {
  }

  /** The reader finds exactly the entries that were written. */
  lemma {:induction false} ArchiveReadsBack(before: seq<byte>, es: seq<ImageEntry>)
    requires forall e :: e in es ==> Storable(e)
    ensures Entries(before + Archive(es), |before|) == Some(es)
    decreases |es|
  {
    hide Storable, Stored, PathOf, Announced, Octal, Padded, ContentsOf, Entries, ZeroBlock;
    var image := before + Archive(es);
    if es == [] {
      EndReadsBack(before);
    } else {
      var e := es[0];
      assert e in es && forall x :: x in es[1..] ==> x in es;
      var next := before + Stored(e);
      assert image == next + Archive(es[1..]);
      ArchiveReadsBack(next, es[1..]);
      EntryReadsBack(before, e, Archive(es[1..]));
      assert image == before + (Stored(e) + Archive(es[1..]));
      OneMore(image, |before|, e, |ContentsOf(e)|, es[1..]);
      assert [e] + es[1..] == es;
    }
  }

  lemma OneMore(image: seq<byte>, at: nat, e: ImageEntry, size: nat, rest: seq<ImageEntry>)
    requires at + BLOCK + Padded(size) <= |image| && !ZeroBlock(image[at..at+BLOCK])
    requires Octal(image[at..at+BLOCK][124..136]) == Some(size)
    requires Announced(image[at..at+BLOCK], image[at+BLOCK..at+BLOCK+size]) == Some(e)
    requires Entries(image, at + BLOCK + Padded(size)) == Some(rest)
    ensures Entries(image, at) == Some([e] + rest)
  {
    hide ZeroBlock, Octal, Announced, Padded;
    var from := at + BLOCK;
    assert size <= |image| - from && Entries(image, from + Padded(size)) == Some(rest);
  }

  lemma EndReadsBack(before: seq<byte>)
    ensures Entries(before + Zeros(2 * BLOCK), |before|) == Some([])
  {
  }

  lemma SizeFits(e: ImageEntry)
    requires Storable(e)
    ensures |ContentsOf(e)| < Pow8(11)
  {
  }

  lemma Pieces(before: seq<byte>, header: seq<byte>, contents: seq<byte>, gap: seq<byte>, after: seq<byte>)
    ensures var image, at := before + (header + contents + gap + after), |before|;
            && at + |header| + |contents| + |gap| == |before + (header + contents + gap)| <= |image|
            && image[at..at+|header|] == header && image[at+|header|..at+|header|+|contents|] == contents
  {
  }

  lemma EntryReadsBack(before: seq<byte>, e: ImageEntry, after: seq<byte>)
    requires Storable(e)
    ensures var image := before + (Stored(e) + after); var at := |before|;
            && at + BLOCK + Padded(|ContentsOf(e)|) == |before + Stored(e)| <= |image|
            && !ZeroBlock(image[at..at+BLOCK]) && Octal(image[at..at+BLOCK][124..136]) == Some(|ContentsOf(e)|)
            && Announced(image[at..at+BLOCK], image[at+BLOCK..at+BLOCK+|ContentsOf(e)|]) == Some(e)
  {
    hide Header, PathOf, OctalDigits, Octal, Pow8, StripLead, ZeroBlock, Padded, Storable;
    Pieces(before, Header(e), ContentsOf(e), Zeros(Padded(|ContentsOf(e)|) - |ContentsOf(e)|), after);
    HeaderFields(e);
    PathReadsBack(e);
    SizeFits(e);
    SizeReadsBack(|ContentsOf(e)|);
  }
}
