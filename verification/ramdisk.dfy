/** The reader of the boot image (clks/kernel/ramdisk.c), an archive in ustar format. */
module Ramdisk {
  import opened Machine
  import opened FsTable

  const BLOCK: nat := 512
  const RAW_MAX: nat := 192
  const NUL: char := 0 as char

  // ----- fields -----

  function FieldLen(f: seq<byte>): (n: nat)
    ensures n <= |f| && (n < |f| ==> f[n] == 0) && forall k :: 0 <= k < n ==> f[k] != 0
  {
    if f == [] || f[0] == 0 then 0
    else
      var n := 1 + FieldLen(f[1..]);
      assert forall k :: 1 <= k < n ==> f[k] == f[1..][k-1];
      n
  }

  lemma FieldLenIs(f: seq<byte>, n: nat)
    requires n <= |f| && (n < |f| ==> f[n] == 0) && forall k :: 0 <= k < n ==> f[k] != 0
    ensures FieldLen(f) == n
  {
  }

  function Text(bs: seq<byte>): (s: string)
    ensures |s| == |bs| && forall k :: 0 <= k < |s| ==> s[k] == bs[k] as char
  {
    seq(|bs|, i requires 0 <= i < |bs| => bs[i] as char)
  }

  function FieldText(f: seq<byte>): string {
    Text(f[..FieldLen(f)])
  }

  predicate Blank(b: byte) {
    b == 32 || b == 0
  }

  /** An octal number after leading blanks, up to the next blank; None for another character or a
      number that does not fit 64 bits. */
  function Octal(f: seq<byte>): Option<nat> {
    OctalFrom(f, BlankEnd(f), 0)
  }

  function BlankEnd(f: seq<byte>): (n: nat)
    ensures n <= |f| && (n < |f| ==> !Blank(f[n])) && forall k :: 0 <= k < n ==> Blank(f[k])
  {
    if f == [] || !Blank(f[0]) then 0
    else
      var n := 1 + BlankEnd(f[1..]);
      assert forall k :: 1 <= k < n ==> f[k] == f[1..][k-1];
      n
  }

  function OctalFrom(f: seq<byte>, i: nat, value: nat): (r: Option<nat>)
    requires i <= |f|
    ensures value < U64 && r.Some? ==> r.value < U64
    decreases |f| - i
  {
    if i == |f| || Blank(f[i]) then Some(value)
    else if f[i] < 48 || f[i] > 55 || value > (U64 - 1) / 8 then None
    else OctalFrom(f, i + 1, value * 8 + (f[i] as nat - 48))
  }

  // ----- paths -----

  function StripLead(s: string): (r: string)
    ensures |r| <= |s| && (r != "" ==> r[0] != '/')
  {
    if |s| >= 2 && s[0] == '.' && s[1] == '/' then StripLead(s[2..])
    else if |s| >= 1 && s[0] == '/' then StripLead(s[1..])
    else s
  }

  function StripTrail(s: string): (r: string)
    ensures |r| <= |s| && r == s[..|r|] && (r != "" ==> r[|r|-1] != '/')
  {
    if s != "" && s[|s|-1] == '/' then StripTrail(s[..|s|-1]) else s
  }

  function RawPath(h: seq<byte>): string
    requires |h| == BLOCK
  {
    var prefix := FieldText(h[345..500]);
    (if prefix == "" then "" else prefix + "/") + FieldText(h[0..100])
  }

  /** The path of an entry without leading "./" and slashes and without trailing slashes; None when
      there is no name, nothing is left of it, or it is too long. */
  function PathOf(h: seq<byte>): (r: Option<string>)
    requires |h| == BLOCK
    ensures r.Some? ==> ImagePath(r.value)
  {
    if FieldText(h[0..100]) == "" || |RawPath(h)| >= RAW_MAX then None
    else
      var p := StripTrail(StripLead(RawPath(h)));
      if p == "" then None else Some(p)
  }

  // ----- the archive -----

  predicate ZeroBlock(h: seq<byte>) {
    forall k :: 0 <= k < |h| ==> h[k] == 0
  }

  /** Sizes are rounded up to whole blocks. */
  function Padded(n: nat): (r: nat)
    ensures n <= r < n + BLOCK && r % BLOCK == 0
  {
    (n + BLOCK - 1) / BLOCK * BLOCK
  }

  /** The entry that a header announces, if it has a usable path and is a file or a directory. */
  function Announced(h: seq<byte>, contents: seq<byte>): (r: Option<ImageEntry>)
    requires |h| == BLOCK
    ensures r.Some? ==> ImagePath(r.value.path) && (r.value.ImageFile? ==> r.value.bytes == contents)
  {
    match PathOf(h)
    case None => None
    case Some(p) =>
      if h[156] == 53 then Some(ImageDir(p))
      else if h[156] == 0 || h[156] == 48 then Some(ImageFile(p, contents))
      else None
  }

  /** The entries from `at` on; None when a size is malformed or points behind the image. */
  function Entries(image: seq<byte>, at: nat): (r: Option<seq<ImageEntry>>)
    ensures r.Some? ==> forall e :: e in r.value ==> ImagePath(e.path) && (e.ImageFile? ==> |e.bytes| <= |image|)
    decreases |image| - at
  {
    if at + BLOCK > |image| || ZeroBlock(image[at..at+BLOCK]) then Some([])
    else
      var h, from := image[at..at+BLOCK], at + BLOCK;
      match Octal(h[124..136])
      case None => None
      case Some(size) =>
        if size > |image| - from then None
        else
          match Entries(image, from + Padded(size))
          case None => None
          case Some(rest) =>
            match Announced(h, image[from..from+size])
            case None => Some(rest)
            case Some(e) => Some([e] + rest)
  }

  // ----- the reading loops -----

  /** clks_ramdisk_is_zero_block */
  method IsZeroBlock(h: seq<byte>) returns (zero: bool)
    ensures zero == ZeroBlock(h)
  {
    var i := 0;
    while i < |h|
      invariant i <= |h| && forall k :: 0 <= k < i ==> h[k] == 0
    {
      if h[i] != 0 {
        return false;
      }
      i := i + 1;
    }
    return true;
  }

  /** clks_ramdisk_field_len */
  method FieldLength(f: seq<byte>) returns (n: nat)
    ensures n == FieldLen(f)
  {
    n := 0;
    while n < |f| && f[n] != 0
      invariant n <= |f| && forall k :: 0 <= k < n ==> f[k] != 0
    {
      n := n + 1;
    }
    FieldLenIs(f, n);
  }

  /** clks_ramdisk_parse_octal_u64 */
  method ParseOctal(f: seq<byte>) returns (r: Option<nat>)
    ensures r == Octal(f)
  {
    var i := 0;
    while i < |f| && Blank(f[i])
      invariant i <= |f| && forall k :: 0 <= k < i ==> Blank(f[k])
    {
      i := i + 1;
    }
    var value: nat := 0;
    while i < |f|
      invariant BlankEnd(f) <= i <= |f| && value < U64 && OctalFrom(f, i, value) == Octal(f)
    {
      var ch := f[i];
      if Blank(ch) {
        break;
      }
      if ch < 48 || ch > 55 {
        return None;
      }
      if value > (U64 - 1) / 8 {
        return None;
      }
      value := value * 8 + (ch as nat - 48);
      i := i + 1;
    }
    return Some(value);
  }

  lemma StripLeadStep(s: string)
    ensures |s| >= 2 && s[0] == '.' && s[1] == '/' ==> StripLead(s) == StripLead(s[2..])
    ensures |s| >= 1 && s[0] == '/' ==> StripLead(s) == StripLead(s[1..])
    ensures !(|s| >= 2 && s[0] == '.' && s[1] == '/') && !(|s| >= 1 && s[0] == '/') ==> StripLead(s) == s
  {
  }

  /** The first loop of clks_ramdisk_build_path behind the raw path */
  method SkipLead(raw: string) returns (read: nat)
    ensures read <= |raw| && raw[read..] == StripLead(raw)
  {
    hide StripLead;
    read := 0;
    assert raw[0..] == raw;
    while (read + 1 < |raw| && raw[read] == '.' && raw[read+1] == '/') || (read < |raw| && raw[read] == '/')
      invariant read <= |raw| && StripLead(raw[read..]) == StripLead(raw)
      decreases |raw| - read
    {
      StripLeadStep(raw[read..]);
      if raw[read] == '.' {
        assert raw[read..][2..] == raw[read+2..];
        read := read + 2;
      } else {
        assert raw[read..][1..] == raw[read+1..];
        read := read + 1;
      }
    }
    StripLeadStep(raw[read..]);
  }

  /** The last loop: the length without trailing slashes */
  method CutTrail(out: array<char>, n: nat, ghost rest: string) returns (len: nat)
    requires n <= out.Length && out[..n] == rest
    ensures len <= n && rest[..len] == StripTrail(rest)
  {
    hide StripTrail;
    len := n;
    assert rest[..n] == rest;
    while len > 0 && out[len-1] == '/'
      invariant len <= n && StripTrail(rest[..len]) == StripTrail(rest)
    {
      assert out[len-1] == rest[len-1];
      StripTrailStep(rest[..len]);
      assert rest[..len][..len-1] == rest[..len-1];
      len := len - 1;
    }
    if len > 0 { assert out[len-1] == rest[len-1]; }
    StripTrailStep(rest[..len]);
  }

  /** The part of clks_ramdisk_build_path that cleans the raw path, with the path buffer written in
      place */
  method CleanPath(raw: string, out: array<char>) returns (len: nat)
    requires |raw| < RAW_MAX == out.Length
    modifies out
    ensures len < RAW_MAX && out[..len] == StripTrail(StripLead(raw)) && out[len] == NUL
  {
    hide StripLead, StripTrail;
    var read := SkipLead(raw);
    ghost var rest := raw[read..];
    var n := 0;
    while read < |raw| && n + 1 < RAW_MAX
      invariant n + (|raw| - read) == |rest| && read <= |raw| && n < RAW_MAX
      invariant forall k :: 0 <= k < n ==> out[k] == rest[k]
    {
      assert raw[read] == rest[n];
      out[n] := raw[read];
      n := n + 1;
      read := read + 1;
    }
    assert out[..n] == rest;
    len := CutTrail(out, n, rest);
    out[len] := NUL;
    assert out[..len] == rest[..len];
  }

  lemma StripTrailStep(s: string)
    ensures s != "" && s[|s|-1] == '/' ==> StripTrail(s) == StripTrail(s[..|s|-1])
    ensures !(s != "" && s[|s|-1] == '/') ==> StripTrail(s) == s
  {
  }

  /** clks_ramdisk_build_path */
  method BuildPath(h: seq<byte>) returns (r: Option<string>)
    requires |h| == BLOCK
    ensures r == PathOf(h)
  {
    hide StripLead, StripTrail, FieldLen;
    var prefixLen := FieldLength(h[345..500]);
    var nameLen := FieldLength(h[0..100]);
    if nameLen == 0 {
      return None;
    }
    var raw := "";
    if prefixLen != 0 {
      if prefixLen + 1 >= RAW_MAX {
        assert false;
      }
      raw := Text(h[345..500][..prefixLen]) + "/";
    }
    if |raw| + nameLen >= RAW_MAX {
      return None;
    }
    raw := raw + Text(h[0..100][..nameLen]);
    assert raw == RawPath(h);
    var out := new char[RAW_MAX];
    var len := CleanPath(raw, out);
    if len == 0 {
      return None;
    }
    return Some(out[..len]);
  }
}
