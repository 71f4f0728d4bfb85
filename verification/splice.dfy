/** What writing bytes at an offset makes of the contents of a file. */
module Splice {
  import opened Machine

  function Zeros(n: nat): (r: seq<byte>)
    ensures |r| == n && forall k :: 0 <= k < n ==> r[k] == 0
  {
    seq(n, _ => 0)
  }

  /** `s` with `d` in place of the bytes from `off` on. */
  function Patch(s: seq<byte>, off: nat, d: seq<byte>): (r: seq<byte>)
    requires off + |d| <= |s|
    ensures |r| == |s|
    ensures forall k :: 0 <= k < |r| ==> r[k] == if off <= k < off + |d| then d[k-off] else s[k]
  {
    s[..off] + d + s[off+|d|..]
  }

  function Max(a: nat, b: nat): nat {
    if a < b then b else a
  }

  /** A file after `d` is written at `off`: the range holds `d`, what was before and behind it
      stays, and a gap up to the range is filled with zeros. */
  function WriteAt(was: seq<byte>, off: nat, d: seq<byte>): (r: seq<byte>)
    ensures |r| == Max(|was|, off + |d|)
    ensures forall k :: 0 <= k < |r| ==>
              r[k] == if off <= k < off + |d| then d[k-off] else if k < |was| then was[k] else 0
  {
    if off + |d| <= |was| then Patch(was, off, d)
    else if off <= |was| then was[..off] + d
    else was + Zeros(off - |was|) + d
  }

  /** The three steps of the kernel: clear a block, copy the old contents, copy the new bytes. */
  lemma PatchesAreWriteAt(was: seq<byte>, off: nat, d: seq<byte>, n: nat)
    requires n == Max(|was|, off + |d|)
    ensures Patch(Patch(Zeros(n), 0, was), off, d) == WriteAt(was, off, d)
  {
  }

  /** Two writes one behind the other are one write. */
  lemma WriteAtTwice(s: seq<byte>, off: nat, a: seq<byte>, b: seq<byte>)
    requires a != []
    ensures WriteAt(WriteAt(s, off, a), off + |a|, b) == WriteAt(s, off, a + b)
  {
  }

  /** What is read back from the range is what was written, and nothing else moved. */
  lemma ReadBack(s: seq<byte>, off: nat, d: seq<byte>)
    ensures WriteAt(s, off, d)[off..off+|d|] == d
    ensures off <= |s| ==> WriteAt(s, off, d)[..off] == s[..off]
    ensures off + |d| <= |s| ==> WriteAt(s, off, d)[off+|d|..] == s[off+|d|..]
  {
  }
}
