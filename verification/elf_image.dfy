/** ELF64 files as both loaders read them (System V gABI, chapter 5, "Program Header"). */
module ElfImage {
  import opened Machine

  const EHDR_SIZE: nat := 64
  const PHDR_SIZE: nat := 56
  const PT_LOAD: nat := 1

  /** A little-endian number. */
  function Le(bs: seq<byte>): (n: nat)
    ensures |bs| == 2 ==> n < U16
    ensures |bs| == 4 ==> n < U32
    ensures |bs| == 8 ==> n < U64
  {
    LeBound(bs);
    LeValue(bs)
  }

  function LeValue(bs: seq<byte>): nat {
    if bs == [] then 0 else bs[0] as nat + 0x100 * LeValue(bs[1..])
  }

  function Pow256(n: nat): nat {
    if n == 0 then 1 else 0x100 * Pow256(n - 1)
  }

  lemma {:induction false} LeBelow(bs: seq<byte>)
    ensures LeValue(bs) < Pow256(|bs|)
  {
    if bs != [] { LeBelow(bs[1..]); }
  }

  lemma LeBound(bs: seq<byte>)
    ensures |bs| == 2 ==> LeValue(bs) < U16
    ensures |bs| == 4 ==> LeValue(bs) < U32
    ensures |bs| == 8 ==> LeValue(bs) < U64
  {
    LeBelow(bs);
    assert Pow256(2) == 0x100 * Pow256(1) && Pow256(1) == 0x100 * Pow256(0);
    assert Pow256(4) == 0x100 * Pow256(3) && Pow256(3) == 0x100 * Pow256(2);
    assert Pow256(6) == 0x100 * Pow256(5) && Pow256(5) == 0x100 * Pow256(4);
    assert Pow256(8) == 0x100 * Pow256(7) && Pow256(7) == 0x100 * Pow256(6);
  }

  function Field(image: seq<byte>, at: nat, width: nat): nat
    requires at + width <= |image|
  {
    Le(image[at..at+width])
  }

  /** off + len stays within total, without computing the sum. */
  predicate RangeOk(off: nat, len: nat, total: nat) {
    off <= total && len <= total - off
  }

  /** The fixed part of the file header. */
  predicate HeaderOk(image: seq<byte>)
    requires |image| >= EHDR_SIZE
  {
    && image[..4] == [0x7F, 0x45, 0x4C, 0x46]
    && image[4] == 2 && image[5] == 1
    && image[6] == 1 && Field(image, 20, 4) == 1
    && (Field(image, 16, 2) == 2 || Field(image, 16, 2) == 3)
    && Field(image, 18, 2) == 62
    && Field(image, 52, 2) == EHDR_SIZE
    && Field(image, 54, 2) == PHDR_SIZE
  }

  function Entry(image: seq<byte>): nat
    requires |image| >= EHDR_SIZE
  {
    Field(image, 24, 8)
  }

  function PhOff(image: seq<byte>): nat
    requires |image| >= EHDR_SIZE
  {
    Field(image, 32, 8)
  }

  function PhNum(image: seq<byte>): (n: nat)
    requires |image| >= EHDR_SIZE
    ensures n < U16
  {
    Field(image, 56, 2)
  }

  datatype Phdr = Phdr(kind: nat, flags: nat, offset: nat, vaddr: nat, filesz: nat, memsz: nat) {
    function End(): nat { vaddr + memsz }

    /** Segments that take up memory. */
    predicate Loads() { kind == PT_LOAD && memsz != 0 }
  }

  predicate TableFits(image: seq<byte>) {
    |image| >= EHDR_SIZE && HeaderOk(image) && RangeOk(PhOff(image), PhNum(image) * PHDR_SIZE, |image|)
  }

  function PhdrAt(image: seq<byte>, i: nat): (h: Phdr)
    requires TableFits(image) && i < PhNum(image)
    ensures h.vaddr < U64 && h.memsz < U64 && h.offset < U64 && h.filesz < U64
  {
    var at := PhOff(image) + i * PHDR_SIZE;
    assert at + PHDR_SIZE <= |image|;
    Phdr(Field(image, at, 4), Field(image, at + 4, 4), Field(image, at + 8, 8), Field(image, at + 16, 8),
         Field(image, at + 32, 8), Field(image, at + 40, 8))
  }

  predicate SegmentOk(h: Phdr, size: nat) {
    h.kind == PT_LOAD ==> h.filesz <= h.memsz && RangeOk(h.offset, h.filesz, size)
  }

  /** What clks_elf64_validate checks. */
  predicate ImageOk(image: seq<byte>) {
    TableFits(image) && forall i :: 0 <= i < PhNum(image) ==> SegmentOk(PhdrAt(image, i), |image|)
  }

  /** The segments among the first `n` headers that take up memory, in table order. */
  function Segments(image: seq<byte>, n: nat): (ss: seq<Phdr>)
    requires TableFits(image) && n <= PhNum(image)
    ensures |ss| <= n
    ensures forall s :: s in ss ==> s.Loads() && s.vaddr < U64 && s.memsz < U64
    ensures ImageOk(image) ==> forall s :: s in ss ==> SegmentOk(s, |image|)
  {
    if n == 0 then []
    else
      var h := PhdrAt(image, n - 1);
      if h.Loads() then Segments(image, n - 1) + [h] else Segments(image, n - 1)
  }

  function AllSegments(image: seq<byte>): seq<Phdr>
    requires TableFits(image)
  {
    Segments(image, PhNum(image))
  }

  function Low(ss: seq<Phdr>): (v: nat)
    requires ss != []
    ensures (forall s :: s in ss ==> v <= s.vaddr) && exists s :: s in ss && s.vaddr == v
  {
    var last := ss[|ss|-1];
    if |ss| == 1 then last.vaddr
    else
      var rest := Low(ss[..|ss|-1]);
      assert ss == ss[..|ss|-1] + [last];
      if last.vaddr < rest then last.vaddr else rest
  }

  function High(ss: seq<Phdr>): (v: nat)
    requires ss != []
    ensures (forall s :: s in ss ==> s.End() <= v) && exists s :: s in ss && s.End() == v
  {
    var last := ss[|ss|-1];
    if |ss| == 1 then last.End()
    else
      var rest := High(ss[..|ss|-1]);
      assert ss == ss[..|ss|-1] + [last];
      if last.End() > rest then last.End() else rest
  }

  /** No segment reaches the end of the address space. */
  ghost predicate EndsFit(ss: seq<Phdr>) {
    forall s :: s in ss ==> s.End() < U64
  }

  predicate CoversFile(s: Phdr, v: nat) {
    s.vaddr <= v < s.vaddr + s.filesz
  }

  /** The byte at address `v`: that of the last segment in table order whose file part covers
      it, and zero where there is none. */
  function ByteOf(image: seq<byte>, ss: seq<Phdr>, v: nat): byte
    requires forall s :: s in ss ==> s.offset + s.filesz <= |image|
  {
    if ss == [] then 0
    else if CoversFile(ss[|ss|-1], v) then image[ss[|ss|-1].offset + (v - ss[|ss|-1].vaddr)]
    else ByteOf(image, ss[..|ss|-1], v)
  }

  lemma {:induction false} ByteOfLast(image: seq<byte>, ss: seq<Phdr>, v: nat, k: nat)
    requires forall s :: s in ss ==> s.offset + s.filesz <= |image|
    requires k < |ss| && CoversFile(ss[k], v) && forall j :: k < j < |ss| ==> !CoversFile(ss[j], v)
    ensures ss[k] in ss && ByteOf(image, ss, v) == image[ss[k].offset + (v - ss[k].vaddr)]
  {
    if k < |ss| - 1 { ByteOfLast(image, ss[..|ss|-1], v, k); }
  }

  lemma {:induction false} ByteOfNone(image: seq<byte>, ss: seq<Phdr>, v: nat)
    requires forall s :: s in ss ==> s.offset + s.filesz <= |image|
    requires forall s :: s in ss ==> !CoversFile(s, v)
    ensures ByteOf(image, ss, v) == 0
  {
    if ss != [] { ByteOfNone(image, ss[..|ss|-1], v); }
  }

  /** The memory image: every address from the lowest to the highest of any segment. */
  function Flat(image: seq<byte>, ss: seq<Phdr>): (r: seq<byte>)
    requires ss != [] && forall s :: s in ss ==> s.offset + s.filesz <= |image|
    ensures |r| == High(ss) - Low(ss)
  {
    seq(High(ss) - Low(ss), k requires 0 <= k => ByteOf(image, ss, Low(ss) + k))
  }

  // ----- what the image holds -----

  lemma FlatAt(image: seq<byte>, ss: seq<Phdr>, i: nat)
    requires ss != [] && (forall s :: s in ss ==> s.offset + s.filesz <= |image|) && i < High(ss) - Low(ss)
    ensures Flat(image, ss)[i] == ByteOf(image, ss, Low(ss) + i)
  {
    hide Low, High, ByteOf;
  }

  /** At every address, the byte of the last segment in table order whose file part reaches it. */
  lemma FlatLast(image: seq<byte>, ss: seq<Phdr>, k: nat, v: nat)
    requires k < |ss| && forall s :: s in ss ==> s.offset + s.filesz <= |image| && s.filesz <= s.memsz
    requires ss[k].vaddr <= v < ss[k].vaddr + ss[k].filesz
    requires forall j :: k < j < |ss| ==> v < ss[j].vaddr || ss[j].vaddr + ss[j].filesz <= v
    ensures ss[k] in ss && Low(ss) <= v < High(ss) && |Flat(image, ss)| == High(ss) - Low(ss)
    ensures Flat(image, ss)[v - Low(ss)] == image[ss[k].offset + (v - ss[k].vaddr)]
  {
    hide Low, High, ByteOf, Flat;
    assert ss[k] in ss;
    assert Low(ss) <= ss[k].vaddr && ss[k].End() <= High(ss);
    ByteOfLast(image, ss, v, k);
    FlatAt(image, ss, v - Low(ss));
  }

  /** Zero at every address that no file part reaches. */
  lemma FlatZero(image: seq<byte>, ss: seq<Phdr>, v: nat)
    requires ss != [] && forall s :: s in ss ==> s.offset + s.filesz <= |image|
    requires Low(ss) <= v < High(ss) && forall s :: s in ss ==> v < s.vaddr || s.vaddr + s.filesz <= v
    ensures Flat(image, ss)[v - Low(ss)] == 0
  {
    hide Low, High, ByteOf, Flat;
    ByteOfNone(image, ss, v);
    FlatAt(image, ss, v - Low(ss));
  }

  lemma SameSlices(a: seq<byte>, at: nat, b: seq<byte>, off: nat, n: nat)
    requires at + n <= |a| && off + n <= |b| && forall i :: at <= i < at + n ==> a[i] == b[off + (i - at)]
    ensures a[at..at+n] == b[off..off+n]
  {
    var x, y := a[at..at+n], b[off..off+n];
    assert forall i :: 0 <= i < n ==> x[i] == a[at+i] == y[i];
  }

  /** A segment that no later file part overlaps is in the image with all the bytes of its part of
      the file. */
  lemma FlatHoldsFile(image: seq<byte>, ss: seq<Phdr>, k: nat)
    requires k < |ss| && forall s :: s in ss ==> s.offset + s.filesz <= |image| && s.filesz <= s.memsz
    requires forall j :: k < j < |ss| ==>
               ss[j].vaddr + ss[j].filesz <= ss[k].vaddr || ss[k].vaddr + ss[k].filesz <= ss[j].vaddr
    ensures ss[k] in ss && Low(ss) <= ss[k].vaddr && ss[k].vaddr + ss[k].filesz <= High(ss)
    ensures var s, at := ss[k], ss[k].vaddr - Low(ss);
            Flat(image, ss)[at..at+s.filesz] == image[s.offset..s.offset+s.filesz]
  {
    hide Low, High, Flat;
    var s, low := ss[k], Low(ss);
    assert s in ss;
    FlatLength(image, ss, s);
    var flat, at := Flat(image, ss), s.vaddr - low;
    forall i | at <= i < at + s.filesz
      ensures flat[i] == image[s.offset + (i - at)]
    {
      FlatFileAt(image, ss, k, low + i);
    }
    SameSlices(flat, at, image, s.offset, s.filesz);
  }

  lemma FlatLength(image: seq<byte>, ss: seq<Phdr>, s: Phdr)
    requires s in ss && forall x :: x in ss ==> x.offset + x.filesz <= |image| && x.filesz <= x.memsz
    ensures |Flat(image, ss)| == High(ss) - Low(ss)
    ensures Low(ss) <= s.vaddr <= s.vaddr + s.filesz <= s.vaddr + s.memsz <= High(ss) && s.offset + s.filesz <= |image|
  {
    hide Low, High, Flat;
    assert s.End() <= High(ss);
  }

  lemma FlatFileAt(image: seq<byte>, ss: seq<Phdr>, k: nat, v: nat)
    requires k < |ss| && forall s :: s in ss ==> s.offset + s.filesz <= |image| && s.filesz <= s.memsz
    requires forall j :: k < j < |ss| ==>
               ss[j].vaddr + ss[j].filesz <= ss[k].vaddr || ss[k].vaddr + ss[k].filesz <= ss[j].vaddr
    requires ss[k].vaddr <= v < ss[k].vaddr + ss[k].filesz
    ensures ss[k] in ss && Low(ss) <= v < High(ss) && |Flat(image, ss)| == High(ss) - Low(ss)
    ensures Flat(image, ss)[v - Low(ss)] == image[ss[k].offset + (v - ss[k].vaddr)]
  {
    hide Low, High, Flat;
    FlatLast(image, ss, k, v);
  }

  /** What a segment takes up beyond its part of the file is zero, where no other part reaches. */
  lemma FlatZeroTail(image: seq<byte>, ss: seq<Phdr>, k: nat)
    requires k < |ss| && forall s :: s in ss ==> s.offset + s.filesz <= |image| && s.filesz <= s.memsz
    requires forall s :: s in ss ==>
               s == ss[k] || s.vaddr + s.filesz <= ss[k].vaddr + ss[k].filesz || ss[k].vaddr + ss[k].memsz <= s.vaddr
    ensures ss[k] in ss && Low(ss) <= ss[k].vaddr && ss[k].vaddr + ss[k].memsz <= High(ss)
    ensures var s, at := ss[k], ss[k].vaddr - Low(ss);
            forall i :: at + s.filesz <= i < at + s.memsz ==> Flat(image, ss)[i] == 0
  {
    hide Low, High, Flat;
    var s, low := ss[k], Low(ss);
    assert s in ss;
    forall i | s.vaddr - low + s.filesz <= i < s.vaddr - low + s.memsz
      ensures Flat(image, ss)[i] == 0
    {
      FlatZero(image, ss, low + i);
    }
  }

  // ----- what the checks mean -----

  lemma FieldOfTwo(image: seq<byte>, at: nat)
    requires at + 2 <= |image|
    ensures Field(image, at, 2) == image[at] as nat + 0x100 * image[at+1] as nat
  {
    var bs := image[at..at+2];
    assert bs[1..][1..] == [] && LeValue(bs[1..]) == bs[1] as nat + 0x100 * LeValue(bs[1..][1..]);
  }

  lemma FieldOfFour(image: seq<byte>, at: nat)
    requires at + 4 <= |image|
    ensures Field(image, at, 4) == Field(image, at, 2) + 0x1_0000 * Field(image, at + 2, 2)
  {
    var bs := image[at..at+4];
    assert bs[1..][1..] == image[at+2..at+4];
    assert LeValue(bs) == bs[0] as nat + 0x100 * LeValue(bs[1..]) && LeValue(bs[1..]) == bs[1] as nat + 0x100 * LeValue(bs[1..][1..]);
    FieldOfTwo(image, at);
  }

  lemma FourBytes(image: seq<byte>, at: nat, a: byte, b: byte, c: byte, d: byte)
    requires at + 4 <= |image|
    ensures image[at..at+4] == [a, b, c, d] <==> image[at] == a && image[at+1] == b && image[at+2] == c && image[at+3] == d
  {
    var bs := image[at..at+4];
    assert bs[0] == image[at] && bs[1] == image[at+1] && bs[2] == image[at+2] && bs[3] == image[at+3];
  }

  /** A header is accepted exactly when these of its bytes are as for a 64-bit little-endian
      executable or shared object for x86-64; the other bytes do not matter. */
  lemma HeaderBytes(image: seq<byte>)
    requires |image| >= EHDR_SIZE
    ensures HeaderOk(image)
       <==> && image[0..4] == [0x7F, 0x45, 0x4C, 0x46] && image[4] == 2 && image[5] == 1 && image[6] == 1
            && (image[16] == 2 || image[16] == 3) && image[17] == 0 && image[18] == 0x3E && image[19] == 0
            && image[20..24] == [1, 0, 0, 0] && image[52..56] == [64, 0, 56, 0]
  {
    hide Field;
    FieldOfTwo(image, 16);
    FieldOfTwo(image, 18);
    FieldOfTwo(image, 20);
    FieldOfTwo(image, 22);
    FieldOfFour(image, 20);
    FieldOfTwo(image, 52);
    FieldOfTwo(image, 54);
    FourBytes(image, 20, 1, 0, 0, 0);
    FourBytes(image, 52, 64, 0, 56, 0);
    assert image[0..4] == image[..4];
  }

  /** The test without the sum is the test of the sum. */
  lemma RangeExact(off: nat, len: nat, total: nat)
    ensures RangeOk(off, len, total) <==> off + len <= total
  {
  }
}
