/** Which files both loaders take, told by their program headers (clks/kernel/elf64.c,
    clks/kernel/kelf.c). */
module ElfWhole {
  import opened Machine
  import opened ElfImage
  import opened ElfLoad
  import opened ElfWrite

  /** The headers that take up memory: of kind 1, and not empty. */
  function Taken(hs: seq<Phdr>): seq<Phdr> {
    if hs == [] then []
    else if hs[|hs|-1].kind == 1 && hs[|hs|-1].memsz > 0 then Taken(hs[..|hs|-1]) + [hs[|hs|-1]]
    else Taken(hs[..|hs|-1])
  }

  ghost predicate Writable(entry: nat, hs: seq<Phdr>) {
    entry < U64 && |hs| < U16 && forall h :: h in hs ==> Encodable(h)
  }

  lemma Written(entry: nat, hs: seq<Phdr>, contents: seq<byte>)
    requires Writable(entry, hs)
    ensures var file := File(entry, hs, contents);
            && TableFits(file) && PhNum(file) == |hs| && forall i :: 0 <= i < |hs| ==> PhdrAt(file, i) == hs[i]
  {
    hide Encodable, File, PhdrAt, PhNum, HeaderOk, Field, PhOff, Entry;
    var file := File(entry, hs, contents);
    if hs == [] {
      HeaderRead(entry, hs, contents);
      NoTable(file);
    } else {
      assert hs[0] in hs;
      HeadersReadBack(entry, hs, contents, 0);
    }
    forall i | 0 <= i < |hs|
      ensures TableFits(file) && PhNum(file) == |hs| && PhdrAt(file, i) == hs[i]
    {
      assert hs[i] in hs;
      HeadersReadBack(entry, hs, contents, i);
    }
  }

  lemma NoTable(file: seq<byte>)
    requires |file| >= EHDR_SIZE && HeaderOk(file) && PhOff(file) == EHDR_SIZE && PhNum(file) == 0
    ensures TableFits(file)
  {
    hide HeaderOk, PhOff, PhNum;
  }

  lemma {:induction false} SegmentsAreTaken(file: seq<byte>, hs: seq<Phdr>, n: nat)
    requires TableFits(file) && PhNum(file) == |hs| && (forall i :: 0 <= i < |hs| ==> PhdrAt(file, i) == hs[i]) && n <= |hs|
    ensures Segments(file, n) == Taken(hs[..n])
  {
    hide TableFits, PhNum, PhdrAt, Segments;
    if n == 0 {
      NoSegments(file);
    } else {
      SegmentsAreTaken(file, hs, n - 1);
      SegmentsNext(file, n - 1);
      assert hs[..n][..n-1] == hs[..n-1] && hs[..n][n-1] == hs[n-1];
    }
  }

  /** The segments of a written file are its headers that take up memory, in their order. */
  lemma SegmentsOfWritten(entry: nat, hs: seq<Phdr>, contents: seq<byte>)
    requires Writable(entry, hs)
    ensures var file := File(entry, hs, contents); TableFits(file) && AllSegments(file) == Taken(hs)
  {
    hide TableFits, PhNum, PhdrAt, Segments, File, Writable;
    var file := File(entry, hs, contents);
    Written(entry, hs, contents);
    SegmentsAreTaken(file, hs, |hs|);
    assert hs[..|hs|] == hs;
  }

  /** A file is valid exactly when no loadable header says more of the file than there is, or more
      than of memory. */
  lemma ValidWritten(entry: nat, hs: seq<Phdr>, contents: seq<byte>)
    requires Writable(entry, hs)
    ensures var file := File(entry, hs, contents);
            ImageOk(file) <==> forall h :: h in hs && h.kind == 1 ==> h.filesz <= h.memsz && h.offset + h.filesz <= |file|
  {
    hide HeaderOk, PhNum, PhOff, PhdrAt, File, Writable;
    var file := File(entry, hs, contents);
    Written(entry, hs, contents);
    if ImageOk(file) {
      forall h | h in hs && h.kind == 1
        ensures h.filesz <= h.memsz && h.offset + h.filesz <= |file|
      {
        var i :| 0 <= i < |hs| && hs[i] == h;
        assert SegmentOk(PhdrAt(file, i), |file|);
      }
    }
    if forall h :: h in hs && h.kind == 1 ==> h.filesz <= h.memsz && h.offset + h.filesz <= |file| {
      forall i | 0 <= i < PhNum(file)
        ensures SegmentOk(PhdrAt(file, i), |file|)
      {
        assert hs[i] in hs;
      }
    }
  }

  /** And it is laid out by the program loader exactly when it is valid, and has one to sixteen
      segments, none of which reaches the end of the address space. */
  lemma LoadableWritten(entry: nat, hs: seq<Phdr>, contents: seq<byte>)
    requires Writable(entry, hs)
    ensures var file := File(entry, hs, contents);
            Loadable(file) <==>
              && (forall h :: h in hs && h.kind == 1 ==> h.filesz <= h.memsz && h.offset + h.filesz <= |file|)
              && 1 <= |Taken(hs)| <= 16 && forall h :: h in Taken(hs) ==> h.vaddr + h.memsz < 0x1_0000_0000_0000_0000
  {
    hide TableFits, PhNum, PhdrAt, File, Writable, ImageOk, Segments;
    ValidWritten(entry, hs, contents);
    SegmentsOfWritten(entry, hs, contents);
  }
}
