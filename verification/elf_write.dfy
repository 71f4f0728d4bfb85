/** A writer of ELF64 files, laid out as the System V gABI (chapters 4 and 5) says, against
    which the reader of the loaders is checked. */
module ElfWrite {
  import opened Machine
  import opened ElfImage

  /** A little-endian number of `w` bytes. */
  function PutLe(n: nat, w: nat): (r: seq<byte>)
    ensures |r| == w
  {
    if w == 0 then [] else [(n % 0x100) as byte] + PutLe(n / 0x100, w - 1)
  }

  lemma {:induction false} LeOfPut(n: nat, w: nat)
    requires n < Pow256(w)
    ensures LeValue(PutLe(n, w)) == n
  {
    if w > 0 {
      LeOfPut(n / 0x100, w - 1);
      assert PutLe(n, w)[1..] == PutLe(n / 0x100, w - 1);
    }
  }

  datatype Item = Item(value: nat, width: nat)

  predicate ItemOk(f: Item) {
    f.value < Pow256(f.width)
  }

  function Encode(fs: seq<Item>): seq<byte> {
    if fs == [] then [] else Encode(fs[..|fs|-1]) + PutLe(fs[|fs|-1].value, fs[|fs|-1].width)
  }

  function Offset(fs: seq<Item>, k: nat): nat
    requires k <= |fs|
  {
    if k == 0 then 0 else Offset(fs, k - 1) + fs[k-1].width
  }

  lemma {:induction false} OffsetOfPrefix(fs: seq<Item>, k: nat, m: nat)
    requires k <= m <= |fs|
    ensures Offset(fs[..m], k) == Offset(fs, k)
  {
    if k > 0 { OffsetOfPrefix(fs, k - 1, m); }
  }

  /** Each item is found at its offset. */
  lemma {:induction false} ItemAt(fs: seq<Item>, k: nat)
    requires k < |fs|
    ensures |Encode(fs)| == Offset(fs, |fs|) && Offset(fs, k) + fs[k].width <= |Encode(fs)|
    ensures Encode(fs)[Offset(fs, k)..Offset(fs, k)+fs[k].width] == PutLe(fs[k].value, fs[k].width)
    decreases |fs|
  {
    var n := |fs| - 1;
    var front := fs[..n];
    OffsetOfPrefix(fs, n, n);
    if k < n {
      ItemAt(front, k);
      OffsetOfPrefix(fs, k, n);
      assert front[k] == fs[k];
    } else if n > 0 {
      ItemAt(front, 0);
    }
  }

  /** Reading the item back from any file that has the items at `at`. */
  lemma ItemRead(before: seq<byte>, fs: seq<Item>, after: seq<byte>, k: nat)
    requires k < |fs| && ItemOk(fs[k])
    ensures var file := before + Encode(fs) + after; var at := |before| + Offset(fs, k);
            at + fs[k].width <= |file| && Field(file, at, fs[k].width) == fs[k].value
  {
    hide Encode, Offset, PutLe, LeValue;
    ItemAt(fs, k);
    LeOfPut(fs[k].value, fs[k].width);
    var file, at, w := before + Encode(fs) + after, |before| + Offset(fs, k), fs[k].width;
    assert file[at..at+w] == Encode(fs)[Offset(fs, k)..Offset(fs, k)+w];
  }

  const IDENT: seq<byte> := [0x7F, 0x45, 0x4C, 0x46, 2, 1, 1, 0, 0, 0, 0, 0, 0, 0, 0, 0]

  /** The file header after its identification, for a table of `n` headers right behind it. */
  function HeaderItems(entry: nat, n: nat): seq<Item> {
    [Item(2, 2), Item(62, 2), Item(1, 4), Item(entry, 8), Item(EHDR_SIZE, 8), Item(0, 8), Item(0, 4),
     Item(EHDR_SIZE, 2), Item(PHDR_SIZE, 2), Item(n, 2), Item(0, 2), Item(0, 2), Item(0, 2)]
  }

  function PhdrItems(h: Phdr): seq<Item> {
    [Item(h.kind, 4), Item(h.flags, 4), Item(h.offset, 8), Item(h.vaddr, 8), Item(h.vaddr, 8), Item(h.filesz, 8),
     Item(h.memsz, 8), Item(1, 8)]
  }

  predicate Encodable(h: Phdr) {
    h.kind < U32 && h.flags < U32 && h.offset < U64 && h.vaddr < U64 && h.filesz < U64 && h.memsz < U64
  }

  function Table(hs: seq<Phdr>): seq<byte> {
    if hs == [] then [] else Table(hs[..|hs|-1]) + Encode(PhdrItems(hs[|hs|-1]))
  }

  function File(entry: nat, hs: seq<Phdr>, contents: seq<byte>): seq<byte> {
    IDENT + Encode(HeaderItems(entry, |hs|)) + Table(hs) + contents
  }

  lemma PhdrOffsets(h: Phdr)
    ensures var fs := PhdrItems(h);
            && Offset(fs, 0) == 0 && Offset(fs, 1) == 4 && Offset(fs, 2) == 8 && Offset(fs, 3) == 16
            && Offset(fs, 5) == 32 && Offset(fs, 6) == 40 && Offset(fs, 8) == PHDR_SIZE == |Encode(fs)|
  {
    var fs := PhdrItems(h);
    assert Offset(fs, 2) == Offset(fs, 1) + 4;
    assert Offset(fs, 4) == Offset(fs, 3) + 8;
    assert Offset(fs, 6) == Offset(fs, 5) + 8;
    assert Offset(fs, 8) == Offset(fs, 7) + 8;
    ItemAt(fs, 0);
  }

  lemma HeaderOffsets(entry: nat, n: nat)
    ensures var fs := HeaderItems(entry, n);
            && Offset(fs, 0) == 0 && Offset(fs, 1) == 2 && Offset(fs, 2) == 4 && Offset(fs, 3) == 8 && Offset(fs, 4) == 16
            && Offset(fs, 7) == 36 && Offset(fs, 8) == 38 && Offset(fs, 9) == 40 && Offset(fs, 13) == 48 == |Encode(fs)|
  {
    var fs := HeaderItems(entry, n);
    assert Offset(fs, 2) == Offset(fs, 1) + 2;
    assert Offset(fs, 4) == Offset(fs, 3) + 8;
    assert Offset(fs, 6) == Offset(fs, 5) + 8;
    assert Offset(fs, 8) == Offset(fs, 7) + 2;
    assert Offset(fs, 10) == Offset(fs, 9) + 2;
    assert Offset(fs, 12) == Offset(fs, 11) + 2;
    ItemAt(fs, 0);
  }

  lemma {:induction false} TableAt(hs: seq<Phdr>, i: nat)
    requires i < |hs|
    ensures |Table(hs)| == |hs| * PHDR_SIZE
    ensures Table(hs) == Table(hs)[..i*PHDR_SIZE] + Encode(PhdrItems(hs[i])) + Table(hs)[(i+1)*PHDR_SIZE..]
    decreases |hs|
  {
    hide Encode, PhdrItems, Offset;
    var n := |hs| - 1;
    var front := hs[..n];
    PhdrOffsets(hs[n]);
    if n == 0 {
      assert Table(front) == [];
    } else {
      TableAt(front, if i < n then i else 0);
      if i < n {
        assert front[i] == hs[i];
      }
    }
  }

  /** The header fields of a written file. */
  lemma HeaderRead(entry: nat, hs: seq<Phdr>, contents: seq<byte>)
    requires entry < U64 && |hs| < U16
    ensures var file := File(entry, hs, contents);
            |file| >= EHDR_SIZE && HeaderOk(file) && Entry(file) == entry && PhOff(file) == EHDR_SIZE && PhNum(file) == |hs|
  {
    hide Encode, Table, Field, Offset, PutLe, LeValue, HeaderOk;
    var fs, file := HeaderItems(entry, |hs|), File(entry, hs, contents);
    var rest := Table(hs) + contents;
    assert file == IDENT + Encode(fs) + rest;
    HeaderOffsets(entry, |hs|);
    ItemRead(IDENT, fs, rest, 0);
    ItemRead(IDENT, fs, rest, 1);
    ItemRead(IDENT, fs, rest, 2);
    ItemRead(IDENT, fs, rest, 3);
    ItemRead(IDENT, fs, rest, 4);
    ItemRead(IDENT, fs, rest, 7);
    ItemRead(IDENT, fs, rest, 8);
    ItemRead(IDENT, fs, rest, 9);
    HeaderBytes(file, Encode(fs) + rest);
  }

  lemma HeaderBytes(file: seq<byte>, rest: seq<byte>)
    requires file == IDENT + rest && |file| >= EHDR_SIZE
    requires Field(file, 16, 2) == 2 && Field(file, 18, 2) == 62 && Field(file, 20, 4) == 1
    requires Field(file, 52, 2) == EHDR_SIZE && Field(file, 54, 2) == PHDR_SIZE
    ensures HeaderOk(file)
  {
  }

  /** Whatever program headers are written, the reader finds them again. */
  lemma HeadersReadBack(entry: nat, hs: seq<Phdr>, contents: seq<byte>, i: nat)
    requires entry < U64 && |hs| < U16 && i < |hs| && Encodable(hs[i])
    ensures var file := File(entry, hs, contents);
            TableFits(file) && Entry(file) == entry && PhNum(file) == |hs| && PhdrAt(file, i) == hs[i]
  {
    hide Encode, Table, Field, Offset, PutLe, HeaderOk, Entry, PhOff, PhNum;
    var fs, file := PhdrItems(hs[i]), File(entry, hs, contents);
    HeaderRead(entry, hs, contents);
    HeaderOffsets(entry, |hs|);
    TableAt(hs, i);
    PhdrOffsets(hs[i]);
    var before := IDENT + Encode(HeaderItems(entry, |hs|)) + Table(hs)[..i*PHDR_SIZE];
    var after := Table(hs)[(i+1)*PHDR_SIZE..] + contents;
    assert file == before + Encode(fs) + after;
    ItemRead(before, fs, after, 0);
    ItemRead(before, fs, after, 1);
    ItemRead(before, fs, after, 2);
    ItemRead(before, fs, after, 3);
    ItemRead(before, fs, after, 5);
    ItemRead(before, fs, after, 6);
  }
}
