/** The program loader (clks/kernel/elf64.c) over the kernel heap. */
module ElfLoad {
  import opened Machine
  import opened ElfImage
  import H = Heap

  const MAX_SEGMENTS: nat := 16

  datatype Segment = Segment(base: int, vaddr: nat, memsz: nat, filesz: nat, flags: nat)
  datatype Loaded = Loaded(entry: nat, base: int, size: nat, vaddr: nat, segments: seq<Segment>)

  const EMPTY: Loaded := Loaded(0, H.NULL, 0, 0, [])

  /** `Overrun`: the allocator has handed out a block that is too small, since rounding up the
      size wrapped around, and the loader would go on to write past it. */
  datatype Result = Rejected | Overrun | Good(loaded: Loaded)

  datatype Info = Info(entry: nat, phnum: nat, segments: nat, memsz: nat)

  // ----- clks_elf64_validate -----

  method Validate(image: seq<byte>) returns (ok: bool)
    requires |image| < U64
    ensures ok == ImageOk(image)
  {
    if |image| < EHDR_SIZE {
      return false;
    }
    if !HeaderOk(image) {
      return false;
    }
    if !RangeOk(PhOff(image), PhNum(image) * PHDR_SIZE, |image|) {
      return false;
    }
    var i := 0;
    while i < PhNum(image)
      invariant i <= PhNum(image) && forall j :: 0 <= j < i ==> SegmentOk(PhdrAt(image, j), |image|)
    {
      var ph := PhdrAt(image, i);
      if ph.kind == PT_LOAD {
        if ph.filesz > ph.memsz {
          return false;
        }
        if !RangeOk(ph.offset, ph.filesz, |image|) {
          return false;
        }
      }
      i := i + 1;
    }
    return true;
  }

  /** Memory sizes of the loadable segments among the first `n` headers, added up. */
  function TotalMem(image: seq<byte>, n: nat): nat
    requires TableFits(image) && n <= PhNum(image)
  {
    if n == 0 then 0
    else TotalMem(image, n - 1) + if PhdrAt(image, n - 1).kind == PT_LOAD then PhdrAt(image, n - 1).memsz else 0
  }

  /** The number of PT_LOAD headers among the first `n`, those without memory included. */
  function LoadCount(image: seq<byte>, n: nat): nat
    requires TableFits(image) && n <= PhNum(image)
  {
    if n == 0 then 0 else LoadCount(image, n - 1) + if PhdrAt(image, n - 1).kind == PT_LOAD then 1 else 0
  }

  function LoadIndices(image: seq<byte>, n: nat): set<nat>
    requires TableFits(image) && n <= PhNum(image)
  {
    set i: nat | i < n && PhdrAt(image, i).kind == 1
  }

  /** The headers that count are those of kind 1. */
  lemma {:induction false} LoadCountIsSize(image: seq<byte>, n: nat)
    requires TableFits(image) && n <= PhNum(image)
    ensures LoadCount(image, n) == |LoadIndices(image, n)|
  {
    hide PhdrAt, PhNum, HeaderOk, Field, LoadIndices;
    if n > 0 {
      LoadCountIsSize(image, n - 1);
      LoadIndexNext(image, n);
    } else {
      assert LoadIndices(image, 0) == {} by { NoIndices(image); }
    }
  }

  lemma NoIndices(image: seq<byte>)
    requires TableFits(image)
    ensures LoadIndices(image, 0) == {}
  {
  }

  lemma LoadIndexNext(image: seq<byte>, n: nat)
    requires TableFits(image) && 0 < n <= PhNum(image)
    ensures n - 1 !in LoadIndices(image, n - 1)
    ensures LoadIndices(image, n) == LoadIndices(image, n - 1) + if PhdrAt(image, n - 1).kind == 1 then {n - 1} else {}
  {
    hide PhdrAt, PhNum, HeaderOk, Field;
  }

  /** The memory of all segments together. */
  function MemoryOf(ss: seq<Phdr>): nat {
    if ss == [] then 0 else MemoryOf(ss[..|ss|-1]) + ss[|ss|-1].memsz
  }

  /** The total is that of the segments that are loaded. */
  lemma {:induction false} TotalIsMemory(image: seq<byte>, n: nat)
    requires TableFits(image) && n <= PhNum(image)
    ensures TotalMem(image, n) == MemoryOf(Segments(image, n))
  {
    hide PhdrAt, PhNum, HeaderOk, Field;
    if n > 0 { TotalIsMemory(image, n - 1); }
  }

  /** clks_elf64_inspect: the sum is kept in 64 bits. */
  method Inspect(image: seq<byte>) returns (r: Option<Info>)
    requires |image| < U64
    ensures r.Some? <==> ImageOk(image)
    ensures r.Some? ==> r.value.entry == Entry(image) && r.value.phnum == PhNum(image)
    ensures r.Some? ==> r.value.memsz == TotalMem(image, PhNum(image)) % U64 && r.value.segments == LoadCount(image, PhNum(image))
  {
    hide Field, HeaderOk, PhdrAt, PhNum, Entry;
    var ok := Validate(image);
    if !ok {
      return None;
    }
    var info := Info(Entry(image), PhNum(image), 0, 0);
    var i := 0;
    while i < info.phnum
      invariant i <= info.phnum == PhNum(image) && info.entry == Entry(image)
      invariant info.memsz == TotalMem(image, i) % U64 && info.segments == LoadCount(image, i)
    {
      var ph := PhdrAt(image, i);
      if ph.kind == PT_LOAD {
        info := info.(segments := info.segments + 1, memsz := (info.memsz + ph.memsz) % U64);
      }
      i := i + 1;
    }
    return Some(info);
  }

  // ----- clks_elf64_load -----

  /** The files whose segments can be laid out. */
  ghost predicate LaysOut(image: seq<byte>) {
    ImageOk(image) && AllSegments(image) != [] && EndsFit(AllSegments(image))
  }

  ghost predicate Loadable(image: seq<byte>) {
    LaysOut(image) && |AllSegments(image)| <= MAX_SEGMENTS
  }

  function Span(ss: seq<Phdr>): (n: nat)
    requires ss != []
    ensures n == High(ss) - Low(ss)
  {
    High(ss) - Low(ss)
  }

  lemma SegmentsNext(image: seq<byte>, i: nat)
    requires TableFits(image) && i < PhNum(image)
    ensures Segments(image, i + 1)
         == if PhdrAt(image, i).Loads() then Segments(image, i) + [PhdrAt(image, i)] else Segments(image, i)
  {
  }

  lemma {:induction false} SegmentsGrow(image: seq<byte>, i: nat, n: nat)
    requires TableFits(image) && i <= n <= PhNum(image)
    ensures Segments(image, i) <= Segments(image, n)
    decreases n - i
  {
    hide Field, HeaderOk, PhdrAt, PhNum, Segments;
    if i < n {
      SegmentsGrow(image, i, n - 1);
      SegmentsNext(image, n - 1);
    }
  }

  /** One round of the first loop, in 64-bit arithmetic. */
  method Widen(low: nat, high: nat, count: nat, ph: Phdr) returns (r: Option<(nat, nat, nat)>)
    requires ph.vaddr < U64 && ph.memsz < U64
    ensures r.Some? <==> ph.End() < U64
    ensures r.Some? ==> r.value == (if count == 0 || ph.vaddr < low then ph.vaddr else low,
                                    if count == 0 || ph.End() > high then ph.End() else high, count + 1)
  {
    var low2, high2 := low, high;
    if count == 0 || ph.vaddr < low2 {
      low2 := ph.vaddr;
    }
    var end := (ph.vaddr + ph.memsz) % U64;
    if end < ph.vaddr {
      return None;
    }
    if count == 0 || end > high2 {
      high2 := end;
    }
    return Some((low2, high2, count + 1));
  }

  /** The first loop: the extent of the segments, unless one of them wraps around. */
  method Measure(image: seq<byte>) returns (r: Option<(nat, nat, nat)>)
    requires TableFits(image)
    ensures r.Some? <==> EndsFit(AllSegments(image))
    ensures r.Some? ==> r.value.2 == |AllSegments(image)|
    ensures r.Some? && r.value.2 > 0 ==> r.value.0 == Low(AllSegments(image)) && r.value.1 == High(AllSegments(image))
  {
    hide Field, PhdrAt, PhNum, Low, High, Segments, SegmentOk, HeaderOk, RangeOk, PhOff, EndsFit, ImageOk;
    var low: nat, high: nat, count: nat := 0, 0, 0;
    var i := 0;
    NoSegments(image);
    while i < PhNum(image)
      invariant i <= PhNum(image) && count == |Segments(image, i)| && EndsFit(Segments(image, i))
      invariant count > 0 ==> low == Low(Segments(image, i)) && high == High(Segments(image, i))
    {
      var ph := PhdrAt(image, i);
      ghost var ss := Segments(image, i);
      SegmentsNext(image, i);
      if ph.Loads() {
        EndsFitNext(ss, ph);
        var wider := Widen(low, high, count, ph);
        if wider.None? {
          Wraps(image, i, ph);
          return None;
        }
        low, high, count := wider.value.0, wider.value.1, wider.value.2;
      }
      i := i + 1;
    }
    return Some((low, high, count));
  }

  lemma EndsFitNext(ss: seq<Phdr>, s: Phdr)
    ensures EndsFit(ss + [s]) <==> EndsFit(ss) && s.End() < U64
  {
  }

  lemma NoSegments(image: seq<byte>)
    requires TableFits(image)
    ensures Segments(image, 0) == [] && EndsFit([])
  {
  }

  lemma Wraps(image: seq<byte>, i: nat, ph: Phdr)
    requires TableFits(image) && i < PhNum(image) && ph == PhdrAt(image, i) && ph.Loads() && ph.End() >= U64
    ensures !EndsFit(AllSegments(image))
  {
    hide Field, HeaderOk, PhdrAt, PhNum;
    SegmentsNext(image, i);
    SegmentsGrow(image, i + 1, PhNum(image));
    var ss := Segments(image, i + 1);
    assert AllSegments(image)[|ss|-1] == ph;
  }

  // ----- filling the memory image -----

  /** clks_memset to zero of `n` bytes of the heap */
  method Wipe(heap: H.Arena, p: nat, n: nat)
    requires heap.bytes.Length == H.ARENA_SIZE && p + n <= H.ARENA_SIZE
    modifies heap.bytes
    ensures forall k :: 0 <= k < H.ARENA_SIZE ==> heap.bytes[k] == if p <= k < p + n then 0 else old(heap.bytes[k])
  {
    var i := 0;
    while i < n
      invariant i <= n
      invariant forall k :: 0 <= k < H.ARENA_SIZE ==> heap.bytes[k] == if p <= k < p + i then 0 else old(heap.bytes[k])
    {
      heap.bytes[p+i] := 0;
      i := i + 1;
    }
  }

  /** clks_memcpy of `n` bytes of the file to the heap */
  method Blit(heap: H.Arena, dst: nat, image: seq<byte>, off: nat, n: nat)
    requires heap.bytes.Length == H.ARENA_SIZE && dst + n <= H.ARENA_SIZE && off + n <= |image|
    modifies heap.bytes
    ensures forall k :: 0 <= k < H.ARENA_SIZE ==>
              heap.bytes[k] == if dst <= k < dst + n then image[off + (k - dst)] else old(heap.bytes[k])
  {
    var i := 0;
    while i < n
      invariant i <= n
      invariant forall k :: 0 <= k < H.ARENA_SIZE ==>
                  heap.bytes[k] == if dst <= k < dst + i then image[off + (k - dst)] else old(heap.bytes[k])
    {
      heap.bytes[dst+i] := image[off+i];
      i := i + 1;
    }
  }

  ghost predicate InFile(image: seq<byte>, ss: seq<Phdr>) {
    forall s :: s in ss ==> s.offset + s.filesz <= |image|
  }

  /** The block at `base` holds the memory image of the segments `ss`, seen from address `low`. */
  ghost predicate Holds(mem: seq<byte>, base: nat, span: nat, image: seq<byte>, ss: seq<Phdr>, low: nat) {
    && InFile(image, ss) && base + span <= |mem|
    && forall v :: low <= v < low + span ==> mem[base + (v - low)] == ByteOf(image, ss, v)
  }

  lemma ByteOfNext(image: seq<byte>, ss: seq<Phdr>, s: Phdr)
    requires InFile(image, ss) && s.offset + s.filesz <= |image|
    ensures InFile(image, ss + [s])
    ensures forall v: nat :: ByteOf(image, ss + [s], v)
              == if CoversFile(s, v) then image[s.offset + (v - s.vaddr)] else ByteOf(image, ss, v)
  {
  }

  /** One more segment on top of those that are there. */
  method CopySegment(heap: H.Arena, image: seq<byte>, base: nat, span: nat, low: nat, ph: Phdr, ghost ss: seq<Phdr>)
    requires heap.bytes.Length == H.ARENA_SIZE && base + span <= H.ARENA_SIZE
    requires Holds(heap.bytes[..], base, span, image, ss, low)
    requires low <= ph.vaddr && ph.vaddr + ph.filesz <= low + span && ph.offset + ph.filesz <= |image|
    modifies heap.bytes
    ensures Holds(heap.bytes[..], base, span, image, ss + [ph], low)
    ensures forall k :: 0 <= k < H.ARENA_SIZE && !(base <= k < base + span) ==> heap.bytes[k] == old(heap.bytes[k])
  {
    hide ByteOf;
    ByteOfNext(image, ss, ph);
    ghost var mem := heap.bytes[..];
    Blit(heap, base + (ph.vaddr - low), image, ph.offset, ph.filesz);
    forall v | low <= v < low + span
      ensures heap.bytes[..][base + (v - low)] == ByteOf(image, ss + [ph], v)
    {
      assert mem[base + (v - low)] == ByteOf(image, ss, v);
    }
  }

  /** The loaded segments that the table entries stand for. */
  function Placed(ss: seq<Phdr>, base: int, low: nat): (r: seq<Segment>)
    ensures |r| == |ss|
  {
    if ss == [] then []
    else
      var s := ss[|ss|-1];
      Placed(ss[..|ss|-1], base, low) + [Segment(base + s.vaddr - low, s.vaddr, s.memsz, s.filesz, s.flags)]
  }

  /** Each of them is as far behind the start of the block as it is behind the lowest address. */
  lemma {:induction false} PlacedAt(ss: seq<Phdr>, base: int, low: nat, k: nat)
    requires k < |ss|
    ensures Placed(ss, base, low)[k] == Segment(base + (ss[k].vaddr - low), ss[k].vaddr, ss[k].memsz, ss[k].filesz, ss[k].flags)
  {
    if k < |ss| - 1 { PlacedAt(ss[..|ss|-1], base, low, k); }
  }

  /** The second loop of clks_elf64_load. Its checks on the number of segments and on their
      ranges cannot fail: the first loop has made sure of that. */
  method CopySegments(heap: H.Arena, image: seq<byte>, base: nat, low: nat, span: nat) returns (segments: seq<Segment>)
    requires Loadable(image) && low == Low(AllSegments(image)) && span == Span(AllSegments(image))
    requires heap.bytes.Length == H.ARENA_SIZE && base + span <= H.ARENA_SIZE
    requires Holds(heap.bytes[..], base, span, image, [], low)
    modifies heap.bytes
    ensures segments == Placed(AllSegments(image), base, low)
    ensures Holds(heap.bytes[..], base, span, image, AllSegments(image), low)
    ensures forall k :: 0 <= k < H.ARENA_SIZE && !(base <= k < base + span) ==> heap.bytes[k] == old(heap.bytes[k])
  {
    hide Field, PhdrAt, PhNum, Low, High, Segments, HeaderOk, EndsFit, ByteOf, Holds;
    segments := [];
    NoSegments(image);
    var i := 0;
    while i < PhNum(image)
      invariant i <= PhNum(image) && segments == Placed(Segments(image, i), base, low)
      invariant Holds(heap.bytes[..], base, span, image, Segments(image, i), low)
      invariant forall k :: 0 <= k < H.ARENA_SIZE && !(base <= k < base + span) ==> heap.bytes[k] == old(heap.bytes[k])
    {
      var ph := PhdrAt(image, i);
      ghost var ss := Segments(image, i);
      SegmentsNext(image, i);
      SegmentsGrow(image, i + 1, PhNum(image));
      if ph.Loads() {
        SegmentFits(image, i, ph);
        if |segments| >= MAX_SEGMENTS {
          assert false;
        }
        var off := ph.vaddr - low;
        if off > span || ph.memsz > span - off {
          assert false;
        }
        CopySegment(heap, image, base, span, low, ph, ss);
        segments := segments + [Segment(base + off, ph.vaddr, ph.memsz, ph.filesz, ph.flags)];
      }
      i := i + 1;
    }
  }

  /** Each segment lies between the lowest and the highest address and inside the file. */
  lemma SegmentFits(image: seq<byte>, i: nat, ph: Phdr)
    requires Loadable(image) && i < PhNum(image) && ph == PhdrAt(image, i) && ph.Loads()
    ensures Low(AllSegments(image)) <= ph.vaddr && ph.End() <= High(AllSegments(image))
    ensures ph.filesz <= ph.memsz && ph.offset + ph.filesz <= |image|
    ensures |Segments(image, i)| < MAX_SEGMENTS
  {
    hide Field, PhdrAt, PhNum, Low, High, Segments, HeaderOk, EndsFit;
    SegmentsNext(image, i);
    SegmentsGrow(image, i + 1, PhNum(image));
    var ss := Segments(image, i + 1);
    assert AllSegments(image)[|ss|-1] == ph;
    assert SegmentOk(ph, |image|);
  }

  lemma HoldsFlat(mem: seq<byte>, base: nat, image: seq<byte>, ss: seq<Phdr>)
    requires ss != [] && Holds(mem, base, Span(ss), image, ss, Low(ss))
    ensures mem[base..base+Span(ss)] == Flat(image, ss)
  {
  }

  lemma WipedHolds(mem: seq<byte>, base: nat, span: nat, image: seq<byte>, low: nat)
    requires base + span <= |mem| && forall k :: base <= k < base + span ==> mem[k] == 0
    ensures Holds(mem, base, span, image, [], low)
  {
  }

  /** Clears the block and lays out the segments in it. */
  method Fill(heap: H.Arena, image: seq<byte>, base: nat, low: nat, span: nat, ghost live: map<int, nat>, ghost before: seq<byte>)
    returns (segments: seq<Segment>)
    requires Loadable(image) && low == Low(AllSegments(image)) && span == Span(AllSegments(image))
    requires heap.Valid() && H.Handed(live, H.Live(heap.blocks), base, span) && H.Kept(live, before, heap.bytes[..])
    modifies heap.bytes
    ensures heap.Valid() && H.Kept(live, before, heap.bytes[..])
    ensures segments == Placed(AllSegments(image), base, low)
    ensures base + span <= H.ARENA_SIZE && InFile(image, AllSegments(image))
    ensures heap.bytes[base..base+span] == Flat(image, AllSegments(image))
  {
    hide Field, PhdrAt, PhNum, Low, High, Segments, HeaderOk, EndsFit, ByteOf, Holds, H.Live, H.Ok, H.Linked, H.Kept, Flat;
    ghost var middle := heap.bytes[..];
    Wipe(heap, base, span);
    WipedHolds(heap.bytes[..], base, span, image, low);
    segments := CopySegments(heap, image, base, low, span);
    HoldsFlat(heap.bytes[..], base, image, AllSegments(image));
    H.FillKeeps(heap.blocks, live, base, span, before, middle, heap.bytes[..]);
  }

  /** clks_elf64_load */
  method Load(heap: H.Arena, image: seq<byte>) returns (r: Result)
    requires heap.Valid() && |image| < U64
    modifies heap, heap.bytes
    ensures heap.Valid() && heap.bytes == old(heap.bytes)
    ensures H.Kept(H.Live(old(heap.blocks)), old(heap.bytes[..]), heap.bytes[..])
    ensures r.Rejected? ==> heap.blocks == old(heap.blocks)
    ensures r.Rejected? <==> !(Loadable(image) && HasRoom(old(heap.blocks), image))
    ensures r.Overrun? <==> Loadable(image) && HasRoom(old(heap.blocks), image) && Span(AllSegments(image)) > U64 - H.ALIGN
    ensures r.Good? ==> heap.blocks == H.Malloc(old(heap.blocks), Span(AllSegments(image))).0
    ensures r.Good? ==> r.loaded.entry == Entry(image) && r.loaded.vaddr == Low(AllSegments(image))
    ensures r.Good? ==> r.loaded.size == Span(AllSegments(image)) && r.loaded.base in H.Live(heap.blocks)
    ensures r.Good? ==> H.Malloc(old(heap.blocks), Span(AllSegments(image))).1 == Some(r.loaded.base)
    ensures r.Good? ==> r.loaded.segments == Placed(AllSegments(image), r.loaded.base, r.loaded.vaddr)
    ensures r.Good? ==> 0 <= r.loaded.base && r.loaded.base + r.loaded.size <= H.ARENA_SIZE && InFile(image, AllSegments(image))
    ensures r.Good? ==> heap.bytes[r.loaded.base..r.loaded.base+r.loaded.size] == Flat(image, AllSegments(image))
  {
    hide Field, PhdrAt, PhNum, Low, High, Segments, HeaderOk, ByteOf, H.Live, H.Ok, H.Arena.Valid, H.Kept, Flat, H.Malloc, H.AlignUp, Placed, Entry;
    H.KeptSame(H.Live(heap.blocks), heap.bytes[..]);
    var valid := Validate(image);
    if !valid {
      return Rejected;
    }
    var extent := Measure(image);
    if extent.None? || extent.value.2 == 0 || extent.value.2 > MAX_SEGMENTS {
      return Rejected;
    }
    var low, span := extent.value.0, extent.value.1 - extent.value.0;
    if span == 0 {
      assert false;
    }

    ghost var live, before := H.Live(heap.blocks), heap.bytes[..];
    var base := heap.Kmalloc(span);
    if base == H.NULL {
      return Rejected;
    }
    if span > U64 - H.ALIGN {
      return Overrun;
    }
    var segments := Fill(heap, image, base, low, span, live, before);
    return Good(Loaded(Entry(image), base, span, low, segments));
  }

  /** The allocator finds a block for the memory image. */
  predicate HasRoom(bs: seq<H.Block>, image: seq<byte>)
    requires TableFits(image)
  {
    var ss := AllSegments(image);
    ss != [] && High(ss) < U64 && H.Malloc(bs, Span(ss)).1.Some?
  }

  /** clks_elf64_unload */
  method Unload(heap: H.Arena, loaded: Loaded) returns (r: Loaded)
    requires heap.Valid() && H.Legal(heap.blocks, H.Release(loaded.base))
    modifies heap, heap.bytes
    ensures heap.Valid() && heap.bytes == old(heap.bytes) && r == EMPTY
    ensures heap.blocks == H.Apply(old(heap.blocks), H.Release(loaded.base))
    ensures H.Kept(H.Live(heap.blocks), old(heap.bytes[..]), heap.bytes[..])
  {
    if loaded.base != H.NULL {
      heap.Kfree(loaded.base);
    } else {
      H.KeptSame(H.Live(heap.blocks), heap.bytes[..]);
    }
    return EMPTY;
  }

  /** Unloading an image gives the heap back as it was before the load. */
  lemma UnloadUndoesLoad(bs: seq<H.Block>, after: seq<H.Block>, image: seq<byte>, base: int)
    requires H.Ok(bs) && TableFits(image) && HasRoom(bs, image)
    requires (after, Some(base)) == H.Malloc(bs, Span(AllSegments(image)))
    ensures H.Legal(after, H.Release(base)) && H.Apply(after, H.Release(base)) == bs
  {
    hide AllSegments, Low, High;
    H.ReleaseUndoesAllocate(bs, Span(AllSegments(image)));
  }

  /** clks_elf64_entry_pointer */
  method EntryPointer(loaded: Loaded, entry: nat) returns (r: Option<int>)
    ensures r.Some? <==> loaded.base != H.NULL && loaded.vaddr <= entry < loaded.vaddr + loaded.size
    ensures r.Some? ==> r.value - loaded.base == entry - loaded.vaddr
  {
    if loaded.base == H.NULL || entry < loaded.vaddr {
      return None;
    }
    var off := entry - loaded.vaddr;
    if off >= loaded.size {
      return None;
    }
    return Some(loaded.base + off);
  }
}
