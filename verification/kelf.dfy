/** The loader for kernel applications (clks/kernel/kelf.c), and how it compares with the
    program loader. */
module Kelf {
  import opened Machine
  import opened ElfImage
  import opened ElfLoad
  import ElfWrite
  import H = Heap

  datatype Runtime = NotLoaded | Overran | Ready(base: int, size: nat, entry: int)

  predicate EntryInside(image: seq<byte>)
    requires TableFits(image)
  {
    AllSegments(image) != [] && Low(AllSegments(image)) <= Entry(image) < High(AllSegments(image))
  }

  /** The first loop; without a segment the bounds stay crossed. */
  method Bounds(image: seq<byte>) returns (r: Option<(nat, nat)>)
    requires TableFits(image) && ImageOk(image)
    ensures r.Some? <==> EndsFit(AllSegments(image))
    ensures r.Some? && AllSegments(image) == [] ==> r.value == (U64 - 1, 0)
    ensures r.Some? && AllSegments(image) != [] ==> r.value == (Low(AllSegments(image)), High(AllSegments(image)))
  {
    hide Field, PhdrAt, PhNum, Low, High, Segments, HeaderOk, RangeOk, PhOff, EndsFit;
    var low: nat, high: nat := U64 - 1, 0;
    NoSegments(image);
    var i := 0;
    while i < PhNum(image)
      invariant i <= PhNum(image) && EndsFit(Segments(image, i))
      invariant (low, high) == Between(Segments(image, i))
    {
      var ph := PhdrAt(image, i);
      ghost var ss := Segments(image, i);
      SegmentsNext(image, i);
      if ph.Loads() {
        SegmentFitsFile(image, i);
        if ph.filesz > ph.memsz {
          assert false;
        }
        if ph.offset > |image| || ph.filesz > |image| - ph.offset {
          assert false;
        }
        EndsFitNext(ss, ph);
        var end := (ph.vaddr + ph.memsz) % U64;
        if end < ph.vaddr {
          Wraps(image, i, ph);
          return None;
        }
        if ph.vaddr < low {
          low := ph.vaddr;
        }
        if end > high {
          high := end;
        }
      }
      i := i + 1;
    }
    return Some((low, high));
  }

  /** The bounds that the loop has reached. */
  function Between(ss: seq<Phdr>): (nat, nat) {
    if ss == [] then (U64 - 1, 0) else (Low(ss), High(ss))
  }

  lemma SegmentFitsFile(image: seq<byte>, i: nat)
    requires ImageOk(image) && i < PhNum(image) && PhdrAt(image, i).Loads()
    ensures var ph := PhdrAt(image, i); ph.filesz <= ph.memsz && ph.offset + ph.filesz <= |image|
  {
  }

  /** The second loop, which copies without any check. */
  method CopyAll(heap: H.Arena, image: seq<byte>, base: nat, low: nat, span: nat)
    requires LaysOut(image) && low == Low(AllSegments(image)) && span == Span(AllSegments(image))
    requires heap.bytes.Length == H.ARENA_SIZE && base + span <= H.ARENA_SIZE
    requires Holds(heap.bytes[..], base, span, image, [], low)
    modifies heap.bytes
    ensures Holds(heap.bytes[..], base, span, image, AllSegments(image), low)
    ensures forall k :: 0 <= k < H.ARENA_SIZE && !(base <= k < base + span) ==> heap.bytes[k] == old(heap.bytes[k])
  {
    hide Field, PhdrAt, PhNum, Low, High, Segments, HeaderOk, EndsFit, ByteOf, Holds;
    NoSegments(image);
    var i := 0;
    while i < PhNum(image)
      invariant i <= PhNum(image)
      invariant Holds(heap.bytes[..], base, span, image, Segments(image, i), low)
      invariant forall k :: 0 <= k < H.ARENA_SIZE && !(base <= k < base + span) ==> heap.bytes[k] == old(heap.bytes[k])
    {
      var ph := PhdrAt(image, i);
      ghost var ss := Segments(image, i);
      SegmentsNext(image, i);
      if ph.Loads() {
        SegmentInside(image, i, ph);
        CopySegment(heap, image, base, span, low, ph, ss);
      }
      i := i + 1;
    }
  }

  lemma SegmentInside(image: seq<byte>, i: nat, ph: Phdr)
    requires LaysOut(image) && i < PhNum(image) && ph == PhdrAt(image, i) && ph.Loads()
    ensures Low(AllSegments(image)) <= ph.vaddr && ph.End() <= High(AllSegments(image))
    ensures ph.filesz <= ph.memsz && ph.offset + ph.filesz <= |image|
  {
    hide Field, PhdrAt, PhNum, Low, High, Segments, HeaderOk, EndsFit;
    SegmentsNext(image, i);
    SegmentsGrow(image, i + 1, PhNum(image));
    var ss := Segments(image, i + 1);
    assert AllSegments(image)[|ss|-1] == ph;
    SegmentFitsFile(image, i);
  }

  method FillRuntime(heap: H.Arena, image: seq<byte>, base: nat, low: nat, span: nat, ghost live: map<int, nat>, ghost before: seq<byte>)
    requires LaysOut(image) && low == Low(AllSegments(image)) && span == Span(AllSegments(image))
    requires heap.Valid() && H.Handed(live, H.Live(heap.blocks), base, span) && H.Kept(live, before, heap.bytes[..])
    modifies heap.bytes
    ensures heap.Valid() && H.Kept(live, before, heap.bytes[..])
    ensures base + span <= H.ARENA_SIZE && InFile(image, AllSegments(image))
    ensures heap.bytes[base..base+span] == Flat(image, AllSegments(image))
  {
    hide Field, PhdrAt, PhNum, Low, High, Segments, HeaderOk, EndsFit, ByteOf, Holds, H.Live, H.Ok, H.Linked, H.Kept, Flat;
    ghost var middle := heap.bytes[..];
    Wipe(heap, base, span);
    WipedHolds(heap.bytes[..], base, span, image, low);
    CopyAll(heap, image, base, low, span);
    HoldsFlat(heap.bytes[..], base, image, AllSegments(image));
    H.FillKeeps(heap.blocks, live, base, span, before, middle, heap.bytes[..]);
  }

  /** clks_kelf_load_runtime_image */
  method LoadRuntime(heap: H.Arena, image: seq<byte>) returns (r: Runtime)
    requires heap.Valid() && |image| < U64
    modifies heap, heap.bytes
    ensures heap.Valid() && heap.bytes == old(heap.bytes)
    ensures H.Kept(H.Live(old(heap.blocks)), old(heap.bytes[..]), heap.bytes[..])
    ensures r.NotLoaded? ==> heap.blocks == old(heap.blocks)
    ensures r.Overran? <==> LaysOut(image) && HasRoom(old(heap.blocks), image) && Span(AllSegments(image)) > U64 - H.ALIGN
    ensures r.Ready? <==> LaysOut(image) && HasRoom(old(heap.blocks), image)
                          && Span(AllSegments(image)) <= U64 - H.ALIGN && EntryInside(image)
    ensures r.Ready? ==> heap.blocks == H.Malloc(old(heap.blocks), Span(AllSegments(image))).0
    ensures r.Ready? ==> r.size == Span(AllSegments(image)) && r.entry - r.base == Entry(image) - Low(AllSegments(image))
    ensures r.Ready? ==> 0 <= r.base && r.base + r.size <= H.ARENA_SIZE && InFile(image, AllSegments(image))
    ensures r.Ready? ==> heap.bytes[r.base..r.base+r.size] == Flat(image, AllSegments(image))
  {
    hide Field, PhdrAt, PhNum, Low, High, Segments, HeaderOk, ByteOf, H.Live, H.Ok, H.Arena.Valid, H.Kept, Flat, H.Malloc, H.AlignUp, Entry;
    H.KeptSame(H.Live(heap.blocks), heap.bytes[..]);
    BlocksOk(heap);
    var valid := Validate(image);
    if !valid {
      return NotLoaded;
    }
    var bounds := Bounds(image);
    if bounds.None? || bounds.value.1 <= bounds.value.0 {
      return NotLoaded;
    }
    var (low, high) := bounds.value;
    var size := high - low;
    ghost var live, before, was := H.Live(heap.blocks), heap.bytes[..], heap.blocks;
    var base := heap.Kmalloc(size);
    if base == H.NULL {
      return NotLoaded;
    }
    if size > U64 - H.ALIGN {
      return Overran;
    }
    FillRuntime(heap, image, base, low, size, live, before);
    var entry := Entry(image);
    if entry < low || entry >= high {
      WasOk(was, heap.blocks, image, base);
      ghost var middle := heap.bytes[..];
      heap.Kfree(base);
      H.KeptTwice(live, before, middle, heap.bytes[..]);
      return NotLoaded;
    }
    return Ready(base, size, base + (entry - low));
  }

  lemma BlocksOk(heap: H.Arena)
    requires heap.Valid()
    ensures H.Ok(heap.blocks)
  {
  }

  lemma WasOk(bs: seq<H.Block>, after: seq<H.Block>, image: seq<byte>, base: int)
    requires H.Ok(bs) && TableFits(image) && HasRoom(bs, image)
    requires (after, Some(base)) == H.Malloc(bs, Span(AllSegments(image)))
    ensures H.Legal(after, H.Release(base)) && H.Apply(after, H.Release(base)) == bs
  {
    hide AllSegments, Low, High, H.Malloc;
    UnloadUndoesLoad(bs, after, image, base);
  }

  /** Both loaders on the same file, each on a heap in the same state: whenever both succeed they
      agree on the size, on every byte and on where the entry lies; and they succeed together
      except that one limits the number of segments. */
  method LoadBoth(first: H.Arena, second: H.Arena, image: seq<byte>) returns (r: Result, k: Runtime, entry: Option<int>)
    requires first.Valid() && second.Valid() && first != second && first.bytes != second.bytes && |image| < U64
    requires first.blocks == second.blocks
    modifies first, first.bytes, second, second.bytes
    ensures r.Good? && k.Ready? ==>
              && r.loaded.size == k.size && 0 <= r.loaded.base && 0 <= k.base
              && r.loaded.base + k.size <= first.bytes.Length && k.base + k.size <= second.bytes.Length
              && first.bytes[r.loaded.base..r.loaded.base+k.size] == second.bytes[k.base..k.base+k.size]
              && entry.Some? && entry.value - r.loaded.base == k.entry - k.base
    ensures r.Good? && entry.Some? <==> k.Ready? && TableFits(image) && |AllSegments(image)| <= MAX_SEGMENTS
    ensures r.Overrun? ==> k.Overran?
  {
    hide Field, PhdrAt, PhNum, Low, High, Segments, HeaderOk, ByteOf, H.Live, H.Ok, H.Linked, H.Kept, Flat, H.Malloc, Entry, Placed;
    r := Load(first, image);
    entry := None;
    if r.Good? {
      entry := EntryPointer(r.loaded, Entry(image));
    }
    k := LoadRuntime(second, image);
  }

  /** One loadable segment of 2^64 - 1 bytes, none of them in the file. */
  const HUGE: Phdr := Phdr(PT_LOAD, 0, 0, 0, 0, U64 - 1)

  /** A file with that segment passes every check, and on an empty heap both loaders overrun. */
  lemma HugeOverruns()
    ensures var image := ElfWrite.File(0, [HUGE], []);
            Loadable(image) && HasRoom(H.INITIAL, image) && Span(AllSegments(image)) > U64 - H.ALIGN
  {
    hide HeaderOk, Field, PhOff, PhNum, PhdrAt, Entry, ElfWrite.File;
    var image := ElfWrite.File(0, [HUGE], []);
    ElfWrite.HeadersReadBack(0, [HUGE], [], 0);
    SegmentsNext(image, 0);
    NoSegments(image);
    assert AllSegments(image) == [HUGE];
    H.MallocWraps();
  }
}
