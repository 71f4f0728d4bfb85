/** The kernel heap (clks/kernel/heap.c): a first-fit allocator over one arena, with
    doubly linked headers stored in front of every payload.

    A pointer is an offset into the arena, `NULL` is -1. The specification works on the
    list of blocks in address order; class `Arena` holds the linked headers and the bytes. */
module Heap {
  import opened Machine

  const ARENA_SIZE: nat := 1024 * 1024
  const HEADER_SIZE: nat := 40
  const ALIGN: nat := 16
  const MAGIC: nat := 0x434C454F4E4F534F
  const NULL: int := -1

  // ----- the block list -----

  datatype Block = Block(addr: int, size: nat, free: bool) {
    function Payload(): int { addr + HEADER_SIZE }

    function End(): int { addr + HEADER_SIZE + size }
  }

  /** No gap and no overlap: every block starts where the previous one ends. */
  ghost predicate Tiled(bs: seq<Block>) {
    && |bs| > 0
    && bs[0].addr == 0
    && (forall i, j :: 0 <= i && j == i + 1 < |bs| ==> bs[j].addr == bs[i].End())
    && bs[|bs|-1].End() == ARENA_SIZE
  }

  ghost predicate Coalesced(bs: seq<Block>) {
    forall i, j :: 0 <= i && j == i + 1 < |bs| ==> !(bs[i].free && bs[j].free)
  }

  ghost predicate Ok(bs: seq<Block>) {
    Tiled(bs) && Coalesced(bs)
  }

  const INITIAL: seq<Block> := [Block(0, ARENA_SIZE - HEADER_SIZE, true)]

  lemma {:induction false} Ascending(bs: seq<Block>, i: int, j: int)
    requires Tiled(bs) && 0 <= i < j < |bs|
    ensures bs[i].End() <= bs[j].addr
    decreases j
  {
    if i < j - 1 {
      Ascending(bs, i, j - 1);
    }
  }

  lemma InArena(bs: seq<Block>, i: int)
    requires Tiled(bs) && 0 <= i < |bs|
    ensures 0 <= bs[i].addr && bs[i].End() <= ARENA_SIZE
  {
    if 0 < i { Ascending(bs, 0, i); }
    if i < |bs| - 1 { Ascending(bs, i, |bs| - 1); }
  }

  lemma AddressesDistinct(bs: seq<Block>, i: int, j: int)
    requires Tiled(bs) && 0 <= i < |bs| && 0 <= j < |bs| && bs[i].addr == bs[j].addr
    ensures i == j
  {
    if i < j { Ascending(bs, i, j); }
    if j < i { Ascending(bs, j, i); }
  }

  // ----- the live payloads -----

  /** Size of the block behind every payload that is currently handed out. */
  function Live(bs: seq<Block>): map<int, nat> {
    if bs == [] then map[]
    else if bs[0].free then Live(bs[1..])
    else Live(bs[1..])[bs[0].Payload() := bs[0].size]
  }

  function LiveIndex(bs: seq<Block>, p: int): (i: nat)
    requires p in Live(bs)
    ensures i < |bs| && !bs[i].free && bs[i].Payload() == p && bs[i].size == Live(bs)[p]
  {
    if !bs[0].free && bs[0].Payload() == p then 0 else 1 + LiveIndex(bs[1..], p)
  }

  lemma {:induction false} LiveAppend(a: seq<Block>, b: seq<Block>)
    ensures Live(a + b) == Live(b) + Live(a)
  {
    if a == [] {
      assert a + b == b;
    } else {
      assert (a + b)[1..] == a[1..] + b;
      LiveAppend(a[1..], b);
    }
  }

  /** The live payloads around block `i` and the one of block `i` itself. */
  lemma LiveSplit(bs: seq<Block>, lo: nat, hi: nat)
    requires lo <= hi < |bs|
    ensures Live(bs) == Live(bs[hi+1..]) + Live(bs[lo..hi+1]) + Live(bs[..lo])
  {
    hide Live;
    assert bs == bs[..lo] + (bs[lo..hi+1] + bs[hi+1..]);
    LiveAppend(bs[..lo], bs[lo..hi+1] + bs[hi+1..]);
    LiveAppend(bs[lo..hi+1], bs[hi+1..]);
  }

  lemma LiveAt(bs: seq<Block>, i: nat)
    requires Tiled(bs) && i < |bs| && !bs[i].free
    ensures bs[i].Payload() in Live(bs) && Live(bs)[bs[i].Payload()] == bs[i].size
    ensures LiveIndex(bs, bs[i].Payload()) == i
  {
    var p := bs[i].Payload();
    LiveSplit(bs, i, i);
    assert bs[i..i+1] == [bs[i]] && bs[i..i+1][1..] == [];
    AddressesDistinct(bs, i, LiveIndex(bs, p));
  }

  lemma LiveDisjoint(bs: seq<Block>, p: int, q: int)
    requires Tiled(bs) && p in Live(bs) && q in Live(bs)
    ensures HEADER_SIZE <= p && p + Live(bs)[p] <= ARENA_SIZE
    ensures p < q ==> p + Live(bs)[p] + HEADER_SIZE <= q
  {
    var i, j := LiveIndex(bs, p), LiveIndex(bs, q);
    InArena(bs, i);
    if i < j { Ascending(bs, i, j); }
    if j < i { Ascending(bs, j, i); }
  }

  /** The blocks outside `lo` to `hi` own none of the payloads inside. */
  lemma NotOutside(bs: seq<Block>, lo: nat, hi: nat, k: nat)
    requires Tiled(bs) && lo <= k <= hi < |bs|
    ensures bs[k].Payload() !in Live(bs[..lo]) && bs[k].Payload() !in Live(bs[hi+1..])
  {
    var p := bs[k].Payload();
    if p in Live(bs[..lo]) { AddressesDistinct(bs, LiveIndex(bs[..lo], p), k); }
    if p in Live(bs[hi+1..]) { AddressesDistinct(bs, hi + 1 + LiveIndex(bs[hi+1..], p), k); }
  }

  // ----- allocation -----

  /** clks_heap_align_up, in 64-bit arithmetic: it wraps to 0 above 2^64 - 16. */
  function AlignUp(n: nat): (r: nat)
    requires n < U64
    ensures r % ALIGN == 0
    ensures n <= U64 - ALIGN ==> n <= r < n + ALIGN
    ensures n > U64 - ALIGN ==> r == 0
  {
    var s := (n + (ALIGN - 1)) % U64;
    s - s % ALIGN
  }

  predicate Fits(b: Block, need: nat) {
    b.free && b.size >= need
  }

  function FirstFit(bs: seq<Block>, need: nat): (i: nat)
    ensures i <= |bs|
    ensures i < |bs| ==> Fits(bs[i], need)
    ensures forall j :: 0 <= j < i ==> !Fits(bs[j], need)
  {
    if bs == [] then 0
    else if Fits(bs[0], need) then 0
    else
      var k := FirstFit(bs[1..], need);
      assert forall j :: 0 < j < 1 + k ==> bs[j] == bs[1..][j-1];
      1 + k
  }

  predicate MustSplit(b: Block, need: nat) {
    b.size >= need + HEADER_SIZE + ALIGN
  }

  /** The blocks that replace free block `b` when `need` bytes of it are handed out. */
  function Carve(b: Block, need: nat): seq<Block>
    requires b.size >= need
  {
    if MustSplit(b, need) then
      [Block(b.addr, need, false), Block(b.Payload() + need, b.size - need - HEADER_SIZE, true)]
    else
      [b.(free := false)]
  }

  /** The block list after clks_kmalloc(n), and the payload it returns. */
  function Malloc(bs: seq<Block>, n: nat): (seq<Block>, Option<int>)
    requires n < U64
  {
    var i := FirstFit(bs, AlignUp(n));
    if n == 0 || i == |bs| then (bs, None)
    else (bs[..i] + Carve(bs[i], AlignUp(n)) + bs[i+1..], Some(bs[i].Payload()))
  }

  // ----- release -----

  function Joined(a: Block, b: Block): Block {
    a.(size := a.size + HEADER_SIZE + b.size)
  }

  predicate NextFree(bs: seq<Block>, i: nat) {
    i + 1 < |bs| && bs[i+1].free
  }

  function MergeNext(bs: seq<Block>, i: nat): seq<Block>
    requires i < |bs|
  {
    if NextFree(bs, i) then bs[..i] + [Joined(bs[i], bs[i+1])] + bs[i+2..] else bs
  }

  /** The block list after clks_kfree of live block `i`. */
  function FreeAt(bs: seq<Block>, i: nat): seq<Block>
    requires i < |bs|
  {
    MergeAround(bs[i := bs[i].(free := true)], i)
  }

  /** Block `i` merged with the next block, then with the previous one. */
  function MergeAround(bs: seq<Block>, i: nat): seq<Block>
    requires i < |bs|
  {
    var forward := MergeNext(bs, i);
    if i > 0 && forward[i-1].free then MergeNext(forward, i - 1) else forward
  }

  // ----- what one call does to the block list -----

  /** `mid` covers exactly the addresses of blocks `lo` to `hi` and joins up with the rest. */
  ghost predicate Replaces(bs: seq<Block>, lo: nat, hi: nat, mid: seq<Block>)
    requires lo <= hi < |bs|
  {
    && |mid| > 0 && mid[0].addr == bs[lo].addr && mid[|mid|-1].End() == bs[hi].End()
    && (forall i, j :: 0 <= i && j == i + 1 < |mid| ==> mid[j].addr == mid[i].End() && !(mid[i].free && mid[j].free))
    && (lo > 0 ==> !(bs[lo-1].free && mid[0].free))
    && (hi + 1 < |bs| ==> !(mid[|mid|-1].free && bs[hi+1].free))
  }

  lemma SpliceOk(bs: seq<Block>, lo: nat, hi: nat, mid: seq<Block>)
    requires Ok(bs) && lo <= hi < |bs| && Replaces(bs, lo, hi, mid)
    ensures Ok(bs[..lo] + mid + bs[hi+1..])
  {
    var r := bs[..lo] + mid + bs[hi+1..];
    forall i, j | 0 <= i && j == i + 1 < |r|
      ensures r[j].addr == r[i].End() && !(r[i].free && r[j].free)
    {
      if j > lo + |mid| {
        var k := j - |mid| - lo + hi + 1;
        assert r[j] == bs[k] && r[i] == bs[k-1];
      } else if lo < j < lo + |mid| {
        assert r[j] == mid[j-lo] && r[i] == mid[i-lo];
      }
    }
  }

  lemma MallocKeepsOk(bs: seq<Block>, n: nat)
    requires Ok(bs) && n < U64
    ensures Ok(Malloc(bs, n).0)
  {
    var i := FirstFit(bs, AlignUp(n));
    if n != 0 && i < |bs| {
      SpliceOk(bs, i, i, Carve(bs[i], AlignUp(n)));
    }
  }

  function Lo(bs: seq<Block>, i: nat): nat
    requires i < |bs|
  {
    if i > 0 && bs[i-1].free then i - 1 else i
  }

  function Hi(bs: seq<Block>, i: nat): nat
    requires i < |bs|
  {
    if NextFree(bs, i) then i + 1 else i
  }

  /** One free block in place of blocks `lo` to `hi`. */
  ghost function Whole(bs: seq<Block>, lo: nat, hi: nat): Block
    requires Tiled(bs) && lo <= hi < |bs|
  {
    if lo < hi then Ascending(bs, lo, hi); Block(bs[lo].addr, bs[hi].End() - bs[lo].Payload(), true)
    else bs[lo].(free := true)
  }

  ghost function Fused(bs: seq<Block>, lo: nat, hi: nat): seq<Block>
    requires Tiled(bs) && lo <= hi < |bs|
  {
    bs[..lo] + [Whole(bs, lo, hi)] + bs[hi+1..]
  }

  lemma MergeForward(bs: seq<Block>, i: nat)
    requires Tiled(bs) && i < |bs|
    ensures MergeNext(bs[i := bs[i].(free := true)], i) == Fused(bs, i, Hi(bs, i))
  {
    var marked := bs[i := bs[i].(free := true)];
    assert marked[..i] == bs[..i];
    if NextFree(bs, i) {
      assert marked[i+2..] == bs[i+2..];
      assert bs[i+1].addr == bs[i].End();
    } else {
      assert marked[i+1..] == bs[i+1..];
      assert marked == bs[..i] + [marked[i]] + marked[i+1..];
    }
  }

  lemma MergeBackward(bs: seq<Block>, i: nat, hi: nat)
    requires Tiled(bs) && 0 < i <= hi < |bs| && bs[i-1].free
    ensures MergeNext(Fused(bs, i, hi), i - 1) == Fused(bs, i - 1, hi)
  {
    var f := Fused(bs, i, hi);
    assert f[i-1] == bs[i-1] && f[i] == Whole(bs, i, hi);
    assert f[..i-1] == bs[..i-1];
    assert f[i+1..] == bs[hi+1..];
    assert bs[i].addr == bs[i-1].End();
  }

  /** Releasing block `i` puts one free block in place of it and of its free neighbours. */
  lemma FreeAtShape(bs: seq<Block>, i: nat)
    requires Tiled(bs) && i < |bs|
    ensures FreeAt(bs, i) == Fused(bs, Lo(bs, i), Hi(bs, i))
  {
    MergeForward(bs, i);
    if i > 0 && bs[i-1].free {
      MergeBackward(bs, i, Hi(bs, i));
    }
  }

  lemma FreeKeepsOk(bs: seq<Block>, i: nat)
    requires Ok(bs) && i < |bs| && !bs[i].free
    ensures Ok(FreeAt(bs, i))
  {
    FreeAtShape(bs, i);
    SpliceOk(bs, Lo(bs, i), Hi(bs, i), [Whole(bs, Lo(bs, i), Hi(bs, i))]);
  }

  // ----- what one call does to the live payloads -----

  lemma SpliceLive(bs: seq<Block>, lo: nat, hi: nat, mid: seq<Block>)
    requires lo <= hi < |bs|
    ensures Live(bs[..lo] + mid + bs[hi+1..]) == Live(bs[hi+1..]) + Live(mid) + Live(bs[..lo])
  {
    hide Live;
    LiveAppend(bs[..lo] + mid, bs[hi+1..]);
    LiveAppend(bs[..lo], mid);
  }

  /** clks_kmalloc hands out a payload that was not live and leaves every live one in place. */
  lemma MallocLive(bs: seq<Block>, n: nat)
    requires Tiled(bs) && n < U64 && Malloc(bs, n).1.Some?
    ensures var p := Malloc(bs, n).1.value; var live := Live(Malloc(bs, n).0);
            && p !in Live(bs) && p in live && live[p] >= AlignUp(n)
            && live == Live(bs)[p := live[p]]
  {
    var i := FirstFit(bs, AlignUp(n));
    var mid := Carve(bs[i], AlignUp(n));
    LiveSplit(bs, i, i);
    SpliceLive(bs, i, i, mid);
    NotOutside(bs, i, i, i);
    assert bs[i..i+1] == [bs[i]] && [bs[i]][1..] == [];
    assert Live(bs[i..i+1]) == map[];
    assert Live(mid[1..]) == map[];
    assert Live(mid) == map[mid[0].Payload() := mid[0].size];
  }

  /** Block `i` is the only live one among blocks `lo` to `hi`. */
  ghost predicate OnlyLive(bs: seq<Block>, lo: nat, i: nat, hi: nat) {
    && lo <= i <= hi < |bs| && !bs[i].free
    && forall k :: lo <= k <= hi && k != i ==> bs[k].free
  }

  lemma {:induction false} NothingLive(bs: seq<Block>)
    requires forall k :: 0 <= k < |bs| ==> bs[k].free
    ensures Live(bs) == map[] && UsedBytes(bs) == 0 && LiveCount(bs) == 0
  {
    if bs != [] { NothingLive(bs[1..]); }
  }

  lemma OneLive(bs: seq<Block>, lo: nat, i: nat, hi: nat)
    requires OnlyLive(bs, lo, i, hi)
    ensures Live(bs[lo..hi+1]) == map[bs[i].Payload() := bs[i].size]
    ensures UsedBytes(bs[lo..hi+1]) == bs[i].size && LiveCount(bs[lo..hi+1]) == 1
  {
    var before, after := bs[lo..i], bs[i+1..hi+1];
    assert bs[lo..hi+1] == before + ([bs[i]] + after);
    NothingLive(before);
    NothingLive(after);
    LiveAppend(before, [bs[i]] + after);
    CountsAppend(before, [bs[i]] + after);
    assert ([bs[i]] + after)[1..] == after;
  }

  lemma FusedLive(bs: seq<Block>, lo: nat, i: nat, hi: nat)
    requires Tiled(bs) && OnlyLive(bs, lo, i, hi)
    ensures Live(Fused(bs, lo, hi)) == Live(bs) - {bs[i].Payload()}
  {
    var p := bs[i].Payload();
    LiveSplit(bs, lo, hi);
    OneLive(bs, lo, i, hi);
    SpliceLive(bs, lo, hi, [Whole(bs, lo, hi)]);
    NothingLive([Whole(bs, lo, hi)]);
    NotOutside(bs, lo, hi, i);
  }

  /** clks_kfree takes exactly its argument out of the live payloads. */
  lemma FreeLive(bs: seq<Block>, i: nat)
    requires Tiled(bs) && i < |bs| && !bs[i].free
    ensures Live(FreeAt(bs, i)) == Live(bs) - {bs[i].Payload()}
  {
    assert FreeAt(bs, i) == Fused(bs, Lo(bs, i), Hi(bs, i)) by { FreeAtShape(bs, i); }
    FusedLive(bs, Lo(bs, i), i, Hi(bs, i));
  }

  /** clks_kmalloc fails exactly when no free block holds the rounded size. */
  lemma MallocFailsWhenNothingFits(bs: seq<Block>, n: nat)
    requires n < U64
    ensures Malloc(bs, n).1 == None <==> n == 0 || forall b :: b in bs && b.free ==> b.size < AlignUp(n)
    ensures Malloc(bs, n).1 == None ==> Malloc(bs, n).0 == bs
  {
    var i := FirstFit(bs, AlignUp(n));
    if i < |bs| {
      assert bs[i] in bs;
    }
  }

  /** A request is rounded up to 16 bytes and gets the first free block that is large enough: the
      payload begins behind the header of 40 bytes, and the rest is cut off as a free block of its
      own exactly when it has room for a header and 16 bytes. */
  lemma MallocTakesFirst(bs: seq<Block>, n: nat)
    requires Ok(bs) && n < U64 && Malloc(bs, n).1.Some?
    ensures var (after, p) := Malloc(bs, n); var need := (n + 15) % U64 / 16 * 16; var i := FirstFit(bs, need);
            && i < |bs| && bs[i].free && bs[i].size >= need && (forall j :: 0 <= j < i ==> !(bs[j].free && bs[j].size >= need))
            && p.value == bs[i].addr + 40 && p.value in Live(after)
            && Live(after)[p.value] == if bs[i].size >= need + 56 then need else bs[i].size
  {
    hide Live, Tiled, AlignUp;
    RoundedUp(n);
    var i, after := FirstFit(bs, AlignUp(n)), Malloc(bs, n).0;
    MallocKeepsOk(bs, n);
    assert after[i] == Carve(bs[i], AlignUp(n))[0];
    LiveAt(after, i);
  }

  lemma RoundedUp(n: nat)
    requires n < U64
    ensures AlignUp(n) == (n + 15) % U64 / 16 * 16
  {
    var s := (n + 15) % U64;
    assert s == s / 16 * 16 + s % 16;
  }

  /** Two blocks of this size can be handed out one after the other. */
  predicate FitTwo(bs: seq<Block>, n: nat)
    requires n < U64
  {
    Malloc(bs, n).1.Some? && Malloc(Malloc(bs, n).0, n).1.Some?
  }

  /** That is so exactly when two free blocks are large enough, or one is for both and a header. */
  lemma FitTwoMeans(bs: seq<Block>, n: nat)
    requires Ok(bs) && 0 < n <= U64 - 16
    ensures var need := (n + 15) / 16 * 16;
            FitTwo(bs, n) <==>
              || (exists i, j :: 0 <= i < j < |bs| && bs[i].free && bs[j].free && bs[i].size >= need && bs[j].size >= need)
              || (exists i :: 0 <= i < |bs| && bs[i].free && bs[i].size >= 2 * need + 40)
  {
    hide Tiled, Coalesced, AlignUp, Malloc;
    RoundedUp(n);
    assert (n + 15) % U64 == n + 15;
    var need, i := AlignUp(n), FirstFit(bs, AlignUp(n));
    AfterMalloc(bs, n);
    var after := Malloc(bs, n).0;
    MallocFailsWhenNothingFits(after, n);
    if FitTwo(bs, n) {
      var b :| b in after && b.free && b.size >= need;
      var k :| 0 <= k < |after| && after[k] == b;
      FreeBefore(bs, n, k);
    }
    if i0, j0 :| 0 <= i0 < j0 < |bs| && bs[i0].free && bs[j0].free && bs[i0].size >= need && bs[j0].size >= need {
      FreeAfter(bs, n, if i == j0 then i0 else j0);
    } else if i0 :| 0 <= i0 < |bs| && bs[i0].free && bs[i0].size >= 2 * need + 40 {
      assert Fits(bs[i0], need) && i0 == i;
      assert after[i+1].free && after[i+1].size >= need && after[i+1] in after;
    }
  }

  /** The list after an allocation, block by block. */
  lemma AfterMalloc(bs: seq<Block>, n: nat)
    requires 0 < n < U64 && AlignUp(n) >= 16
    ensures var i, need, after := FirstFit(bs, AlignUp(n)), AlignUp(n), Malloc(bs, n).0;
            && (i == |bs| ==> after == bs && Malloc(bs, n).1 == None)
            && (i < |bs| ==> Malloc(bs, n).1.Some?)
            && (i < |bs| && bs[i].size >= need + 56 ==>
                  |after| == |bs| + 1 && !after[i].free && after[i+1].free && after[i+1].size == bs[i].size - need - 40)
            && (i < |bs| && bs[i].size < need + 56 ==> |after| == |bs| && !after[i].free)
            && (i < |bs| ==> after[..i] == bs[..i] && after[|after|-(|bs|-i-1)..] == bs[i+1..])
  {
    hide AlignUp;
  }

  lemma FreeAfter(bs: seq<Block>, n: nat, j: nat)
    requires 0 < n < U64 && AlignUp(n) >= 16 && j < |bs| && bs[j].free && bs[j].size >= AlignUp(n)
    requires j != FirstFit(bs, AlignUp(n))
    ensures exists b :: b in Malloc(bs, n).0 && b.free && b.size >= AlignUp(n)
  {
    hide AlignUp, Malloc;
    AfterMalloc(bs, n);
    var i, after := FirstFit(bs, AlignUp(n)), Malloc(bs, n).0;
    assert Fits(bs[j], AlignUp(n)) && j > i;
    var at := |after| - (|bs| - i - 1);
    assert after[at..][j-i-1] == bs[i+1..][j-i-1] == bs[j];
    assert after[at+(j-i-1)] == bs[j] && bs[j] in after;
  }

  lemma FreeBefore(bs: seq<Block>, n: nat, k: nat)
    requires 0 < n < U64 && AlignUp(n) >= 16 && FirstFit(bs, AlignUp(n)) < |bs|
    requires k < |Malloc(bs, n).0| && Malloc(bs, n).0[k].free && Malloc(bs, n).0[k].size >= AlignUp(n)
    ensures var i, need := FirstFit(bs, AlignUp(n)), AlignUp(n);
            bs[i].size >= 2 * need + 40 || exists j :: 0 <= j < |bs| && j != i && bs[j].free && bs[j].size >= need
  {
    hide AlignUp, Malloc;
    AfterMalloc(bs, n);
    var i, after := FirstFit(bs, AlignUp(n)), Malloc(bs, n).0;
    var at := |after| - (|bs| - i - 1);
    assert forall j :: 0 <= j < i ==> after[j] == after[..i][j] == bs[j] && !Fits(bs[j], AlignUp(n));
    assert k > i;
    if k >= at {
      assert after[k] == after[at..][k-at] == bs[i+1..][k-at] == bs[i+1+(k-at)];
    }
  }

  /** The rounding wraps: a block that is handed out is as long as was asked for exactly when
      the request is at most 2^64 - 16 bytes. */
  lemma MallocHoldsRequest(bs: seq<Block>, n: nat)
    requires n < U64 && Tiled(bs) && Tiled(Malloc(bs, n).0) && Malloc(bs, n).1.Some?
    ensures Malloc(bs, n).1.value in Live(Malloc(bs, n).0)
    ensures Live(Malloc(bs, n).0)[Malloc(bs, n).1.value] >= n <==> n <= U64 - ALIGN
  {
    MallocLive(bs, n);
    LiveDisjoint(Malloc(bs, n).0, Malloc(bs, n).1.value, Malloc(bs, n).1.value);
  }

  /** The largest request is answered with an empty block. */
  lemma MallocWraps()
    ensures Ok(INITIAL)
    ensures var (bs, p) := Malloc(INITIAL, U64 - 1);
            p == Some(HEADER_SIZE) && bs[0] == Block(0, 0, false)
  {
  }

  // ----- the block list is determined by the live payloads -----

  lemma SameLiveBlock(a: seq<Block>, b: seq<Block>, k: nat)
    requires Tiled(a) && Tiled(b) && Live(a) == Live(b)
    requires k < |a| && k < |b| && a[k].addr == b[k].addr && !a[k].free
    ensures a[k] == b[k]
  {
    LiveAt(a, k);
    AddressesDistinct(b, LiveIndex(b, a[k].Payload()), k);
  }

  lemma FreeBlockNotShorter(a: seq<Block>, b: seq<Block>, k: nat)
    requires Ok(a) && Ok(b) && Live(a) == Live(b)
    requires k < |a| && k < |b| && a[k].addr == b[k].addr && a[k].free && b[k].free
    ensures a[k].size >= b[k].size
  {
    if a[k].size < b[k].size {
      InArena(b, k);
      LiveAt(a, k + 1);
      var j := LiveIndex(b, a[k+1].Payload());
      if j < k { Ascending(b, j, k); }
      if k < j { Ascending(b, k, j); }
      assert false;
    }
  }

  lemma SameNextBlock(a: seq<Block>, b: seq<Block>, k: nat)
    requires Ok(a) && Ok(b) && Live(a) == Live(b)
    requires k < |a| && k < |b| && a[k].addr == b[k].addr
    ensures a[k] == b[k]
  {
    if !a[k].free {
      SameLiveBlock(a, b, k);
    } else if !b[k].free {
      SameLiveBlock(b, a, k);
    } else {
      FreeBlockNotShorter(a, b, k);
      FreeBlockNotShorter(b, a, k);
    }
  }

  /** Two well-formed block lists with the same live payloads are the same list; the order in
      which blocks were taken and released leaves no trace. */
  lemma {:induction false} Canonical(a: seq<Block>, b: seq<Block>)
    requires Ok(a) && Ok(b) && Live(a) == Live(b)
    ensures a == b
  {
    SamePrefix(a, b, if |a| < |b| then |a| else |b|);
    if |a| < |b| { InArena(b, |a|); }
    if |b| < |a| { InArena(a, |b|); }
  }

  lemma {:induction false} SamePrefix(a: seq<Block>, b: seq<Block>, k: nat)
    requires Ok(a) && Ok(b) && Live(a) == Live(b) && k <= |a| && k <= |b|
    ensures a[..k] == b[..k]
  {
    if k > 0 {
      SamePrefix(a, b, k - 1);
      if k > 1 { assert a[k-2] == a[..k-1][k-2] && b[k-2] == b[..k-1][k-2]; }
      SameNextBlock(a, b, k - 1);
      assert a[..k] == a[..k-1] + [a[k-1]] && b[..k] == b[..k-1] + [b[k-1]];
    }
  }

  // ----- counting bytes -----

  function UsedBytes(bs: seq<Block>): nat {
    if bs == [] then 0 else UsedBytes(bs[1..]) + if bs[0].free then 0 else bs[0].size
  }

  function FreeBytes(bs: seq<Block>): nat {
    if bs == [] then 0 else FreeBytes(bs[1..]) + if bs[0].free then bs[0].size else 0
  }

  function LiveCount(bs: seq<Block>): nat {
    if bs == [] then 0 else LiveCount(bs[1..]) + if bs[0].free then 0 else 1
  }

  lemma {:induction false} CountsAppend(a: seq<Block>, b: seq<Block>)
    ensures UsedBytes(a + b) == UsedBytes(a) + UsedBytes(b)
    ensures FreeBytes(a + b) == FreeBytes(a) + FreeBytes(b)
    ensures LiveCount(a + b) == LiveCount(a) + LiveCount(b)
  {
    if a == [] {
      assert a + b == b;
    } else {
      assert (a + b)[1..] == a[1..] + b;
      CountsAppend(a[1..], b);
    }
  }

  lemma CountsSplit(bs: seq<Block>, lo: nat, hi: nat, mid: seq<Block>)
    requires lo <= hi < |bs|
    ensures UsedBytes(bs[..lo] + mid + bs[hi+1..]) == UsedBytes(bs) - UsedBytes(bs[lo..hi+1]) + UsedBytes(mid)
    ensures LiveCount(bs[..lo] + mid + bs[hi+1..]) == LiveCount(bs) - LiveCount(bs[lo..hi+1]) + LiveCount(mid)
  {
    hide UsedBytes, LiveCount, FreeBytes;
    assert bs == bs[..lo] + bs[lo..hi+1] + bs[hi+1..];
    CountsAppend(bs[..lo] + bs[lo..hi+1], bs[hi+1..]);
    CountsAppend(bs[..lo], bs[lo..hi+1]);
    CountsAppend(bs[..lo] + mid, bs[hi+1..]);
    CountsAppend(bs[..lo], mid);
  }

  /** The counters that clks_kmalloc advances: one more live block, its bytes more in use. */
  lemma MallocCounts(bs: seq<Block>, n: nat)
    requires Tiled(bs) && n < U64 && Malloc(bs, n).1.Some?
    ensures Malloc(bs, n).1.value in Live(Malloc(bs, n).0)
    ensures UsedBytes(Malloc(bs, n).0) == UsedBytes(bs) + Live(Malloc(bs, n).0)[Malloc(bs, n).1.value]
    ensures LiveCount(Malloc(bs, n).0) == LiveCount(bs) + 1
  {
    MallocLive(bs, n);
    var i := FirstFit(bs, AlignUp(n));
    var mid := Carve(bs[i], AlignUp(n));
    CountsSplit(bs, i, i, mid);
    SpliceLive(bs, i, i, mid);
    NotOutside(bs, i, i, i);
    assert bs[i..i+1] == [bs[i]] && [bs[i]][1..] == [];
    assert Live(mid[1..]) == map[];
    assert Live(mid) == map[mid[0].Payload() := mid[0].size];
    CountsAppend([mid[0]], mid[1..]);
    assert mid == [mid[0]] + mid[1..];
  }

  lemma FusedCounts(bs: seq<Block>, lo: nat, i: nat, hi: nat)
    requires Tiled(bs) && OnlyLive(bs, lo, i, hi)
    ensures UsedBytes(Fused(bs, lo, hi)) == UsedBytes(bs) - bs[i].size
    ensures LiveCount(Fused(bs, lo, hi)) == LiveCount(bs) - 1
  {
    CountsSplit(bs, lo, hi, [Whole(bs, lo, hi)]);
    OneLive(bs, lo, i, hi);
    NothingLive([Whole(bs, lo, hi)]);
  }

  lemma FreeCounts(bs: seq<Block>, i: nat)
    requires Tiled(bs) && i < |bs| && !bs[i].free
    ensures UsedBytes(FreeAt(bs, i)) == UsedBytes(bs) - bs[i].size
    ensures LiveCount(FreeAt(bs, i)) == LiveCount(bs) - 1
  {
    assert FreeAt(bs, i) == Fused(bs, Lo(bs, i), Hi(bs, i)) by { FreeAtShape(bs, i); }
    FusedCounts(bs, Lo(bs, i), i, Hi(bs, i));
  }

  lemma {:induction false} ExtentOfPrefix(bs: seq<Block>, k: nat)
    requires Tiled(bs) && 0 < k <= |bs|
    ensures bs[k-1].End() == UsedBytes(bs[..k]) + FreeBytes(bs[..k]) + HEADER_SIZE * k
  {
    assert bs[..k] == bs[..k-1] + [bs[k-1]];
    CountsAppend(bs[..k-1], [bs[k-1]]);
    if k > 1 { ExtentOfPrefix(bs, k - 1); }
  }

  /** The free bytes that clks_heap_get_stats reports are the bytes of the free blocks plus one
      header for every block beyond the first. */
  lemma ReportedFreeBytes(bs: seq<Block>)
    requires Ok(bs)
    ensures ARENA_SIZE - HEADER_SIZE - UsedBytes(bs) == FreeBytes(bs) + HEADER_SIZE * (|bs| - 1)
  {
    ExtentOfPrefix(bs, |bs|);
    assert bs[..|bs|] == bs;
  }

  // ----- whole runs -----

  datatype Op = Allocate(n: nat) | Release(p: int)

  /** The calls the kernel may make: any size, and a release of null or of a live payload. */
  predicate Legal(bs: seq<Block>, op: Op) {
    match op
    case Allocate(n) => n < U64
    case Release(p) => p == NULL || p in Live(bs)
  }

  function Apply(bs: seq<Block>, op: Op): seq<Block>
    requires Legal(bs, op)
  {
    match op
    case Allocate(n) => Malloc(bs, n).0
    case Release(p) => if p == NULL then bs else FreeAt(bs, LiveIndex(bs, p))
  }

  lemma ApplyKeepsOk(bs: seq<Block>, op: Op)
    requires Ok(bs) && Legal(bs, op)
    ensures Ok(Apply(bs, op))
  {
    match op
    case Allocate(n) => MallocKeepsOk(bs, n);
    case Release(p) => if p != NULL { FreeKeepsOk(bs, LiveIndex(bs, p)); }
  }

  /** `run` is a run of legal calls from block list `bs` that ends in `last`. */
  predicate Reaches(bs: seq<Block>, run: seq<Op>, last: seq<Block>)
    decreases |run|
  {
    if run == [] then bs == last
    else Legal(bs, run[0]) && Reaches(Apply(bs, run[0]), run[1..], last)
  }

  /** After every run the blocks tile the arena with no two neighbours free, the live payloads
      are disjoint, and the reported free bytes are what the free blocks hold. */
  lemma {:induction false} EveryRunKeepsHeap(bs: seq<Block>, run: seq<Op>, last: seq<Block>)
    requires Ok(bs) && Reaches(bs, run, last)
    ensures Ok(last)
    ensures forall p, q :: p in Live(last) && q in Live(last) && p < q ==> p + Live(last)[p] + HEADER_SIZE <= q
    ensures ARENA_SIZE - HEADER_SIZE - UsedBytes(last) == FreeBytes(last) + HEADER_SIZE * (|last| - 1)
    decreases |run|
  {
    if run == [] {
      forall p, q | p in Live(last) && q in Live(last) && p < q
        ensures p + Live(last)[p] + HEADER_SIZE <= q
      {
        LiveDisjoint(last, p, q);
      }
      ReportedFreeBytes(last);
    } else {
      ApplyKeepsOk(bs, run[0]);
      EveryRunKeepsHeap(Apply(bs, run[0]), run[1..], last);
    }
  }

  /** However the live blocks were released, a heap without live blocks is the initial heap. */
  lemma EmptyHeapIsInitial(run: seq<Op>, last: seq<Block>)
    requires Reaches(INITIAL, run, last)
    ensures Live(last) == map[] ==> last == INITIAL
  {
    EveryRunKeepsHeap(INITIAL, run, last);
    assert Live(INITIAL) == map[];
    if Live(last) == map[] { Canonical(last, INITIAL); }
  }

  /** clks_kfree undoes clks_kmalloc, whatever was split. */
  lemma ReleaseUndoesAllocate(bs: seq<Block>, n: nat)
    requires Ok(bs) && n < U64 && Malloc(bs, n).1.Some?
    ensures var (after, p) := Malloc(bs, n);
            p.value in Live(after) && Apply(after, Release(p.value)) == bs
  {
    hide Malloc, FreeAt, Tiled, Coalesced;
    MallocLive(bs, n);
    MallocKeepsOk(bs, n);
    var (after, p) := Malloc(bs, n);
    LiveDisjoint(after, p.value, p.value);
    var i := LiveIndex(after, p.value);
    FreeLive(after, i);
    FreeKeepsOk(after, i);
    Canonical(FreeAt(after, i), bs);
  }

  lemma Released(bs: seq<Block>, p: int)
    requires Ok(bs) && p in Live(bs)
    ensures p != NULL
    ensures Ok(Apply(bs, Release(p))) && Live(Apply(bs, Release(p))) == Live(bs) - {p}
  {
    LiveDisjoint(bs, p, p);
    FreeLive(bs, LiveIndex(bs, p));
    FreeKeepsOk(bs, LiveIndex(bs, p));
  }

  /** Two releases give the same block list in either order. */
  lemma ReleasesCommute(bs: seq<Block>, p: int, q: int, bp: seq<Block>, bq: seq<Block>)
    requires Ok(bs) && p in Live(bs) && q in Live(bs) && p != q
    requires bp == Apply(bs, Release(p)) && bq == Apply(bs, Release(q))
    ensures p in Live(bq) && q in Live(bp)
    ensures Apply(bp, Release(q)) == Apply(bq, Release(p))
  {
    hide Apply, Tiled, Coalesced;
    Released(bs, p);
    Released(bs, q);
    assert Live(bs) - {p} - {q} == Live(bs) - {q} - {p};
    SameAfter(bp, q, bq, p);
  }

  lemma SameAfter(a: seq<Block>, p: int, b: seq<Block>, q: int)
    requires Ok(a) && Ok(b) && p in Live(a) && q in Live(b)
    requires Live(a) - {p} == Live(b) - {q}
    ensures Apply(a, Release(p)) == Apply(b, Release(q))
  {
    Released(a, p);
    Released(b, q);
    Canonical(Apply(a, Release(p)), Apply(b, Release(q)));
  }

  // ----- the linked headers -----

  datatype Header = Header(size: nat, isFree: bool, next: int, prev: int, magic: nat)

  function AddrAt(bs: seq<Block>, i: int): int {
    if 0 <= i < |bs| then bs[i].addr else NULL
  }

  /** What the header of block `i` holds: its size and state, and links that agree with its
      neighbours in address order. */
  predicate LinkedAt(headers: map<int, Header>, bs: seq<Block>, i: nat)
    requires i < |bs|
  {
    && bs[i].addr in headers
    && headers[bs[i].addr] == Header(bs[i].size, bs[i].free, AddrAt(bs, i + 1), AddrAt(bs, i - 1), MAGIC)
  }

  ghost predicate Linked(headers: map<int, Header>, bs: seq<Block>) {
    forall i :: 0 <= i < |bs| ==> LinkedAt(headers, bs, i)
  }

  /** No byte of these payloads differs between two contents of the arena. */
  ghost predicate Kept(live: map<int, nat>, before: seq<byte>, after: seq<byte>) {
    && |before| == |after|
    && forall p, k :: p in live && p <= k < p + live[p] && 0 <= k < |before| ==> before[k] == after[k]
  }

  /** Payload `p` of at least `need` bytes has joined the live ones. */
  ghost predicate Handed(live: map<int, nat>, live2: map<int, nat>, p: int, need: nat) {
    && p !in live && p in live2 && live2 == live[p := live2[p]]
    && live2[p] >= need && HEADER_SIZE <= p && p + live2[p] <= ARENA_SIZE
  }

  /** Block `i` cut down to `need` bytes, with the rest of it as a free block behind. */
  ghost function Split(bs: seq<Block>, i: nat, need: nat): seq<Block>
    requires i < |bs| && bs[i].size >= need
  {
    var carved := Carve(bs[i], need);
    bs[..i] + [carved[0].(free := true)] + carved[1..] + bs[i+1..]
  }

  lemma SplitTiled(bs: seq<Block>, i: nat, need: nat)
    requires Tiled(bs) && i < |bs| && Fits(bs[i], need)
    ensures Tiled(Split(bs, i, need))
    ensures !MustSplit(bs[i], need) ==> Split(bs, i, need) == bs
    ensures MustSplit(bs[i], need) ==>
              var r := Split(bs, i, need);
              && |r| == |bs| + 1
              && r[i] == Block(bs[i].addr, need, true)
              && r[i+1] == Block(bs[i].Payload() + need, bs[i].size - need - HEADER_SIZE, true)
              && (forall k :: 0 <= k < i ==> r[k] == bs[k])
              && (forall k :: i + 1 < k < |r| ==> r[k] == bs[k-1])
  {
    var r := Split(bs, i, need);
    if MustSplit(bs[i], need) {
      forall k, j | 0 <= k && j == k + 1 < |r|
        ensures r[j].addr == r[k].End()
      {
        if j > i + 2 { assert r[j] == bs[j-1] && r[k] == bs[k-1]; }
      }
    }
  }

  /** The header updates of a split: the new header, the back link behind it, the shrunk one. */
  lemma SplitLinks(hs: map<int, Header>, bs: seq<Block>, i: nat, need: nat)
    requires Tiled(bs) && Linked(hs, bs) && i < |bs| && Fits(bs[i], need) && MustSplit(bs[i], need)
    ensures LinkedAt(hs, bs, i) && (i + 1 < |bs| ==> LinkedAt(hs, bs, i + 1))
    ensures var h, added := hs[bs[i].addr], bs[i].Payload() + need;
            var h1 := hs[added := Header(bs[i].size - need - HEADER_SIZE, true, h.next, bs[i].addr, MAGIC)];
            var h2 := if i + 1 < |bs| then h1[h.next := h1[h.next].(prev := added)] else h1;
            Linked(h2[bs[i].addr := h.(next := added, size := need)], Split(bs, i, need))
  {
    hide Tiled, Split, Carve;
    assert LinkedAt(hs, bs, i);
    if i + 1 < |bs| { assert LinkedAt(hs, bs, i + 1); }
    SplitTiled(bs, i, need);
    var r := Split(bs, i, need);
    var h, added := hs[bs[i].addr], bs[i].Payload() + need;
    var h1 := hs[added := Header(bs[i].size - need - HEADER_SIZE, true, h.next, bs[i].addr, MAGIC)];
    var h2 := if i + 1 < |bs| then h1[h.next := h1[h.next].(prev := added)] else h1;
    var h3 := h2[bs[i].addr := h.(next := added, size := need)];
    Ascending(r, i, i + 1);
    if i + 2 < |r| {
      Ascending(r, i, i + 2);
      Ascending(r, i + 1, i + 2);
    }
    forall k | 0 <= k < |r|
      ensures LinkedAt(h3, r, k)
    {
      if k < i {
        assert LinkedAt(hs, bs, k);
        Ascending(r, k, i);
        Ascending(r, k, i + 1);
        if i + 1 < |bs| { Ascending(r, k, i + 2); }
      } else if k > i + 2 {
        assert LinkedAt(hs, bs, k - 1);
        Ascending(r, i, k);
        Ascending(r, i + 1, k);
        Ascending(r, i + 2, k);
      }
    }
  }

  /** The header updates of a merge: the grown header and the back link behind it. */
  lemma MergeLinks(hs: map<int, Header>, bs: seq<Block>, i: nat)
    requires Tiled(bs) && Linked(hs, bs) && i < |bs| && NextFree(bs, i)
    ensures LinkedAt(hs, bs, i) && LinkedAt(hs, bs, i + 1) && (i + 2 < |bs| ==> LinkedAt(hs, bs, i + 2))
    ensures var h, nh := hs[bs[i].addr], hs[bs[i+1].addr];
            var h1 := hs[bs[i].addr := h.(size := h.size + HEADER_SIZE + nh.size, next := nh.next)];
            var h2 := if i + 2 < |bs| then h1[nh.next := h1[nh.next].(prev := bs[i].addr)] else h1;
            Linked(h2, MergeNext(bs, i))
  {
    hide Tiled, MergeNext;
    assert LinkedAt(hs, bs, i) && LinkedAt(hs, bs, i + 1);
    if i + 2 < |bs| { assert LinkedAt(hs, bs, i + 2); }
    var r := MergeNext(bs, i);
    var h, nh := hs[bs[i].addr], hs[bs[i+1].addr];
    var h1 := hs[bs[i].addr := h.(size := h.size + HEADER_SIZE + nh.size, next := nh.next)];
    var h2 := if i + 2 < |bs| then h1[nh.next := h1[nh.next].(prev := bs[i].addr)] else h1;
    forall k | 0 <= k < |r|
      ensures LinkedAt(h2, r, k)
    {
      MergedLinkAt(hs, bs, i, k, h2);
    }
  }

  lemma MergedLinkAt(hs: map<int, Header>, bs: seq<Block>, i: nat, k: nat, h2: map<int, Header>)
    requires Tiled(bs) && Linked(hs, bs) && i < |bs| && NextFree(bs, i) && k < |MergeNext(bs, i)|
    requires LinkedAt(hs, bs, i) && LinkedAt(hs, bs, i + 1) && (i + 2 < |bs| ==> LinkedAt(hs, bs, i + 2))
    requires var h, nh := hs[bs[i].addr], hs[bs[i+1].addr];
             var h1 := hs[bs[i].addr := h.(size := h.size + HEADER_SIZE + nh.size, next := nh.next)];
             h2 == if i + 2 < |bs| then h1[nh.next := h1[nh.next].(prev := bs[i].addr)] else h1
    ensures LinkedAt(h2, MergeNext(bs, i), k)
  {
    hide Tiled, Linked;
    MergeKeepsTiled(bs, i);
    var r := MergeNext(bs, i);
    assert |r| == |bs| - 1 && r[i].addr == bs[i].addr;
    assert forall j :: 0 <= j < i ==> r[j] == bs[j];
    assert forall j :: i < j < |r| ==> r[j] == bs[j+1];
    if i + 1 < |r| { Ascending(r, i, i + 1); }
    if k < i {
      assert LinkedAt(hs, bs, k) by { LinkAt(hs, bs, k); }
      Ascending(r, k, i);
      if i + 2 < |bs| { Ascending(r, k, i + 1); }
    } else if k > i + 1 {
      assert LinkedAt(hs, bs, k + 1) by { LinkAt(hs, bs, k + 1); }
      Ascending(r, i, k);
      Ascending(r, i + 1, k);
    }
  }

  lemma LinkAt(hs: map<int, Header>, bs: seq<Block>, i: nat)
    requires Linked(hs, bs) && i < |bs|
    ensures LinkedAt(hs, bs, i)
  {
  }

  lemma MergeKeepsTiled(bs: seq<Block>, i: nat)
    requires Tiled(bs) && i < |bs|
    ensures Tiled(MergeNext(bs, i))
  {
    var r := MergeNext(bs, i);
    forall k, j | 0 <= k && j == k + 1 < |r|
      ensures r[j].addr == r[k].End()
    {
      if NextFree(bs, i) && j > i + 1 { assert r[j] == bs[j+1] && r[k] == bs[k+1]; }
    }
  }

  lemma FirstFitIs(bs: seq<Block>, need: nat, i: nat)
    requires i <= |bs| && (i < |bs| ==> Fits(bs[i], need))
    requires forall j :: 0 <= j < i ==> !Fits(bs[j], need)
    ensures FirstFit(bs, need) == i
  {
  }

  lemma MarkLinks(hs: map<int, Header>, bs: seq<Block>, i: nat, free: bool)
    requires Tiled(bs) && Linked(hs, bs) && i < |bs|
    ensures LinkedAt(hs, bs, i)
    ensures Linked(hs[bs[i].addr := hs[bs[i].addr].(isFree := free)], bs[i := bs[i].(free := free)])
  {
    assert LinkedAt(hs, bs, i);
    var marked, r := hs[bs[i].addr := hs[bs[i].addr].(isFree := free)], bs[i := bs[i].(free := free)];
    forall k | 0 <= k < |bs|
      ensures LinkedAt(marked, r, k)
    {
      assert LinkedAt(hs, bs, k);
      if bs[k].addr == bs[i].addr { AddressesDistinct(bs, k, i); }
    }
  }

  /** Writing only to free blocks `i` to `hi`, their headers and the header behind them keeps
      every payload. */
  lemma KeptOutside(bs: seq<Block>, i: nat, hi: nat, before: seq<byte>, after: seq<byte>)
    requires Tiled(bs) && i <= hi < |bs| && |after| == |before|
    requires forall k :: i <= k <= hi ==> bs[k].free
    requires forall k :: 0 <= k < |before| && !(bs[i].addr <= k < bs[hi].End() + HEADER_SIZE) ==> after[k] == before[k]
    ensures Kept(Live(bs), before, after)
  {
    forall p, k | p in Live(bs) && p <= k < p + Live(bs)[p] && 0 <= k < |before|
      ensures before[k] == after[k]
    {
      var j := LiveIndex(bs, p);
      if j < i { Ascending(bs, j, i); } else { Ascending(bs, hi, j); }
    }
  }

  lemma KeptTwice(live: map<int, nat>, before: seq<byte>, middle: seq<byte>, after: seq<byte>)
    requires Kept(live, before, middle) && Kept(live, middle, after)
    ensures Kept(live, before, after)
  {
  }

  lemma MergeLive(bs: seq<Block>, i: nat)
    requires i + 1 < |bs| && bs[i].free && bs[i+1].free
    ensures Live(MergeNext(bs, i)) == Live(bs)
  {
    hide Live;
    LiveSplit(bs, i, i + 1);
    SpliceLive(bs, i, i + 1, [Joined(bs[i], bs[i+1])]);
    NothingLive([Joined(bs[i], bs[i+1])]);
    NothingLive(bs[i..i+2]);
  }

  lemma SplitThenClaim(bs: seq<Block>, i: nat, n: nat)
    requires n < U64 && n != 0 && i == FirstFit(bs, AlignUp(n)) && i < |bs|
    ensures i < |Split(bs, i, AlignUp(n))|
    ensures var r := Split(bs, i, AlignUp(n));
            r[i := r[i].(free := false)] == Malloc(bs, n).0
  {
  }

  lemma KeptSame(live: map<int, nat>, bytes: seq<byte>)
    ensures Kept(live, bytes, bytes)
  {
  }

  lemma KeptFewer(live: map<int, nat>, some: map<int, nat>, before: seq<byte>, after: seq<byte>)
    requires Kept(live, before, after)
    requires forall p :: p in some ==> p in live && live[p] == some[p]
    ensures Kept(some, before, after)
  {
  }

  /** LiveDisjoint for both orders of two live payloads. */
  lemma Apart(bs: seq<Block>, p: int, q: int)
    requires Ok(bs) && p in Live(bs) && q in Live(bs)
    ensures HEADER_SIZE <= p && p + Live(bs)[p] <= ARENA_SIZE
    ensures HEADER_SIZE <= q && q + Live(bs)[q] <= ARENA_SIZE
    ensures p != q ==> p + Live(bs)[p] + HEADER_SIZE <= q || q + Live(bs)[q] + HEADER_SIZE <= p
  {
    LiveDisjoint(bs, p, q);
    LiveDisjoint(bs, q, p);
  }

  lemma KeptSlice(live: map<int, nat>, before: seq<byte>, after: seq<byte>, p: int, a: int, n: nat)
    requires Kept(live, before, after) && p in live && 0 <= p <= a && a + n <= p + live[p] <= |before|
    ensures |after| == |before| && after[a..a+n] == before[a..a+n]
  {
  }

  /** Filling a payload that has just been handed out keeps all the others. */
  lemma FillKeeps(bs: seq<Block>, live: map<int, nat>, q: int, n: nat, before: seq<byte>, middle: seq<byte>, after: seq<byte>)
    requires Ok(bs) && q in Live(bs) && q !in live && Live(bs) == live[q := Live(bs)[q]] && n <= Live(bs)[q]
    requires Kept(live, before, middle) && |after| == |middle|
    requires forall k :: 0 <= k < |middle| && !(q <= k < q + n) ==> after[k] == middle[k]
    ensures Kept(live, before, after)
  {
    forall p, k | p in live && p <= k < p + live[p] && 0 <= k < |before|
      ensures before[k] == after[k]
    {
      assert p in Live(bs) && Live(bs)[p] == live[p];
      LiveDisjoint(bs, p, q);
      LiveDisjoint(bs, q, p);
    }
  }

  class Arena {
    var bytes: array<byte>
    var head: int
    var headers: map<int, Header>
    var usedBytes: nat
    var allocCount: nat
    var freeCount: nat
    ghost var blocks: seq<Block>

    ghost predicate Valid()
      reads this
    {
      && bytes.Length == ARENA_SIZE && head == 0
      && Ok(blocks) && Linked(headers, blocks)
      && usedBytes == UsedBytes(blocks) && allocCount == freeCount + LiveCount(blocks)
    }

    /** clks_heap_init */
    constructor ()
      ensures Valid() && fresh(bytes) && blocks == INITIAL
      ensures forall k :: 0 <= k < ARENA_SIZE ==> bytes[k] == 0
    {
      bytes := new byte[ARENA_SIZE](i => 0);
      head := 0;
      headers := map[0 := Header(ARENA_SIZE - HEADER_SIZE, true, NULL, NULL, MAGIC)];
      usedBytes, allocCount, freeCount := 0, 0, 0;
      blocks := INITIAL;
    }

    /** Stores a header; which bytes represent it is left open. */
    method WriteHeader(a: int, h: Header)
      requires bytes.Length == ARENA_SIZE && 0 <= a && a + HEADER_SIZE <= ARENA_SIZE
      modifies this`headers, bytes
      ensures headers == old(headers)[a := h]
      ensures forall k :: 0 <= k < ARENA_SIZE && !(a <= k < a + HEADER_SIZE) ==> bytes[k] == old(bytes[k])
    {
      var k := a;
      while k < a + HEADER_SIZE
        invariant a <= k <= a + HEADER_SIZE
        invariant headers == old(headers)
        invariant forall j :: 0 <= j < ARENA_SIZE && !(a <= j < k) ==> bytes[j] == old(bytes[j])
      {
        bytes[k] := *;
        k := k + 1;
      }
      headers := headers[a := h];
    }

    /** clks_heap_split_block */
    method SplitBlock(block: int, need: nat, ghost i: nat)
      requires bytes.Length == ARENA_SIZE && Ok(blocks) && Linked(headers, blocks)
      requires i < |blocks| && blocks[i].addr == block && Fits(blocks[i], need)
      modifies this`headers, this`blocks, bytes
      ensures blocks == Split(old(blocks), i, need) && Tiled(blocks) && Linked(headers, blocks)
      ensures forall k :: 0 <= k < ARENA_SIZE && !(block <= k < old(blocks)[i].End() + HEADER_SIZE)
                ==> bytes[k] == old(bytes[k])
    {
      var h := headers[block];
      assert LinkedAt(headers, blocks, i);
      SplitTiled(blocks, i, need);
      if h.size < need + (HEADER_SIZE + ALIGN) {
        return;
      }
      SplitLinks(headers, blocks, i, need);
      InArena(blocks, i);
      var added := block + HEADER_SIZE + need;
      WriteHeader(added, Header(h.size - need - HEADER_SIZE, true, h.next, block, MAGIC));
      if h.next != NULL {
        InArena(blocks, i + 1);
        assert LinkedAt(old(headers), blocks, i + 1);
        WriteHeader(h.next, headers[h.next].(prev := added));
      }
      WriteHeader(block, h.(next := added, size := need));
      blocks := Split(blocks, i, need);
    }

    /** clks_heap_merge_next */
    method MergeWithNext(block: int, ghost i: nat)
      requires bytes.Length == ARENA_SIZE && Tiled(blocks) && Linked(headers, blocks)
      requires i < |blocks| && blocks[i].addr == block && blocks[i].free
      modifies this`headers, this`blocks, bytes
      ensures blocks == MergeNext(old(blocks), i) && Tiled(blocks) && Linked(headers, blocks)
      ensures Live(blocks) == Live(old(blocks)) && Kept(Live(blocks), old(bytes[..]), bytes[..])
    {
      hide Live;
      var h := headers[block];
      assert LinkedAt(headers, blocks, i);
      if i + 1 < |blocks| { InArena(blocks, i + 1); }
      if h.next == NULL {
        return;
      }
      assert LinkedAt(headers, blocks, i + 1);
      var nh := headers[h.next];
      if !nh.isFree {
        return;
      }
      if nh.magic != MAGIC {
        assert false;
      }
      MergeLinks(headers, blocks, i);
      InArena(blocks, i);
      ghost var before := bytes[..];
      WriteHeader(block, h.(size := h.size + HEADER_SIZE + nh.size, next := nh.next));
      if nh.next != NULL {
        InArena(blocks, i + 2);
        WriteHeader(nh.next, headers[nh.next].(prev := block));
      }
      KeptOutside(blocks, i, i + 1, before, bytes[..]);
      MergeLive(blocks, i);
      MergeKeepsTiled(blocks, i);
      blocks := MergeNext(blocks, i);
    }

    /** The part of clks_kmalloc that hands out the block it has found. */
    method Claim(block: int, ghost size: nat, need: nat, ghost i: nat) returns (p: int)
      requires Valid() && size < U64 && size != 0 && need == AlignUp(size)
      requires i < |blocks| && i == FirstFit(blocks, need) && block == blocks[i].addr
      modifies this`headers, this`blocks, this`usedBytes, this`allocCount, bytes
      ensures Valid()
      ensures blocks == Malloc(old(blocks), size).0 && Malloc(old(blocks), size).1 == Some(p)
      ensures p != NULL && allocCount == old(allocCount) + 1
      ensures Kept(Live(old(blocks)), old(bytes[..]), bytes[..])
    {
      hide FirstFit, AlignUp, UsedBytes, LiveCount, Live;
      ghost var was, before := blocks, bytes[..];
      SplitThenClaim(was, i, size);
      InArena(was, i);
      SplitBlock(block, need, i);
      MarkLinks(headers, blocks, i, false);
      var h := headers[block];
      WriteHeader(block, h.(isFree := false));
      blocks := blocks[i := blocks[i].(free := false)];
      KeptOutside(was, i, i, before, bytes[..]);
      usedBytes := usedBytes + h.size;
      allocCount := allocCount + 1;
      p := block + HEADER_SIZE;
      assert Ok(blocks) by { MallocKeepsOk(was, size); }
      assert usedBytes == UsedBytes(blocks) && LiveCount(blocks) == LiveCount(was) + 1 by {
        MallocCounts(was, size);
        LiveAt(blocks, i);
      }
    }

    /** clks_kmalloc */
    method Kmalloc(size: nat) returns (p: int)
      requires Valid() && size < U64
      modifies this`headers, this`blocks, this`usedBytes, this`allocCount, bytes
      ensures Valid()
      ensures blocks == Malloc(old(blocks), size).0
      ensures p == match Malloc(old(blocks), size).1 { case Some(q) => q case None => NULL }
      ensures p == NULL <==> Malloc(old(blocks), size).1 == None
      ensures p == NULL ==> blocks == old(blocks)
      ensures p != NULL ==> Handed(Live(old(blocks)), Live(blocks), p, AlignUp(size))
      ensures allocCount == old(allocCount) + if p == NULL then 0 else 1
      ensures Kept(Live(old(blocks)), old(bytes[..]), bytes[..])
    {
      if size == 0 {
        return NULL;
      }
      var need := AlignUp(size);
      var current := head;
      ghost var i := 0;
      while current != NULL
        invariant 0 <= i <= |blocks| && current == AddrAt(blocks, i)
        invariant forall j :: 0 <= j < i ==> !Fits(blocks[j], need)
        invariant Valid() && blocks == old(blocks) && bytes[..] == old(bytes[..]) && allocCount == old(allocCount)
        decreases |blocks| - i
      {
        assert LinkedAt(headers, blocks, i);
        var h := headers[current];
        if h.magic != MAGIC {
          assert false;
        }
        if h.isFree && h.size >= need {
          FirstFitIs(blocks, need, i);
          MallocLive(blocks, size);
          p := Claim(current, size, need, i);
          LiveDisjoint(blocks, p, p);
          return;
        }
        current := h.next;
        i := i + 1;
      }
      if i < |blocks| { InArena(blocks, i); }
      FirstFitIs(blocks, need, i);
      return NULL;
    }

    /** The two merges at the end of clks_kfree. */
    method Coalesce(block: int, ghost i: nat)
      requires bytes.Length == ARENA_SIZE && Tiled(blocks) && Linked(headers, blocks)
      requires i < |blocks| && blocks[i].addr == block && blocks[i].free
      modifies this`headers, this`blocks, bytes
      ensures blocks == MergeAround(old(blocks), i) && Tiled(blocks) && Linked(headers, blocks)
      ensures Live(blocks) == Live(old(blocks)) && Kept(Live(blocks), old(bytes[..]), bytes[..])
    {
      ghost var before := bytes[..];
      MergeWithNext(block, i);
      ghost var once, middle := blocks, bytes[..];
      assert LinkedAt(headers, blocks, i);
      var prev := headers[block].prev;
      if i > 0 { InArena(blocks, i - 1); }
      if prev != NULL {
        assert LinkedAt(headers, blocks, i - 1);
        if headers[prev].isFree {
          MergeWithNext(prev, i - 1);
          KeptTwice(Live(once), before, middle, bytes[..]);
        }
      }
    }

    /** clks_kfree of null or of a live payload */
    method Kfree(p: int)
      requires Valid() && Legal(blocks, Release(p))
      modifies this`headers, this`blocks, this`usedBytes, this`freeCount, bytes
      ensures Valid()
      ensures blocks == Apply(old(blocks), Release(p))
      ensures Live(blocks) == Live(old(blocks)) - {p}
      ensures freeCount == old(freeCount) + if p == NULL then 0 else 1
      ensures Kept(Live(blocks), old(bytes[..]), bytes[..])
    {
      hide MergeAround, MergeNext, UsedBytes, LiveCount, Live;
      if p == NULL {
        if p in Live(blocks) { LiveDisjoint(blocks, p, p); }
        return;
      }
      FreeLive(blocks, LiveIndex(blocks, p));
      ghost var was, before, i := blocks, bytes[..], LiveIndex(blocks, p);
      MarkLinks(headers, blocks, i, true);
      InArena(blocks, i);
      var block := p - HEADER_SIZE;
      var h := headers[block];
      if h.magic != MAGIC || h.isFree {
        assert false;
      }
      WriteHeader(block, h.(isFree := true));
      blocks := blocks[i := blocks[i].(free := true)];
      KeptOutside(blocks, i, i, before, bytes[..]);
      FreeCounts(was, i);
      if usedBytes >= h.size {
        usedBytes := usedBytes - h.size;
      } else {
        assert false;
      }
      freeCount := freeCount + 1;
      ghost var marked, middle := blocks, bytes[..];
      Coalesce(block, i);
      assert blocks == FreeAt(was, i);
      FreeKeepsOk(was, i);
      KeptTwice(Live(marked), before, middle, bytes[..]);
    }

    /** clks_heap_get_stats */
    method Stats() returns (total: nat, used: nat, free: nat, allocs: nat, frees: nat)
      requires Valid()
      ensures total == ARENA_SIZE - HEADER_SIZE && used == UsedBytes(blocks)
      ensures free == FreeBytes(blocks) + HEADER_SIZE * (|blocks| - 1)
      ensures allocs == frees + LiveCount(blocks)
    {
      ReportedFreeBytes(blocks);
      total := ARENA_SIZE - HEADER_SIZE;
      used := usedBytes;
      free := total - used;
      allocs, frees := allocCount, freeCount;
    }
  }
}
