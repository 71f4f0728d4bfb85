/** The system call statistics (clks/kernel/syscall.c): counts over all calls and over the last
    256 of them. */
module Stats {
  import opened Machine

  const WINDOW: nat := 256

  /** CLKS_SYSCALL_EXEC_PATHV_IO, the highest number that is counted */
  const MAX_ID: nat := 80

  function Count(ids: seq<nat>, id: nat): nat {
    if ids == [] then 0 else Count(ids[..|ids|-1], id) + if ids[|ids|-1] == id then 1 else 0
  }

  /** The last 256 records, or all when there are fewer. */
  function Recent(records: seq<nat>): (w: seq<nat>)
    ensures |w| == if |records| < WINDOW then |records| else WINDOW
  {
    if |records| < WINDOW then records else records[|records|-WINDOW..]
  }

  /** What the ring stores of a number that does not fit 16 bits. */
  function RingId(id: nat): nat {
    if id <= 0xFFFF then id else 0xFFFF
  }

  lemma CountNext(ids: seq<nat>, x: nat, id: nat)
    ensures Count(ids + [x], id) == Count(ids, id) + if x == id then 1 else 0
  {
  }

  lemma {:induction false} CountFirst(ids: seq<nat>, id: nat)
    requires ids != []
    ensures Count(ids, id) == Count(ids[1..], id) + if ids[0] == id then 1 else 0
  {
    if |ids| == 1 {
      assert ids[..0] == ids[1..] == [];
    } else {
      CountFirst(ids[..|ids|-1], id);
      assert ids[..|ids|-1][1..] == ids[1..][..|ids|-2];
    }
  }

  /** What is counted is how often the number occurs. */
  lemma {:induction false} CountIsMultiplicity(ids: seq<nat>, id: nat)
    ensures Count(ids, id) == multiset(ids)[id]
  {
    if ids != [] {
      CountIsMultiplicity(ids[..|ids|-1], id);
      assert ids == ids[..|ids|-1] + [ids[|ids|-1]];
    }
  }

  /** A further record enters the window, and the oldest one leaves it when it is full. */
  lemma RecentNext(records: seq<nat>, x: nat, id: nat)
    ensures var w, w2 := Recent(records), Recent(records + [x]);
            && w2 == (if |records| < WINDOW then w + [x] else w[1..] + [x])
            && Count(w2, id) == Count(w, id) + (if x == id then 1 else 0)
                                - (if |records| >= WINDOW && w[0] == id then 1 else 0)
  {
    var w := Recent(records);
    if |records| < WINDOW {
      CountNext(w, x, id);
    } else {
      CountNext(w[1..], x, id);
      CountFirst(w, id);
    }
  }

  class Recorder {
    var total: nat
    const idCount: array<nat>
    const recentCount: array<nat>
    const ring: array<nat>
    var head: nat
    var size: nat
    ghost var records: seq<nat>

    ghost function InRing(): seq<nat>
      reads `head, `size, ring
      requires ring.Length == WINDOW && head < WINDOW && size <= WINDOW
    {
      if size < WINDOW then ring[..size] else ring[head..] + ring[..head]
    }

    /** The ring holds the recent records, and the recent counts are theirs. */
    ghost predicate RecentOk()
      reads this, ring, recentCount
    {
      && recentCount.Length == MAX_ID + 1 && ring.Length == WINDOW && recentCount != ring
      && head < WINDOW && size <= WINDOW && (size < WINDOW ==> head == size) && size == |Recent(records)|
      && |InRing()| == size && (forall k :: 0 <= k < size ==> InRing()[k] == RingId(Recent(records)[k]))
      && (forall id :: 0 <= id <= MAX_ID ==> recentCount[id] == Count(Recent(records), id))
    }

    ghost predicate Valid()
      reads this, ring, idCount, recentCount
    {
      && RecentOk() && total == |records|
      && idCount.Length == MAX_ID + 1 && idCount != recentCount && idCount != ring
      && (forall id :: 0 <= id <= MAX_ID ==> idCount[id] == Count(records, id))
    }

    /** clks_syscall_stats_reset */
    constructor ()
      ensures Valid() && records == []
    {
      total, head, size, records := 0, 0, 0, [];
      idCount := new nat[MAX_ID + 1](i => 0);
      recentCount := new nat[MAX_ID + 1](i => 0);
      ring := new nat[WINDOW](i => 0);
    }

    /** The part of clks_syscall_stats_record that takes the oldest id out of the counts when the
        ring is full. The guard of the decrement never meets zero. */
    method CountOut()
      requires RecentOk()
      modifies recentCount
      ensures forall id :: 0 <= id <= MAX_ID ==>
                recentCount[id] == Count(Recent(records), id) - (if size == WINDOW && Recent(records)[0] == id then 1 else 0)
    {
      hide Count, Recent;
      if size >= WINDOW {
        ghost var oldest := Recent(records)[0];
        var oldId := ring[head];
        assert oldId == InRing()[0] == RingId(oldest);
        if oldId <= MAX_ID {
          OldestCounted(Recent(records));
          if recentCount[oldId] > 0 {
            recentCount[oldId] := recentCount[oldId] - 1;
          } else {
            assert false;
          }
        }
      }
    }

    /** The part that stores the id in the ring. */
    method Store(ringId: nat)
      requires ring.Length == WINDOW && head < WINDOW && size <= WINDOW && (size < WINDOW ==> head == size)
      modifies this`head, this`size, ring
      ensures head < WINDOW && size <= WINDOW && (size < WINDOW ==> head == size)
      ensures size == if old(size) < WINDOW then old(size) + 1 else WINDOW
      ensures InRing() == (if old(size) < WINDOW then old(InRing()) else old(InRing())[1..]) + [ringId]
    {
      ghost var list := InRing();
      if size < WINDOW {
        size := size + 1;
      }
      ring[head] := ringId;
      head := head + 1;
      if head >= WINDOW {
        head := 0;
      }
      assert InRing() == (if |list| < WINDOW then list else list[1..]) + [ringId];
    }

    /** clks_syscall_stats_record */
    method Record(id: nat)
      requires Valid()
      modifies this, ring, idCount, recentCount
      ensures Valid() && records == old(records) + [id]
    {
      hide Count, Recent, InRing;
      ghost var was := records;
      NextCounts(was, id);
      total := total + 1;
      if id <= MAX_ID {
        idCount[id] := idCount[id] + 1;
      }
      CountOut();
      Store(if id <= 0xFFFF then id else 0xFFFF);
      if id <= MAX_ID {
        recentCount[id] := recentCount[id] + 1;
      }
      records := records + [id];
    }

    lemma NextCounts(was: seq<nat>, id: nat)
      ensures forall k :: Count(was + [id], k) == Count(was, k) + if id == k then 1 else 0
      ensures Recent(was + [id]) == (if |was| < WINDOW then Recent(was) else Recent(was)[1..]) + [id]
      ensures |Recent(was)| == if |was| < WINDOW then |was| else WINDOW
      ensures forall k :: Count(Recent(was + [id]), k)
                == Count(Recent(was), k) + (if id == k then 1 else 0)
                   - (if |was| >= WINDOW && Recent(was)[0] == k then 1 else 0)
    {
      hide Count;
      RecentNext(was, id, 0);
      forall k
        ensures Count(was + [id], k) == Count(was, k) + if id == k then 1 else 0
      {
        CountNext(was, id, k);
      }
      forall k
        ensures Count(Recent(was + [id]), k)
             == Count(Recent(was), k) + (if id == k then 1 else 0) - (if |was| >= WINDOW && Recent(was)[0] == k then 1 else 0)
      {
        RecentNext(was, id, k);
      }
    }

    lemma OldestCounted(w: seq<nat>)
      requires w != []
      ensures Count(w, w[0]) > 0
    {
    }

    /** clks_syscall_stats_recent_id */
    method RecentId(id: nat) returns (n: nat)
      requires Valid()
      ensures n == if id > MAX_ID then 0 else Count(Recent(records), id)
    {
      return if id > MAX_ID then 0 else recentCount[id];
    }

    /** clks_syscall_stats_id */
    method Id(id: nat) returns (n: nat)
      requires Valid()
      ensures n == if id > MAX_ID then 0 else Count(records, id)
    {
      return if id > MAX_ID then 0 else idCount[id];
    }
  }
}
