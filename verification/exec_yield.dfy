/** What a yield, a sleep and a timer tick do: each runs one pending process (clks/kernel/exec.c). */
module ExecYield {
  import opened Machine
  import opened ExecState
  import opened ExecSafety
  import opened ExecSignals

  predicate PendingAt(s: State, i: nat) {
    i < |s.procs| && s.procs[i].used && s.procs[i].phase == Pending
  }

  /** Slot `i` is the first one with a pending process. */
  ghost predicate IsFirstPending(s: State, i: nat) {
    PendingAt(s, i) && forall j: nat :: j < i ==> !PendingAt(s, j)
  }

  ghost predicate NonePending(s: State) {
    forall j: nat :: !PendingAt(s, j)
  }

  // ----- one yield -----

  lemma FirstPendingIs(s: State, i: nat)
    requires IsFirstPending(s, i)
    ensures FirstIn(s.procs, Pending) == i
  {
    assert forall j: nat :: j < i ==> (InPhase(s.procs[j], Pending) <==> PendingAt(s, j));
    FirstInIs(s.procs, Pending, i);
  }

  /** A yield runs the first pending process, whatever calls its program makes: it comes back
      stopped if it was asked to stop, and else exited, with the status that it was last asked to
      leave with or that it returns. */
  lemma YieldRuns(s: State, i: nat, body: Calls, ret: nat)
    requires ProcsOk(s, MAX_PROCS) && IsFirstPending(s, i) && !s.dispatching
    requires StartsAtRoot(s.procs[i].path) && |s.stack| < 16
    ensures var top, r := Top(LeftBy(s, i, body)), DoYield(s, Runs(body, ret));
            && i < |r.procs| && r.procs[i].used && r.procs[i].pid == s.procs[i].pid
            && r.procs[i].phase == (if top.stopAsked then Stopped else Exited)
            && r.procs[i].status == (if top.exitAsked then top.exitStatus else ret)
            && r.stack == s.stack && !r.dispatching
  {
    hide Dispatch, LeftBy, ProcsOk, Later, StartsAtRoot;
    FirstPendingIs(s, i);
    DispatchOk(s, i, Runs(body, ret));
    DispatchLeaves(s, i, body, ret);
  }

  /** Without a program that can be run, or without room on the stack, it has exited as failed. */
  lemma YieldFails(s: State, i: nat, image: Image)
    requires IsFirstPending(s, i) && !s.dispatching
    requires !image.Runs? || !StartsAtRoot(s.procs[i].path) || |s.stack| >= 16
    ensures var r := DoYield(s, image);
            && i < |r.procs| && r.procs[i].pid == s.procs[i].pid
            && r.procs[i].phase == Exited && r.procs[i].status == 0xFFFF_FFFF_FFFF_FFFF
            && r.stack == s.stack && !r.dispatching
  {
    hide RunSlot, StartsAtRoot, EndRun, StartRun;
    FirstPendingIs(s, i);
    var inside := s.(dispatching := true);
    if !StartsAtRoot(s.procs[i].path) || |s.stack| >= MAX_DEPTH {
      RunSlotRejects(inside, i, image);
    } else {
      RunSlotFails(inside, i, image);
      FailedRecord(inside, i);
    }
  }

  lemma FailedRecord(s: State, slot: nat)
    requires slot < |s.procs|
    ensures var p := FailRun(Push(s, slot), slot).procs[slot];
            p.pid == s.procs[slot].pid && p.phase == Exited && p.status == FAILED
  {
    hide WithoutOwner, ImagesOf, Pause;
  }

  /** Nothing happens while a dispatch is under way, or when nothing is pending. */
  lemma YieldIdle(s: State, image: Image)
    requires s.dispatching || NonePending(s)
    ensures DoYield(s, image) == s
  {
    hide Dispatch;
    var i := FirstIn(s.procs, Pending);
    assert i < |s.procs| ==> PendingAt(s, i);
  }

  // ----- many yields -----

  function YieldAll(images: seq<Image>): Calls {
    if images == [] then Done else Then(Yield(images[0]), YieldAll(images[1..]))
  }

  function CountPending(ps: seq<Proc>): nat {
    if ps == [] then 0 else CountPending(ps[1..]) + if ps[0].used && ps[0].phase == Pending then 1 else 0
  }

  /** Programs that, with all programs they start, spawn nothing and continue nothing. */
  predicate Tame(image: Image) {
    image.Runs? ==> TameCalls(image.body)
  }

  predicate TameCalls(cs: Calls) {
    cs.Then? ==> TameCall(cs.call) && TameCalls(cs.rest)
  }

  predicate TameCall(c: Call) {
    match c
    case Spawn(_) => false
    case Kill(_, signal) => EffectiveSignal(signal) != CONT
    case Run(_, _, image) => Tame(image)
    case Wait(_, image) => Tame(image)
    case Yield(image) => Tame(image)
    case _ => true
  }

  /** No slot is pending that was not. */
  ghost predicate Fewer(s: State, r: State) {
    |r.procs| == |s.procs| && forall j: nat :: PendingAt(r, j) ==> PendingAt(s, j)
  }

  lemma FewerTwice(s: State, m: State, r: State)
    requires Fewer(s, m) && Fewer(m, r)
    ensures Fewer(s, r)
  {
  }

  lemma FewerBy(s: State, r: State, slot: nat)
    requires slot < |s.procs| && |r.procs| == |s.procs| && r.procs == s.procs[slot := r.procs[slot]]
    requires PendingAt(r, slot) ==> PendingAt(s, slot)
    ensures Fewer(s, r)
  {
  }

  lemma {:induction false} RunSlotFewer(s: State, slot: nat, image: Image)
    requires slot < |s.procs| && s.procs[slot].used && Tame(image)
    ensures Fewer(s, RunSlot(s, slot, image).0) && !PendingAt(RunSlot(s, slot, image).0, slot)
    decreases image, 0
  {
    hide Finish, FailRun, DoCalls, StartsAtRoot, EndRun, Push, RunSlot, Fewer, SetProc, PendingAt;
    var r := RunSlot(s, slot, image).0;
    if !StartsAtRoot(s.procs[slot].path) || |s.stack| >= MAX_DEPTH {
      RunSlotRejects(s, slot, image);
      EndedFewer(s, r, slot);
      return;
    }
    var entered := Push(s, slot);
    PushedFewer(s, slot);
    if !image.Runs? {
      RunSlotFails(s, slot, image);
      LeftFewer(entered, slot, 0);
      FewerTwice(s, entered, r);
    } else {
      RunSlotRuns(s, slot, image);
      var started := entered.(running := s.running + 1);
      SameProcs(entered, started);
      CallsFewer(started, image.body);
      var left := DoCalls(started, image.body);
      var ended := left.(running := left.running - 1);
      SameProcs(left, ended);
      LeftFewer(ended, slot, image.ret);
      FewerTwice(s, entered, started);
      FewerTwice(s, started, left);
      FewerTwice(s, left, ended);
      FewerTwice(s, ended, r);
    }
  }

  lemma EndedFewer(s: State, r: State, slot: nat)
    requires slot < |s.procs| && r == SetProc(s, slot, EndRun(s.procs[slot], s.now, FAILED))
    ensures Fewer(s, r) && !PendingAt(r, slot)
  {
    hide EndRun;
    FewerBy(s, r, slot);
  }

  lemma PushedFewer(s: State, slot: nat)
    requires slot < |s.procs|
    ensures Fewer(s, Push(s, slot))
  {
    FewerBy(s, Push(s, slot), slot);
  }

  lemma LeftFewer(s: State, slot: nat, ret: nat)
    requires slot < |s.procs| && s.stack != [] && s.slots != []
    ensures Fewer(s, Finish(s, slot, ret)) && !PendingAt(Finish(s, slot, ret), slot)
    ensures Fewer(s, FailRun(s, slot)) && !PendingAt(FailRun(s, slot), slot)
  {
    hide EndRun, StopRun, WithoutOwner, ImagesOf;
    FewerBy(s, Finish(s, slot, ret), slot);
    FewerBy(s, FailRun(s, slot), slot);
  }

  lemma SameProcs(s: State, r: State)
    requires r.procs == s.procs
    ensures Fewer(s, r) && forall j: nat :: PendingAt(r, j) <==> PendingAt(s, j)
  {
  }

  lemma {:induction false} DispatchFewer(s: State, slot: nat, image: Image)
    requires PendingAt(s, slot) && Tame(image)
    ensures Fewer(s, Dispatch(s, slot, image)) && !PendingAt(Dispatch(s, slot, image), slot)
    decreases image, 1
  {
    hide RunSlot, Fewer, Tame;
    var inside := s.(dispatching := true);
    SameProcs(s, inside);
    RunSlotFewer(inside, slot, image);
    var r := RunSlot(inside, slot, image).0;
    SameProcs(r, r.(dispatching := s.dispatching));
    FewerTwice(s, inside, r);
    FewerTwice(s, r, r.(dispatching := s.dispatching));
  }

  lemma {:induction false} DoRunFewer(s: State, path: string, stdioOk: bool, image: Image)
    requires Tame(image)
    ensures Fewer(s, DoRun(s, path, stdioOk, image).0)
    decreases image, 2
  {
    hide RunSlot, AllocSlot, StartsAtRoot, Tame, Fewer;
    var slot := AllocSlot(s.procs);
    SameProcs(s, s);
    if StartsAtRoot(path) && slot < |s.procs| {
      var r := if stdioOk then AddProc(s, slot, path, Running) else DoRun(s, path, stdioOk, image).0;
      FewerBy(s, r, slot);
      if stdioOk {
        RunSlotFewer(r, slot, image);
        FewerTwice(s, r, RunSlot(r, slot, image).0);
      }
    }
  }

  lemma {:induction false} CallFewer(s: State, c: Call)
    requires TameCall(c)
    ensures Fewer(s, DoCall(s, c))
    decreases c
  {
    hide RunSlot, Dispatch, DoRun, Fewer, FirstIn, FindPid, Tame;
    SameProcs(s, s);
    match c
    case Run(path, stdioOk, image) => DoRunFewer(s, path, stdioOk, image);
    case Wait(pid, image) =>
      var slot := FindPid(s.procs, pid);
      if slot < |s.procs| && s.procs[slot].phase == Pending && !s.dispatching { DispatchFewer(s, slot, image); }
    case Yield(image) =>
      var slot := FirstIn(s.procs, Pending);
      if !s.dispatching && slot < |s.procs| { DispatchFewer(s, slot, image); }
    case _ => QuietFewer(s, c);
  }

  lemma QuietFewer(s: State, c: Call)
    requires TameCall(c) && !c.Run? && !c.Wait? && !c.Yield?
    ensures Fewer(s, DoCall(s, c))
  {
    hide SignalStatus, SignalOf, IsUserProgram, StartsAtRoot, EndRun, DoDlOpen, DoDlClose;
    if c.Kill? || c.Fault? {
      var r, slot := DoCall(s, c), if c.Kill? then FindPid(s.procs, c.pid) else FindPid(s.procs, CurrentPid(s));
      if slot < |s.procs| { FewerBy(s, r, slot); }
    } else if c.DlOpen? || c.DlClose? {
      LibsLeaveProcs(s, c);
      SameProcs(s, DoCall(s, c));
    }
  }

  lemma LibsLeaveProcs(s: State, c: Call)
    requires c.DlOpen? || c.DlClose?
    ensures DoCall(s, c).procs == s.procs
  {
  }

  lemma {:induction false} CallsFewer(s: State, cs: Calls)
    requires TameCalls(cs)
    ensures Fewer(s, DoCalls(s, cs))
    decreases cs
  {
    hide Fewer, DoCall;
    SameProcs(s, s);
    if cs.Then? {
      CallFewer(s, cs.call);
      CallsFewer(DoCall(s, cs.call), cs.rest);
      FewerTwice(s, DoCall(s, cs.call), DoCalls(s, cs));
    }
  }

  lemma {:induction false} CountFewer(ps: seq<Proc>, qs: seq<Proc>)
    requires |ps| == |qs|
    requires forall j :: 0 <= j < |qs| && qs[j].used && qs[j].phase == Pending ==> ps[j].used && ps[j].phase == Pending
    ensures CountPending(qs) <= CountPending(ps)
    ensures CountPending(qs) == CountPending(ps) ==>
              forall j :: 0 <= j < |ps| && ps[j].used && ps[j].phase == Pending ==> qs[j].used && qs[j].phase == Pending
  {
    if ps != [] {
      CountFewer(ps[1..], qs[1..]);
      if CountPending(qs) == CountPending(ps) {
        forall j | 0 < j < |ps| && ps[j].used && ps[j].phase == Pending
          ensures qs[j].used && qs[j].phase == Pending
        {
          assert ps[1..][j-1] == ps[j] && qs[1..][j-1] == qs[j];
        }
      }
    }
  }

  lemma {:induction false} CountNone(ps: seq<Proc>)
    requires CountPending(ps) == 0
    ensures forall j :: 0 <= j < |ps| ==> !(ps[j].used && ps[j].phase == Pending)
  {
    if ps != [] {
      CountNone(ps[1..]);
      assert forall j :: 0 < j < |ps| ==> ps[j] == ps[1..][j-1];
    }
  }

  /** With programs that spawn nothing and continue nothing, as many yields as there are pending
      processes leave none, whatever else the programs do. */
  lemma {:induction false} EnoughYields(s: State, images: seq<Image>)
    requires !s.dispatching && |images| >= CountPending(s.procs) && forall im :: im in images ==> Tame(im)
    ensures NonePending(DoCalls(s, YieldAll(images)))
    decreases |images|
  {
    hide Tame, Dispatch;
    if images == [] {
      CountNone(s.procs);
    } else {
      assert images[0] in images && forall im :: im in images[1..] ==> im in images;
      var r := DoYield(s, images[0]);
      var i := FirstIn(s.procs, Pending);
      if i < |s.procs| {
        DispatchFewer(s, i, images[0]);
        CountDown(s, r, i);
      } else {
        YieldIdle(s, images[0]);
        NoneCounted(s.procs);
      }
      EnoughYields(r, images[1..]);
      assert DoCall(s, Yield(images[0])) == r;
    }
  }

  lemma CountDown(s: State, r: State, i: nat)
    requires Fewer(s, r) && PendingAt(s, i) && !PendingAt(r, i)
    ensures CountPending(r.procs) < CountPending(s.procs)
  {
    assert forall j :: 0 <= j < |r.procs| && r.procs[j].used && r.procs[j].phase == Pending ==> PendingAt(r, j) && PendingAt(s, j);
    CountFewer(s.procs, r.procs);
  }

  lemma {:induction false} NoneCounted(ps: seq<Proc>)
    requires forall j :: 0 <= j < |ps| ==> !InPhase(ps[j], Pending)
    ensures CountPending(ps) == 0
  {
    if ps != [] {
      assert forall j :: 0 <= j < |ps[1..]| ==> ps[1..][j] == ps[j+1];
      NoneCounted(ps[1..]);
    }
  }

  // ----- why the programs matter -----

  /** A program that spawns itself again. */
  const SPAWNER: Image := Runs(Then(Spawn("/shell/again.elf"), Done), 0)

  /** Something is pending, everything that is can be run, and a slot is free. */
  ghost predicate GoesOn(s: State) {
    && ProcsOk(s, MAX_PROCS) && !s.dispatching && |s.stack| < MAX_DEPTH
    && (exists i: nat :: PendingAt(s, i))
    && (forall i: nat :: PendingAt(s, i) ==> StartsAtRoot(s.procs[i].path))
    && exists j: nat :: FreeAt(s, j)
  }

  predicate FreeAt(s: State, j: nat) {
    j < |s.procs| && (!s.procs[j].used || s.procs[j].phase == Exited)
  }

  lemma FirstOf(s: State)
    requires exists i: nat :: PendingAt(s, i)
    ensures IsFirstPending(s, FirstIn(s.procs, Pending))
  {
    var k: nat :| PendingAt(s, k);
    assert InPhase(s.procs[k], Pending);
    assert forall j: nat :: j < FirstIn(s.procs, Pending) && j < |s.procs| ==> !InPhase(s.procs[j], Pending);
  }

  lemma FreeIsFound(s: State, j: nat)
    requires FreeAt(s, j)
    ensures AllocSlot(s.procs) < |s.procs|
  {
  }

  /** What the spawner leaves: its own slot free, and another one pending. */
  lemma Respawns(s: State, i: nat, j: nat)
    requires PendingAt(s, i) && StartsAtRoot(s.procs[i].path) && |s.stack| < MAX_DEPTH && FreeAt(s, j)
    ensures var r := RunSlot(s, i, SPAWNER).0;
            && |r.procs| == |s.procs| && FreeAt(r, i)
            && (exists k: nat :: PendingAt(r, k))
            && forall k: nat :: PendingAt(r, k) ==> StartsAtRoot(r.procs[k].path) || (PendingAt(s, k) && r.procs[k].path == s.procs[k].path)
  {
    hide RunSlot, Finish, AllocSlot, EndRun, Push;
    RunSlotRuns(s, i, SPAWNER);
    var started := Push(s, i).(running := s.running + 1);
    PushedRecord(s, i);
    assert FreeAt(started, j);
    FreeIsFound(started, j);
    var left := DoSpawn(started, "/shell/again.elf");
    OneCall(started, Spawn("/shell/again.elf"));
    var k := AllocSlot(started.procs);
    assert k != i;
    FinishedRecord(left.(running := left.running - 1), i, 0);
    assert PendingAt(RunSlot(s, i, SPAWNER).0, k);
  }

  lemma OneCall(s: State, c: Call)
    ensures DoCalls(s, Then(c, Done)) == DoCall(s, c)
  {
    hide DoCall;
    assert DoCalls(DoCall(s, c), Done) == DoCall(s, c);
  }

  lemma PushedRecord(s: State, i: nat)
    requires i < |s.procs|
    ensures var r := Push(s, i); r.procs == s.procs[i := r.procs[i]] && r.procs[i].used == s.procs[i].used && r.procs[i].phase == Running
  {
  }

  lemma FinishedRecord(s: State, i: nat, ret: nat)
    requires i < |s.procs| && s.stack != [] && s.slots != []
    ensures var r := Finish(s, i, ret);
            r.procs == s.procs[i := r.procs[i]] && r.procs[i].phase == if Top(s).stopAsked then Stopped else Exited
  {
    hide WithoutOwner, ImagesOf, Pause;
  }

  lemma StillGoesOn(s: State)
    requires GoesOn(s)
    ensures GoesOn(DoYield(s, SPAWNER))
  {
    hide ProcsOk, Later, StartsAtRoot, RunSlot, AllocSlot;
    FirstOf(s);
    var i := FirstIn(s.procs, Pending);
    var j: nat :| FreeAt(s, j);
    var inside := s.(dispatching := true);
    SameProcs(s, inside);
    DoYieldOk(s, SPAWNER);
    assert FreeAt(inside, j);
    Respawns(inside, i, j);
    var m, r := RunSlot(inside, i, SPAWNER).0, DoYield(s, SPAWNER);
    assert r == m.(dispatching := false);
    SameProcs(m, r);
    assert FreeAt(r, i);
  }

  /** With programs that spawn themselves again, no number of yields is enough. */
  lemma {:induction false} NeverEnough(s: State, n: nat)
    requires GoesOn(s)
    ensures !NonePending(DoCalls(s, YieldAll(seq(n, _ => SPAWNER))))
    decreases n
  {
    hide GoesOn, DoYield;
    var images := seq(n, _ => SPAWNER);
    if n == 0 {
      assert exists i: nat :: PendingAt(s, i) by { SomePending(s); }
    } else {
      StillGoesOn(s);
      assert images[1..] == seq(n - 1, _ => SPAWNER);
      NeverEnough(DoYield(s, SPAWNER), n - 1);
      assert DoCall(s, Yield(SPAWNER)) == DoYield(s, SPAWNER);
    }
  }

  lemma SomePending(s: State)
    requires GoesOn(s)
    ensures exists i: nat :: PendingAt(s, i)
  {
  }
}
