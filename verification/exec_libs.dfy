/** Dynamic libraries and the processes that own them (clks/kernel/exec.c). */
module ExecLibs {
  import opened Machine
  import opened ExecState
  import opened ExecSafety

  ghost predicate Distinct(xs: seq<nat>) {
    forall a, b :: 0 <= a < b < |xs| ==> xs[a] != xs[b]
  }

  ghost predicate Loaded(ls: seq<Lib>, image: nat) {
    exists i :: 0 <= i < |ls| && ls[i].used && ls[i].image == image
  }

  /** At most one slot for an owner and a path, and no image or handle in two slots. */
  ghost predicate SlotsDiffer(ls: seq<Lib>) {
    forall i, j :: 0 <= i < j < |ls| && ls[i].used && ls[j].used ==>
      && ls[i].handle != ls[j].handle && ls[i].image != ls[j].image
      && !(ls[i].owner == ls[j].owner && ls[i].path == ls[j].path)
  }

  /** The paths that can be opened. */
  predicate LibraryPath(path: string) {
    StartsAtRoot(path) && |path| < 192
  }

  ghost predicate LibOk(s: State, l: Lib) {
    if l.used then
      && 1 <= l.handle < s.nextHandle && l.refs >= 1 && l.image < s.images && Stacked(s, l.owner)
      && LibraryPath(l.path)
    else l == NO_LIB
  }

  /** Every image that was ever loaded is either in a slot whose owner is on the stack, or has
      been freed, exactly once. */
  ghost predicate LibsOk(s: State) {
    && |s.libs| == MAX_LIBS && s.nextHandle >= 1
    && (forall i :: 0 <= i < |s.libs| ==> LibOk(s, s.libs[i]))
    && SlotsDiffer(s.libs) && Distinct(s.freed)
    && (forall x :: x in s.freed ==> x < s.images && !Loaded(s.libs, x))
    && (forall x: nat :: x < s.images ==> x in s.freed || Loaded(s.libs, x))
  }

  lemma {:induction false} ImagesOfOwner(ls: seq<Lib>, owner: nat, x: nat)
    ensures x in ImagesOf(ls, owner) <==> exists i :: 0 <= i < |ls| && Belongs(ls[i], owner) && ls[i].image == x
  {
    if ls != [] {
      var rest := ls[1..];
      ImagesOfOwner(rest, owner, x);
      if x in ImagesOf(rest, owner) {
        var i :| 0 <= i < |rest| && Belongs(rest[i], owner) && rest[i].image == x;
        assert ls[i+1] == rest[i];
      }
      if i :| 0 < i < |ls| && Belongs(ls[i], owner) && ls[i].image == x {
        assert rest[i-1] == ls[i];
      }
    }
  }

  lemma {:induction false} ImagesOfDistinct(ls: seq<Lib>, owner: nat)
    requires SlotsDiffer(ls)
    ensures Distinct(ImagesOf(ls, owner))
  {
    if ls != [] {
      var rest := ls[1..];
      assert forall i :: 0 <= i < |rest| ==> rest[i] == ls[i+1];
      ImagesOfDistinct(rest, owner);
      ImagesOfOwner(rest, owner, ls[0].image);
    }
  }

  lemma DistinctJoin(a: seq<nat>, b: seq<nat>)
    requires Distinct(a) && Distinct(b) && forall x :: x in a ==> x !in b
    ensures Distinct(a + b)
  {
    var c := a + b;
    forall i, j | 0 <= i < j < |c|
      ensures c[i] != c[j]
    {
      if i < |a| <= j {
        assert c[i] == a[i] && a[i] in a && c[j] == b[j-|a|] && b[j-|a|] in b;
      } else if |a| <= i {
        assert c[i] == b[i-|a|] && c[j] == b[j-|a|];
      }
    }
  }

  /** A process gives up all its libraries and leaves the stack: each of its images is freed
      now, once. `r` is what remains of the stack. */
  lemma ReleaseOk(s: State, owner: nat, r: State)
    requires LibsOk(s) && owner != 0
    requires r == Release(s, owner).(stack := r.stack, slots := r.slots, procs := r.procs, log := r.log, running := r.running)
    requires forall pid :: Stacked(s, pid) && pid != owner ==> Stacked(r, pid)
    ensures LibsOk(r) && forall i :: 0 <= i < |r.libs| ==> !Belongs(r.libs[i], owner)
  {
    hide ImagesOf;
    ImagesOfDistinct(s.libs, owner);
    var f := ImagesOf(s.libs, owner);
    LoadedAfter(s, owner);
    assert forall i :: 0 <= i < |s.libs| ==> LibOk(s, s.libs[i]);
    forall x | x in f
      ensures x < s.images && x !in s.freed
    {
      ImagesOfOwner(s.libs, owner, x);
      var i :| 0 <= i < |s.libs| && Belongs(s.libs[i], owner) && s.libs[i].image == x;
      assert Loaded(s.libs, x);
    }
    DistinctJoin(s.freed, f);
  }

  /** An image is loaded after the release if it was before, and is not among those released. */
  lemma LoadedAfter(s: State, owner: nat)
    requires SlotsDiffer(s.libs)
    ensures forall x :: Loaded(WithoutOwner(s.libs, owner), x) <==> Loaded(s.libs, x) && x !in ImagesOf(s.libs, owner)
  {
    var ls, rest := s.libs, WithoutOwner(s.libs, owner);
    forall x
      ensures Loaded(rest, x) <==> Loaded(ls, x) && x !in ImagesOf(ls, owner)
    {
      ImagesOfOwner(ls, owner, x);
      if Loaded(rest, x) {
        var i :| 0 <= i < |rest| && rest[i].used && rest[i].image == x;
        assert ls[i].used && ls[i].image == x && !Belongs(ls[i], owner);
      }
      if Loaded(ls, x) && x !in ImagesOf(ls, owner) {
        var i :| 0 <= i < |ls| && ls[i].used && ls[i].image == x;
        assert rest[i] == ls[i];
      }
    }
  }

  // ----- open and close -----

  lemma OpenOk(s: State, path: string, loads: bool)
    requires LibsOk(s)
    ensures LibsOk(DoDlOpen(s, path, loads))
  {
    hide FindPid, StartsAtRoot;
    var r := DoDlOpen(s, path, loads);
    var owner := CurrentPid(s);
    var i, free := FindLib(s.libs, owner, path), FreeLib(s.libs);
    if r.libs != s.libs {
      assert Stacked(s, owner);
      if i < |s.libs| {
        assert LibOk(s, s.libs[i]);
        SameImages(s, r, i);
      } else {
        NewImage(s, r, free);
      }
    }
  }

  /** Only the count of one open library differs. */
  lemma SameImages(s: State, r: State, i: nat)
    requires LibsOk(s) && i < |s.libs| && s.libs[i].used && |r.libs| == |s.libs|
    requires r == s.(libs := s.libs[i := s.libs[i].(refs := r.libs[i].refs)]) && r.libs[i].refs >= 1
    ensures LibsOk(r)
  {
    assert LibOk(s, s.libs[i]);
    forall x
      ensures Loaded(r.libs, x) <==> Loaded(s.libs, x)
    {
      if Loaded(s.libs, x) {
        var k :| 0 <= k < |s.libs| && s.libs[k].used && s.libs[k].image == x;
        assert r.libs[k].used && r.libs[k].image == x;
      }
      if Loaded(r.libs, x) {
        var k :| 0 <= k < |r.libs| && r.libs[k].used && r.libs[k].image == x;
        assert s.libs[k].used && s.libs[k].image == x;
      }
    }
    assert forall k :: 0 <= k < |r.libs| ==> LibOk(s, s.libs[k]);
  }

  /** A new image goes into an unused slot. */
  lemma NewImage(s: State, r: State, free: nat)
    requires LibsOk(s) && free < |s.libs| && !s.libs[free].used && |r.libs| == |s.libs|
    requires r == s.(libs := s.libs[free := r.libs[free]], nextHandle := s.nextHandle + 1, images := s.images + 1)
    requires r.libs[free].used && r.libs[free].refs >= 1 && r.libs[free].handle == s.nextHandle
    requires r.libs[free].image == s.images && Stacked(s, r.libs[free].owner) && LibraryPath(r.libs[free].path)
    requires forall i :: 0 <= i < |s.libs| && s.libs[i].used ==>
               !(s.libs[i].owner == r.libs[free].owner && s.libs[i].path == r.libs[free].path)
    ensures LibsOk(r)
  {
    assert forall k :: 0 <= k < |s.libs| ==> LibOk(s, s.libs[k]);
    forall x
      ensures Loaded(r.libs, x) <==> Loaded(s.libs, x) || x == s.images
    {
      if Loaded(s.libs, x) {
        var k :| 0 <= k < |s.libs| && s.libs[k].used && s.libs[k].image == x;
        assert r.libs[k].used && r.libs[k].image == x;
      }
      if Loaded(r.libs, x) {
        var k :| 0 <= k < |r.libs| && r.libs[k].used && r.libs[k].image == x;
        assert k != free ==> s.libs[k].used && s.libs[k].image == x;
      }
      assert r.libs[free].used && r.libs[free].image == s.images;
    }
  }

  /** The last close of a library frees its image. */
  lemma DropOk(s: State, r: State, i: nat)
    requires LibsOk(s) && i < |s.libs| && s.libs[i].used
    requires r == s.(libs := s.libs[i := NO_LIB], freed := s.freed + [s.libs[i].image])
    ensures LibsOk(r)
  {
    var x0 := s.libs[i].image;
    assert LibOk(s, s.libs[i]) && Loaded(s.libs, x0);
    DistinctJoin(s.freed, [x0]);
    forall x
      ensures Loaded(r.libs, x) <==> Loaded(s.libs, x) && x != x0
    {
      if Loaded(s.libs, x) && x != x0 {
        var k :| 0 <= k < |s.libs| && s.libs[k].used && s.libs[k].image == x;
        assert r.libs[k].used && r.libs[k].image == x;
      }
      if Loaded(r.libs, x) {
        var k :| 0 <= k < |r.libs| && r.libs[k].used && r.libs[k].image == x;
        assert s.libs[k].used && s.libs[k].image == x && k != i;
      }
    }
    assert forall k :: 0 <= k < |s.libs| ==> LibOk(s, s.libs[k]);
  }

  lemma CloseOk(s: State, handle: nat)
    requires LibsOk(s)
    ensures LibsOk(DoDlClose(s, handle))
  {
    hide FindPid, LibsOk;
    var r := DoDlClose(s, handle);
    var i := FindHandle(s.libs, handle);
    if r.libs != s.libs {
      if s.libs[i].refs > 1 { SameImages(s, r, i); } else { DropOk(s, r, i); }
    }
  }

  // ----- runs -----

  /** Nothing that libraries depend on differs, and the stack has not lost a pid. */
  lemma LibsSame(s: State, r: State)
    requires LibsOk(s)
    requires r.libs == s.libs && r.nextHandle == s.nextHandle && r.images == s.images && r.freed == s.freed
    requires forall pid :: Stacked(s, pid) ==> Stacked(r, pid)
    ensures LibsOk(r)
  {
  }

  lemma StackedByPid(s: State, r: State)
    requires |r.stack| >= |s.stack| && forall k :: 0 <= k < |s.stack| ==> r.stack[k].pid == s.stack[k].pid
    ensures forall pid :: Stacked(s, pid) ==> Stacked(r, pid)
  {
  }

  /** Whichever way the innermost process leaves, its libraries go with it. */
  lemma LeaveLibs(s: State, slot: nat, p: Proc)
    requires LibsOk(s) && ProcsOk(s, MAX_PROCS) && s.slots != [] && slot == s.slots[|s.slots|-1]
    requires s.stack != [] && slot < |s.procs|
    ensures LibsOk(Pop(Release(SetProc(s, slot, p), s.procs[slot].pid)))
  {
    hide ProcsOk, LibsOk, SetProc;
    InTable(s);
    var m := SetProc(s, slot, p);
    var r := Pop(Release(m, s.procs[slot].pid));
    PidPositive(s, slot);
    LibsSame(s, m);
    ReleaseOk(m, s.procs[slot].pid, r);
  }

  lemma PidPositive(s: State, slot: nat)
    requires ProcsOk(s, MAX_PROCS) && slot < |s.procs| && s.procs[slot].used
    ensures s.procs[slot].pid >= 1
  {
    assert ProcOk(s, slot, MAX_PROCS);
  }

  lemma {:induction false} RunSlotLibs(s: State, slot: nat, image: Image, entering: nat)
    requires LibsOk(s) && ProcsOk(s, entering) && slot < |s.procs| && s.procs[slot].used && slot !in s.slots
    requires if s.procs[slot].phase == Pending then entering == MAX_PROCS else entering == slot
    ensures LibsOk(RunSlot(s, slot, image).0)
    decreases image, 0
  {
    hide ProcsOk, LibsOk, Later, FailRun, Finish, DoCalls, StartsAtRoot, EndRun, Push, RunSlot, SetProc, Stacked;
    if !StartsAtRoot(s.procs[slot].path) || |s.stack| >= MAX_DEPTH {
      RunSlotRejects(s, slot, image);
      StackedByPid(s, RunSlot(s, slot, image).0);
      LibsSame(s, RunSlot(s, slot, image).0);
      return;
    }
    var entered := Push(s, slot);
    PushOk(s, slot, entering);
    StackedByPid(s, entered);
    LibsSame(s, entered);
    if !image.Runs? {
      RunSlotFails(s, slot, image);
      FailedLibs(entered, slot);
    } else {
      var started := entered.(running := s.running + 1);
      FlagsOk(entered, s.running + 1, s.dispatching);
      StackedByPid(entered, started);
      LibsSame(entered, started);
      DoCallsOk(started, image.body);
      DoCallsLibs(started, image.body);
      RunSlotRuns(s, slot, image);
      FinishedLibs(DoCalls(started, image.body), slot, image.ret);
    }
  }

  lemma FailedLibs(s: State, slot: nat)
    requires LibsOk(s) && ProcsOk(s, MAX_PROCS) && s.slots != [] && slot == s.slots[|s.slots|-1]
    requires s.stack != [] && slot < |s.procs|
    ensures LibsOk(FailRun(s, slot))
  {
    hide ProcsOk, LibsOk, SetProc, EndRun;
    LeaveLibs(s, slot, EndRun(s.procs[slot], s.now, FAILED));
  }

  lemma FinishedLibs(left: State, slot: nat, ret: nat)
    requires LibsOk(left) && ProcsOk(left, MAX_PROCS) && left.slots != [] && slot == left.slots[|left.slots|-1]
    requires left.stack != [] && slot < |left.procs| && left.running > 0
    ensures LibsOk(Finish(left.(running := left.running - 1), slot, ret))
  {
    hide ProcsOk, LibsOk, SetProc, EndRun, StopRun, Stacked;
    var s := left.(running := left.running - 1);
    FlagsOk(left, left.running - 1, left.dispatching);
    StackedByPid(left, s);
    LibsSame(left, s);
    var p, status := s.procs[slot], RunStatus(Top(s), ret);
    LeaveLibs(s, slot, if Top(s).stopAsked then StopRun(p, s.now, status) else EndRun(p, s.now, status));
  }

  lemma {:induction false} DispatchLibs(s: State, slot: nat, image: Image)
    requires LibsOk(s) && ProcsOk(s, MAX_PROCS) && slot < |s.procs| && s.procs[slot].used && s.procs[slot].phase == Pending
    ensures LibsOk(Dispatch(s, slot, image))
    decreases image, 1
  {
    hide ProcsOk, LibsOk, Later, RunSlot, Stacked;
    var inside := s.(dispatching := true);
    FlagsOk(s, s.running, true);
    StackedByPid(s, inside);
    LibsSame(s, inside);
    PendingNotStacked(s, slot);
    RunSlotLibs(inside, slot, image, MAX_PROCS);
    var r := RunSlot(inside, slot, image).0;
    StackedByPid(r, r.(dispatching := s.dispatching));
    LibsSame(r, r.(dispatching := s.dispatching));
  }

  lemma {:induction false} DoRunLibs(s: State, path: string, stdioOk: bool, image: Image)
    requires LibsOk(s) && ProcsOk(s, MAX_PROCS)
    ensures LibsOk(DoRun(s, path, stdioOk, image).0)
    decreases image, 2
  {
    hide ProcsOk, LibsOk, Later, RunSlot, AllocSlot, StartsAtRoot, Stacked;
    var slot := AllocSlot(s.procs);
    if StartsAtRoot(path) && slot < |s.procs| {
      var r := if stdioOk then AddProc(s, slot, path, Running) else DoRun(s, path, stdioOk, image).0;
      StackedByPid(s, r);
      LibsSame(s, r);
      if stdioOk {
        AddOk(s, path, Running);
        RunSlotLibs(r, slot, image, slot);
      }
    }
  }

  lemma {:induction false} DoCallLibs(s: State, c: Call)
    requires LibsOk(s) && ProcsOk(s, MAX_PROCS)
    ensures LibsOk(DoCall(s, c))
    decreases c
  {
    hide ProcsOk, LibsOk, Later, RunSlot, Dispatch, AllocSlot, Stacked, DoRun, DoDlOpen, DoDlClose;
    match c
    case Run(path, stdioOk, image) => DoRunLibs(s, path, stdioOk, image);
    case Wait(pid, image) =>
      var slot := FindPid(s.procs, pid);
      if slot < |s.procs| && s.procs[slot].phase == Pending && !s.dispatching { DispatchLibs(s, slot, image); }
    case Yield(image) =>
      var slot := FirstIn(s.procs, Pending);
      if !s.dispatching && slot < |s.procs| { DispatchLibs(s, slot, image); }
    case DlOpen(path, loads) => OpenOk(s, path, loads);
    case DlClose(handle) => CloseOk(s, handle);
    case _ => QuietCallLibs(s, c);
  }

  lemma QuietCallLibs(s: State, c: Call)
    requires LibsOk(s) && (c.Advance? || c.Spawn? || c.Kill? || c.Exit? || c.Fault?)
    ensures LibsOk(DoCall(s, c))
  {
    hide LibsOk, AllocSlot, Stacked, SignalStatus, SignalOf, IsUserProgram, StartsAtRoot, FindPid, EndRun;
    StackedByPid(s, DoCall(s, c));
    LibsSame(s, DoCall(s, c));
  }

  lemma {:induction false} DoCallsLibs(s: State, cs: Calls)
    requires LibsOk(s) && ProcsOk(s, MAX_PROCS)
    ensures LibsOk(DoCalls(s, cs))
    decreases cs
  {
    hide ProcsOk, LibsOk, Later, DoCall;
    if cs.Then? {
      DoCallOk(s, cs.call);
      DoCallLibs(s, cs.call);
      DoCallsLibs(DoCall(s, cs.call), cs.rest);
    }
  }

  // ----- what this means -----

  /** After any run from the start in which every process has ended, no library slot is in use,
      and every image that was loaded has been freed exactly once. */
  lemma EveryImageFreedOnce(cs: Calls)
    ensures var r := DoCalls(INITIAL, cs);
            && (forall i :: 0 <= i < |r.libs| ==> r.libs[i] == NO_LIB)
            && Distinct(r.freed) && (forall x: nat :: x in r.freed <==> x < r.images)
  {
    hide DoCalls;
    var r := DoCalls(INITIAL, cs);
    DoCallsLibs(INITIAL, cs);
    forall i | 0 <= i < |r.libs|
      ensures r.libs[i] == NO_LIB
    {
      assert LibOk(r, r.libs[i]);
    }
  }

  /** What the invariant says about the owner of an open library. */
  lemma OwnerRuns(s: State, i: nat)
    requires LibsOk(s) && ProcsOk(s, MAX_PROCS) && i < |s.libs| && s.libs[i].used
    ensures Stacked(s, s.libs[i].owner)
    ensures FindPid(s.procs, s.libs[i].owner) < |s.procs| && s.procs[FindPid(s.procs, s.libs[i].owner)].phase == Running
  {
    hide LogOk, TimeOk;
    assert LibOk(s, s.libs[i]);
    var k :| 0 <= k < |s.stack| && s.stack[k].pid == s.libs[i].owner;
    var slot := s.slots[k];
    assert ProcOk(s, slot, MAX_PROCS);
    FindPidIs(s.procs, s.libs[i].owner, slot);
  }
}
