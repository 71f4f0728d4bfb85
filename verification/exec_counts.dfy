/** Opens and closes of a library, whatever else happens in between (clks/kernel/exec.c). */
module ExecCounts {
  import opened Machine
  import opened ExecState
  import opened ExecSafety
  import opened ExecLibs
  import opened ExecInside

  // ----- whose slots a call can change -----

  /** Only slots of the current process differ, and what was freed stays freed. */
  ghost predicate OthersKept(s: State, r: State) {
    && CurrentPid(r) == CurrentPid(s) && s.freed <= r.freed
    && WithoutOwner(r.libs, CurrentPid(s)) == WithoutOwner(s.libs, CurrentPid(s))
  }

  /** All slots are as they were, and what was freed stays freed. */
  ghost predicate LibsKept(s: State, r: State) {
    r.libs == s.libs && s.freed <= r.freed
  }

  lemma KeptAll(s: State, r: State)
    requires LibsKept(s, r) && Balanced(s, r)
    ensures OthersKept(s, r)
  {
  }

  lemma KeptTwice(s: State, m: State, r: State)
    requires OthersKept(s, m) && OthersKept(m, r)
    ensures OthersKept(s, r)
  {
  }

  /** A process that enters the stack is not on it, so that it has no libraries. */
  lemma EntersWithout(s: State, slot: nat, entering: nat)
    requires LibsOk(s) && ProcsOk(s, entering) && slot < |s.procs| && s.procs[slot].used && slot !in s.slots
    ensures s.procs[slot].pid != 0 && WithoutOwner(s.libs, s.procs[slot].pid) == s.libs
  {
    hide LogOk, TimeOk;
    var pid := s.procs[slot].pid;
    assert ProcOk(s, slot, entering);
    forall k | 0 <= k < |s.stack|
      ensures s.stack[k].pid != pid
    {
      assert s.slots[k] in s.slots && s.procs[s.slots[k]].pid == s.stack[k].pid;
    }
    forall i | 0 <= i < |s.libs|
      ensures !Belongs(s.libs[i], pid)
    {
      assert LibOk(s, s.libs[i]);
    }
  }

  /** When the innermost process leaves, exactly its slots are cleared. */
  lemma LeavesWithout(s: State, slot: nat, ret: nat)
    requires slot < |s.procs| && s.stack != [] && s.slots != [] && s.procs[slot].pid != 0
    ensures var r := Finish(s, slot, ret); r.libs == WithoutOwner(s.libs, s.procs[slot].pid) && s.freed <= r.freed
    ensures var r := FailRun(s, slot); r.libs == WithoutOwner(s.libs, s.procs[slot].pid) && s.freed <= r.freed
  {
    hide WithoutOwner, ImagesOf, Pause;
  }

  lemma StartedOk(s: State, slot: nat, entering: nat)
    requires LibsOk(s) && ProcsOk(s, entering) && slot < |s.procs| && s.procs[slot].used && slot !in s.slots && |s.stack| < MAX_DEPTH
    requires if s.procs[slot].phase == Pending then entering == MAX_PROCS else entering == slot
    ensures LibsOk(Started(s, slot)) && ProcsOk(Started(s, slot), MAX_PROCS)
    ensures Started(s, slot).slots[|Started(s, slot).slots|-1] == slot
  {
    hide ProcsOk, LibsOk, Later, Push, Stacked;
    PushOk(s, slot, entering);
    FlagsOk(Push(s, slot), s.running + 1, s.dispatching);
    StackedByPid(s, Started(s, slot));
    LibsSame(s, Started(s, slot));
  }

  /** The way out of a run: what its program has done to libraries is undone. */
  lemma EndKeeps(s: State, started: State, left: State, slot: nat, ret: nat)
    requires LibsOk(s) && s.libs == started.libs && s.freed == started.freed && WithoutOwner(s.libs, CurrentPid(started)) == s.libs
    requires ProcsOk(started, MAX_PROCS) && started.slots != [] && slot == started.slots[|started.slots|-1]
    requires ProcsOk(left, MAX_PROCS) && Balanced(started, left) && OthersKept(started, left)
    requires slot < |left.procs| && left.stack != [] && left.slots != [] && left.running > 0 && CurrentPid(started) != 0
    ensures LibsKept(s, Finish(left.(running := left.running - 1), slot, ret))
  {
    hide ProcsOk, LibsOk, Finish, FailRun, WithoutOwner;
    InTable(left);
    LeavesWithout(left.(running := left.running - 1), slot, ret);
  }

  lemma {:induction false} RunSlotKeeps(s: State, slot: nat, image: Image, entering: nat)
    requires LibsOk(s) && ProcsOk(s, entering) && slot < |s.procs| && s.procs[slot].used && slot !in s.slots
    requires if s.procs[slot].phase == Pending then entering == MAX_PROCS else entering == slot
    ensures LibsKept(s, RunSlot(s, slot, image).0)
    decreases image, 0
  {
    hide ProcsOk, LibsOk, FailRun, Finish, DoCalls, StartsAtRoot, EndRun, Push, RunSlot, SetProc, WithoutOwner, OthersKept;
    if !StartsAtRoot(s.procs[slot].path) || |s.stack| >= MAX_DEPTH {
      RunSlotRejects(s, slot, image);
      return;
    }
    EntersWithout(s, slot, entering);
    if !image.Runs? {
      RunSlotFails(s, slot, image);
      FailKeeps(s, slot, entering);
    } else {
      var started := Started(s, slot);
      StartedOk(s, slot, entering);
      DoCallsKeep(started, image.body);
      BodyOk(started, image.body);
      RunSlotRuns(s, slot, image);
      EndKeeps(s, started, DoCalls(started, image.body), slot, image.ret);
    }
  }

  lemma BodyOk(s: State, cs: Calls)
    requires ProcsOk(s, MAX_PROCS)
    ensures ProcsOk(DoCalls(s, cs), MAX_PROCS)
  {
    hide ProcsOk, Later, DoCalls;
    DoCallsOk(s, cs);
  }

  lemma FailKeeps(s: State, slot: nat, entering: nat)
    requires LibsOk(s) && ProcsOk(s, entering) && slot < |s.procs| && s.procs[slot].used && slot !in s.slots && |s.stack| < MAX_DEPTH
    requires if s.procs[slot].phase == Pending then entering == MAX_PROCS else entering == slot
    ensures LibsKept(s, FailRun(Push(s, slot), slot))
  {
    hide ProcsOk, LibsOk, Later, FailRun, Finish, Push, WithoutOwner;
    EntersWithout(s, slot, entering);
    PushOk(s, slot, entering);
    LeavesWithout(Push(s, slot), slot, 0);
  }

  lemma {:induction false} DispatchKeeps(s: State, slot: nat, image: Image)
    requires LibsOk(s) && ProcsOk(s, MAX_PROCS) && slot < |s.procs| && s.procs[slot].used && s.procs[slot].phase == Pending
    ensures LibsKept(s, Dispatch(s, slot, image))
    decreases image, 1
  {
    hide ProcsOk, LibsOk, Later, RunSlot, Stacked;
    var inside := s.(dispatching := true);
    FlagsOk(s, s.running, true);
    StackedByPid(s, inside);
    LibsSame(s, inside);
    PendingNotStacked(s, slot);
    RunSlotKeeps(inside, slot, image, MAX_PROCS);
  }

  lemma {:induction false} DoRunKeeps(s: State, path: string, stdioOk: bool, image: Image)
    requires LibsOk(s) && ProcsOk(s, MAX_PROCS)
    ensures LibsKept(s, DoRun(s, path, stdioOk, image).0)
    decreases image, 2
  {
    hide ProcsOk, LibsOk, Later, RunSlot, AllocSlot, StartsAtRoot, Stacked;
    var slot := AllocSlot(s.procs);
    if StartsAtRoot(path) && slot < |s.procs| && stdioOk {
      var r := AddProc(s, slot, path, Running);
      StackedByPid(s, r);
      LibsSame(s, r);
      AddOk(s, path, Running);
      RunSlotKeeps(r, slot, image, slot);
    }
  }

  /** Every call but opening and closing leaves the libraries of all processes on the stack alone,
      however many other programs it runs. */
  lemma {:induction false} CallKeeps(s: State, c: Call)
    requires LibsOk(s) && ProcsOk(s, MAX_PROCS) && !c.DlOpen? && !c.DlClose?
    ensures LibsKept(s, DoCall(s, c))
    decreases c, 0
  {
    hide ProcsOk, LibsOk, RunSlot, Dispatch, AllocSlot, DoRun;
    match c
    case Run(path, stdioOk, image) => DoRunKeeps(s, path, stdioOk, image);
    case Wait(pid, image) =>
      var slot := FindPid(s.procs, pid);
      if slot < |s.procs| && s.procs[slot].phase == Pending && !s.dispatching { DispatchKeeps(s, slot, image); }
    case Yield(image) =>
      var slot := FirstIn(s.procs, Pending);
      if !s.dispatching && slot < |s.procs| { DispatchKeeps(s, slot, image); }
    case _ => QuietKeeps(s, c);
  }

  lemma QuietKeeps(s: State, c: Call)
    requires c.Advance? || c.Spawn? || c.Kill? || c.Exit? || c.Fault?
    ensures LibsKept(s, DoCall(s, c))
  {
    hide AllocSlot, SignalStatus, SignalOf, IsUserProgram, StartsAtRoot, FindPid, EndRun;
  }

  /** Opening and closing change only slots of the process that calls. */
  lemma OpenOwn(s: State, path: string, loads: bool)
    requires LibsOk(s)
    ensures OthersKept(s, DoDlOpen(s, path, loads))
  {
    hide FindPid, StartsAtRoot, Stacked;
    var r := DoDlOpen(s, path, loads);
    var i, free := FindLib(s.libs, CurrentPid(s), path), FreeLib(s.libs);
    if r != s && i < |s.libs| {
      OneSlot(s.libs, i, r.libs[i], CurrentPid(s));
    } else if r != s {
      assert LibOk(s, s.libs[free]);
      OneSlot(s.libs, free, r.libs[free], CurrentPid(s));
    }
  }

  lemma CloseOwn(s: State, handle: nat)
    requires LibsOk(s)
    ensures OthersKept(s, DoDlClose(s, handle))
  {
    hide FindPid, StartsAtRoot, Stacked, LibsOk;
    var r := DoDlClose(s, handle);
    var i := FindHandle(s.libs, handle);
    if r != s { OneSlot(s.libs, i, r.libs[i], CurrentPid(s)); }
  }

  lemma OneSlot(ls: seq<Lib>, i: nat, l: Lib, owner: nat)
    requires i < |ls| && (Belongs(ls[i], owner) || ls[i] == NO_LIB) && (Belongs(l, owner) || l == NO_LIB)
    ensures WithoutOwner(ls[i := l], owner) == WithoutOwner(ls, owner)
  {
  }

  lemma {:induction false} DoCallKeeps(s: State, c: Call)
    requires LibsOk(s) && ProcsOk(s, MAX_PROCS)
    ensures OthersKept(s, DoCall(s, c))
    decreases c, 1
  {
    hide ProcsOk, LibsOk, OthersKept, LibsKept, DoDlOpen, DoDlClose;
    match c
    case DlOpen(path, loads) =>
      assert DoCall(s, c) == DoDlOpen(s, path, loads);
      OpenOwn(s, path, loads);
    case DlClose(handle) =>
      assert DoCall(s, c) == DoDlClose(s, handle);
      CloseOwn(s, handle);
    case _ =>
      CallKeeps(s, c);
      KeptAll(s, DoCall(s, c));
  }

  lemma {:induction false} DoCallsKeep(s: State, cs: Calls)
    requires LibsOk(s) && ProcsOk(s, MAX_PROCS)
    ensures OthersKept(s, DoCalls(s, cs))
    decreases cs
  {
    hide ProcsOk, LibsOk, Later, DoCall;
    if cs.Then? {
      var m := DoCall(s, cs.call);
      DoCallKeeps(s, cs.call);
      DoCallOk(s, cs.call);
      DoCallLibs(s, cs.call);
      DoCallsKeep(m, cs.rest);
      KeptTwice(s, m, DoCalls(s, cs));
    }
  }

  // ----- at every point -----

  /** At every point of the calls of a process, however deep, the open libraries of all processes
      below it are in their slots as they were. */
  lemma {:induction false} LowerLibsStay(s: State, cs: Calls, t: State, i: nat)
    requires LibsOk(s) && ProcsOk(s, MAX_PROCS) && Inside(s, cs, t)
    requires i < |s.libs| && s.libs[i].used && s.libs[i].owner != CurrentPid(s)
    ensures i < |t.libs| && t.libs[i] == s.libs[i]
    decreases cs
  {
    hide ProcsOk, LibsOk, DoCall, InsideCall, Later;
    if t == s {
      return;
    }
    if InsideCall(s, cs.call, t) {
      CallLibsStay(s, cs.call, t, i);
    } else {
      var m := DoCall(s, cs.call);
      DoCallKeeps(s, cs.call);
      DoCallOk(s, cs.call);
      DoCallLibs(s, cs.call);
      NotMine(s, m, i);
      LowerLibsStay(m, cs.rest, t, i);
    }
  }

  lemma NotMine(s: State, m: State, i: nat)
    requires OthersKept(s, m) && i < |s.libs| && s.libs[i].used && s.libs[i].owner != CurrentPid(s)
    ensures CurrentPid(m) == CurrentPid(s) && i < |m.libs| && m.libs[i] == s.libs[i]
  {
    assert WithoutOwner(m.libs, CurrentPid(s))[i] == s.libs[i];
  }

  /** While a program that was started runs, so are those of the process that made the call. */
  lemma {:induction false} CallLibsStay(s: State, c: Call, t: State, i: nat)
    requires LibsOk(s) && ProcsOk(s, MAX_PROCS) && InsideCall(s, c, t) && i < |s.libs| && s.libs[i].used
    ensures i < |t.libs| && t.libs[i] == s.libs[i]
    decreases c
  {
    hide ProcsOk, LibsOk, InsideRun, Later, Stacked, AllocSlot, StartsAtRoot;
    match c
    case Run(path, stdioOk, image) =>
      var slot := AllocSlot(s.procs);
      AddOk(s, path, Running);
      StackedByPid(s, Added(s, path));
      LibsSame(s, Added(s, path));
      RunLibsStay(Added(s, path), slot, image, slot, t, i);
    case Wait(pid, image) => DispatchLibsStay(s, FindPid(s.procs, pid), image, t, i);
    case Yield(image) => DispatchLibsStay(s, FirstIn(s.procs, Pending), image, t, i);
  }

  lemma {:induction false} DispatchLibsStay(s: State, slot: nat, image: Image, t: State, i: nat)
    requires LibsOk(s) && ProcsOk(s, MAX_PROCS) && slot < |s.procs| && IsPending(s, slot) && InsideRun(Busy(s), slot, image, t)
    requires i < |s.libs| && s.libs[i].used
    ensures i < |t.libs| && t.libs[i] == s.libs[i]
    decreases image, 1
  {
    hide ProcsOk, LibsOk, InsideRun, Later, Stacked;
    FlagsOk(s, s.running, true);
    StackedByPid(s, Busy(s));
    LibsSame(s, Busy(s));
    PendingNotStacked(s, slot);
    RunLibsStay(Busy(s), slot, image, MAX_PROCS, t, i);
  }

  lemma {:induction false} RunLibsStay(s: State, slot: nat, image: Image, entering: nat, t: State, i: nat)
    requires LibsOk(s) && ProcsOk(s, entering) && slot < |s.procs| && s.procs[slot].used && slot !in s.slots
    requires if s.procs[slot].phase == Pending then entering == MAX_PROCS else entering == slot
    requires InsideRun(s, slot, image, t) && i < |s.libs| && s.libs[i].used
    ensures i < |t.libs| && t.libs[i] == s.libs[i]
    decreases image, 0
  {
    hide ProcsOk, LibsOk, Inside, StartsAtRoot, Started;
    StartedOk(s, slot, entering);
    EntersWithout(s, slot, entering);
    assert WithoutOwner(s.libs, s.procs[slot].pid)[i] == s.libs[i];
    LowerLibsStay(Started(s, slot), image.body, t, i);
  }

  // ----- one open library -----

  /** Slot `i` is an open library of the process that makes the calls. */
  ghost predicate Own(s: State, i: nat) {
    i < |s.libs| && s.libs[i].used && s.libs[i].owner == CurrentPid(s)
  }

  /** How often a library is open after a call. */
  function After(c: Call, path: string, handle: nat, refs: nat): nat {
    match c
    case DlOpen(p, _) => if p == path then refs + 1 else refs
    case DlClose(h) => if h == handle && refs > 0 then refs - 1 else refs
    case _ => refs
  }

  lemma OwnFound(s: State, i: nat)
    requires LibsOk(s) && Own(s, i)
    ensures FindLib(s.libs, CurrentPid(s), s.libs[i].path) == i && FindHandle(s.libs, s.libs[i].handle) == i
    ensures LibraryPath(s.libs[i].path) && s.libs[i].handle != 0 && s.libs[i].refs >= 1
  {
    hide StartsAtRoot;
    assert LibOk(s, s.libs[i]);
    var k, h := FindLib(s.libs, CurrentPid(s), s.libs[i].path), FindHandle(s.libs, s.libs[i].handle);
    assert k <= i && h <= i;
  }

  lemma OpenCounts(s: State, path: string, loads: bool, i: nat)
    requires LibsOk(s) && HasCurrent(s) && Own(s, i)
    ensures |DoDlOpen(s, path, loads).libs| == |s.libs|
    ensures DoDlOpen(s, path, loads).libs[i] == s.libs[i].(refs := After(DlOpen(path, loads), s.libs[i].path, s.libs[i].handle, s.libs[i].refs))
  {
    hide FindPid, StartsAtRoot, LibsOk;
    OwnFound(s, i);
  }

  lemma CloseCounts(s: State, handle: nat, i: nat)
    requires LibsOk(s) && HasCurrent(s) && Own(s, i)
    ensures var r, l := DoDlClose(s, handle), s.libs[i];
            var n := After(DlClose(handle), l.path, l.handle, l.refs);
            |r.libs| == |s.libs| && if n > 0 then r.libs[i] == l.(refs := n) else r.libs[i] == NO_LIB && l.image in r.freed
  {
    hide FindPid, LibsOk;
    OwnFound(s, i);
  }

  /** One call counts an open library up, down, or not at all; at nothing its image is freed. */
  lemma CallCounts(s: State, c: Call, i: nat)
    requires LibsOk(s) && ProcsOk(s, MAX_PROCS) && Own(s, i)
    ensures var r, l := DoCall(s, c), s.libs[i];
            var n := After(c, l.path, l.handle, l.refs);
            |r.libs| == |s.libs| && if n > 0 then r.libs[i] == l.(refs := n) else l.image in r.freed
  {
    hide LibsOk, ProcsOk, HasCurrent, Stacked, DoDlOpen, DoDlClose;
    OwnFound(s, i);
    OwnerStacked(s, i);
    StackFacts(s);
    match c
    case DlOpen(path, loads) => OpenCounts(s, path, loads, i);
    case DlClose(handle) => CloseCounts(s, handle, i);
    case _ => CallKeeps(s, c);
  }

  lemma OwnerStacked(s: State, i: nat)
    requires LibsOk(s) && Own(s, i)
    ensures s.stack != []
  {
    assert LibOk(s, s.libs[i]);
  }

  // ----- runs -----

  /** How often a library is open after some calls of its owner, until it is not open any more. */
  function Count(cs: Calls, path: string, handle: nat, refs: nat): nat
    decreases cs
  {
    if cs.Done? || refs == 0 then refs else Count(cs.rest, path, handle, After(cs.call, path, handle, refs))
  }

  function Length(cs: Calls): nat {
    if cs.Done? then 0 else 1 + Length(cs.rest)
  }

  /** How many of the first `k` calls open the library. */
  function Opens(cs: Calls, path: string, k: nat): nat
    decreases cs
  {
    if cs.Done? || k == 0 then 0
    else Opens(cs.rest, path, k - 1) + if cs.call.DlOpen? && cs.call.path == path then 1 else 0
  }

  /** How many of the first `k` calls close it. */
  function Closes(cs: Calls, handle: nat, k: nat): nat
    decreases cs
  {
    if cs.Done? || k == 0 then 0
    else Closes(cs.rest, handle, k - 1) + if cs.call == DlClose(handle) then 1 else 0
  }

  /** At some point as many closes have been made as there were opens. */
  ghost predicate CaughtUp(cs: Calls, path: string, handle: nat, refs: nat) {
    exists k: nat :: Closes(cs, handle, k) >= refs + Opens(cs, path, k)
  }

  lemma CountsNext(c: Call, rest: Calls, path: string, handle: nat, refs: nat, k: nat)
    requires refs > 0
    ensures Closes(Then(c, rest), handle, k + 1) - Opens(Then(c, rest), path, k + 1) - refs
         == Closes(rest, handle, k) - Opens(rest, path, k) - After(c, path, handle, refs)
  {
  }

  /** The count ends exactly when the closes have caught up with the opens, and is otherwise the
      number of opens without the closes. */
  lemma {:induction false} CountIsDifference(cs: Calls, path: string, handle: nat, refs: nat)
    requires refs > 0
    ensures Count(cs, path, handle, refs) == 0 <==> CaughtUp(cs, path, handle, refs)
    ensures Count(cs, path, handle, refs) > 0 ==>
              Count(cs, path, handle, refs) == refs + Opens(cs, path, Length(cs)) - Closes(cs, handle, Length(cs))
    decreases cs
  {
    hide After;
    if cs.Then? {
      var n := After(cs.call, path, handle, refs);
      CountsNext(cs.call, cs.rest, path, handle, refs, Length(cs.rest));
      if n == 0 {
        CountsNext(cs.call, cs.rest, path, handle, refs, 0);
        assert Closes(cs, handle, 1) >= refs + Opens(cs, path, 1);
      } else {
        CountIsDifference(cs.rest, path, handle, n);
        CaughtUpNext(cs.call, cs.rest, path, handle, refs);
      }
    }
  }

  lemma CaughtUpNext(c: Call, rest: Calls, path: string, handle: nat, refs: nat)
    requires refs > 0
    ensures CaughtUp(Then(c, rest), path, handle, refs) <==> CaughtUp(rest, path, handle, After(c, path, handle, refs))
  {
    hide After, Opens, Closes;
    var cs, n := Then(c, rest), After(c, path, handle, refs);
    NoneYet(cs, path, handle);
    if k: nat :| Closes(cs, handle, k) >= refs + Opens(cs, path, k) {
      CountsNext(c, rest, path, handle, refs, k - 1);
      assert Closes(rest, handle, k - 1) >= n + Opens(rest, path, k - 1);
    }
    if k: nat :| Closes(rest, handle, k) >= n + Opens(rest, path, k) {
      CountsNext(c, rest, path, handle, refs, k);
      assert Closes(cs, handle, k + 1) >= refs + Opens(cs, path, k + 1);
    }
  }

  lemma NoneYet(cs: Calls, path: string, handle: nat)
    ensures Opens(cs, path, 0) == Closes(cs, handle, 0) == 0
  {
  }

  /** A library that is open stays open, in its slot, as long as its owner has not closed it as
      often as it was opened, whatever calls the owner makes otherwise and whatever the programs
      do that run in between; exactly then its image is freed. */
  lemma {:induction false} OpenUntilCounted(s: State, cs: Calls, i: nat)
    requires LibsOk(s) && ProcsOk(s, MAX_PROCS) && Own(s, i)
    ensures var r, l := DoCalls(s, cs), s.libs[i];
            var n := Count(cs, l.path, l.handle, l.refs);
            && |r.libs| == |s.libs| && (n > 0 ==> r.libs[i] == l.(refs := n))
            && (l.image in r.freed <==> n == 0)
    decreases cs
  {
    hide LibsOk, ProcsOk, DoCall, After, Later;
    var l := s.libs[i];
    OwnImage(s, i);
    if cs.Then? {
      var m := DoCall(s, cs.call);
      CallCounts(s, cs.call, i);
      DoCallOk(s, cs.call);
      DoCallLibs(s, cs.call);
      if After(cs.call, l.path, l.handle, l.refs) > 0 {
        OpenUntilCounted(m, cs.rest, i);
      } else {
        DoCallsKeep(m, cs.rest);
        DoCallsLibs(m, cs.rest);
        TableSize(DoCalls(m, cs.rest));
        TableSize(s);
      }
    }
  }

  lemma OwnImage(s: State, i: nat)
    requires LibsOk(s) && Own(s, i)
    ensures s.libs[i].image !in s.freed && s.libs[i].refs > 0
  {
    assert LibOk(s, s.libs[i]) && Loaded(s.libs, s.libs[i].image);
  }

  lemma TableSize(s: State)
    requires LibsOk(s)
    ensures |s.libs| == MAX_LIBS
  {
  }

  /** n opens need n closes: the image of an open library is freed during the calls of its owner if
      and only if at some point the owner has closed it as often as it had been opened; until then
      the library is in its slot, with what is left of the opens. */
  lemma OpensNeedCloses(s: State, cs: Calls, i: nat)
    requires LibsOk(s) && ProcsOk(s, MAX_PROCS) && Own(s, i)
    ensures var r, l := DoCalls(s, cs), s.libs[i];
            && |r.libs| == |s.libs|
            && (l.image in r.freed <==> CaughtUp(cs, l.path, l.handle, l.refs))
            && (l.image !in r.freed ==>
                  && l.refs + Opens(cs, l.path, Length(cs)) > Closes(cs, l.handle, Length(cs))
                  && r.libs[i] == l.(refs := l.refs + Opens(cs, l.path, Length(cs)) - Closes(cs, l.handle, Length(cs))))
  {
    hide LibsOk, ProcsOk, DoCalls, CaughtUp, Count, Opens, Closes;
    OpenUntilCounted(s, cs, i);
    OwnImage(s, i);
    CountIsDifference(cs, s.libs[i].path, s.libs[i].handle, s.libs[i].refs);
  }

  /** The same from the first open on, for the handle that it gives. */
  lemma FirstOpenToLastClose(s: State, path: string, cs: Calls)
    requires LibsOk(s) && ProcsOk(s, MAX_PROCS) && s.stack != [] && LibraryPath(path)
    requires FindLib(s.libs, CurrentPid(s), path) == |s.libs| && FreeLib(s.libs) < |s.libs|
    ensures var r := DoCalls(s, Then(DlOpen(path, true), cs));
            s.images in r.freed <==> CaughtUp(cs, path, s.nextHandle, 1)
  {
    hide LibsOk, ProcsOk, DoCalls, CaughtUp, Opens, Closes, StartsAtRoot, FindPid, Later, Stacked;
    StackFacts(s);
    var m := DoDlOpen(s, path, true);
    assert DoCall(s, DlOpen(path, true)) == m;
    DoCallOk(s, DlOpen(path, true));
    OpenOk(s, path, true);
    DoThen(s, DlOpen(path, true), cs);
    OpensNeedCloses(m, cs, FreeLib(s.libs));
  }

  lemma DoThen(s: State, c: Call, rest: Calls)
    ensures DoCalls(s, Then(c, rest)) == DoCalls(DoCall(s, c), rest)
  {
  }
}
