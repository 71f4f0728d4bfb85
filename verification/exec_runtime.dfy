/** How much of the time the reported runtime of a process counts (clks/kernel/exec.c). */
module ExecRuntime {
  import opened Machine
  import opened ExecState
  import opened ExecSafety
  import opened ExecInside

  // ----- the time that passes while a process runs -----

  /** The ticks that pass during the calls `cs` while process `pid` is on the stack, in runs that
      began at tick `from` or later. For a run that is under way in `s`, `on` says whether it
      counts. */
  ghost function TicksOn(s: State, cs: Calls, pid: nat, on: bool, from: nat): nat
    decreases cs
  {
    if cs.Done? then 0
    else TicksOnCall(s, cs.call, pid, on, from) + TicksOn(DoCall(s, cs.call), cs.rest, pid, on, from)
  }

  ghost function TicksOnCall(s: State, c: Call, pid: nat, on: bool, from: nat): nat
    decreases c
  {
    match c
    case Advance(n) => if Stacked(s, pid) && on then n else 0
    case Run(path, stdioOk, image) =>
      if StartsAtRoot(path) && AllocSlot(s.procs) < |s.procs| && stdioOk
      then TicksOnRun(Added(s, path), AllocSlot(s.procs), image, pid, on, from) else 0
    case Wait(p, image) =>
      if !s.dispatching && IsPending(s, FindPid(s.procs, p))
      then TicksOnRun(Busy(s), FindPid(s.procs, p), image, pid, on, from) else 0
    case Yield(image) =>
      if !s.dispatching && IsPending(s, FirstIn(s.procs, Pending))
      then TicksOnRun(Busy(s), FirstIn(s.procs, Pending), image, pid, on, from) else 0
    case _ => 0
  }

  ghost function TicksOnRun(s: State, slot: nat, image: Image, pid: nat, on: bool, from: nat): nat
    requires slot < |s.procs|
    decreases image
  {
    if s.procs[slot].used && StartsAtRoot(s.procs[slot].path) && |s.stack| < MAX_DEPTH && image.Runs?
    then TicksOn(Started(s, slot), image.body, pid, if s.procs[slot].pid == pid then s.now >= from else on, from)
    else 0
  }

  // ----- what is reported -----

  /** The runtime that is reported for a process, zero for one that has no record. */
  function Reported(s: State, pid: nat): nat {
    var i := FindPid(s.procs, pid);
    if i < |s.procs| then RuntimeOf(s.procs[i], s.now) else 0
  }

  ghost predicate HasRecord(s: State, pid: nat) {
    FindPid(s.procs, pid) < |s.procs|
  }

  /** For a process on the stack, `on` says whether its run has begun after tick 0. */
  ghost predicate OnIs(s: State, pid: nat, on: bool) {
    Stacked(s, pid) && HasRecord(s, pid) ==> (on <==> s.procs[FindPid(s.procs, pid)].runStarted != 0)
  }

  /** From `s` to `r` the reported runtime of the process, if it has a record in the end, has grown
      by `n`, and it is on the stack as before. */
  ghost predicate Grows(s: State, r: State, pid: nat, n: nat) {
    && (HasRecord(r, pid) ==> Reported(r, pid) == Reported(s, pid) + n && SameRun(s, r, pid))
    && (pid >= r.nextPid ==> n == 0)
  }

  ghost predicate SameRun(s: State, r: State, pid: nat) {
    && (Stacked(r, pid) <==> Stacked(s, pid))
    && forall on :: OnIs(s, pid, on) ==> OnIs(r, pid, on)
  }

  // ----- records -----

  /** A process that there has not been yet. */
  lemma NoRecordYet(s: State, pid: nat, entering: nat)
    requires ProcsOk(s, entering) && pid >= s.nextPid
    ensures !HasRecord(s, pid) && Reported(s, pid) == 0 && !Stacked(s, pid)
  {
    hide LogOk, TimeOk;
    forall i | 0 <= i < |s.procs|
      ensures !(s.procs[i].used && s.procs[i].pid == pid)
    {
      assert ProcOk(s, i, entering);
    }
    forall k | 0 <= k < |s.stack|
      ensures s.stack[k].pid != pid
    {
      assert ProcOk(s, s.slots[k], entering);
    }
  }

  /** A process that has a record had it before, in the same slot. */
  lemma HadRecord(s: State, r: State, pid: nat, entering: nat, entering2: nat)
    requires ProcsOk(s, entering) && ProcsOk(r, entering2) && Later(s, r) && pid < s.nextPid && HasRecord(r, pid)
    ensures HasRecord(s, pid) && FindPid(s.procs, pid) == FindPid(r.procs, pid)
  {
    hide LogOk, TimeOk;
    var i := FindPid(r.procs, pid);
    assert LaterProc(s.procs[i], r.procs[i], s.nextPid, s.now, r.now);
    FindPidIs(s.procs, pid, i);
  }

  lemma GrowsTwice(s: State, m: State, r: State, pid: nat, a: nat, b: nat, entering: nat)
    requires ProcsOk(s, entering) && ProcsOk(m, MAX_PROCS) && ProcsOk(r, MAX_PROCS) && s.nextPid <= m.nextPid && Later(m, r)
    requires Grows(s, m, pid, a) && Grows(m, r, pid, b)
    ensures Grows(s, r, pid, a + b)
  {
    hide ProcsOk, OnIs, Stacked, Later;
    assert m.nextPid <= r.nextPid by { LaterPids(m, r); }
    if HasRecord(r, pid) {
      if pid < m.nextPid {
        HadRecord(m, r, pid, MAX_PROCS, MAX_PROCS);
      } else {
        NoRecordYet(m, pid, MAX_PROCS);
        NoRecordYet(s, pid, entering);
        NotOn(s, pid);
        NotOn(r, pid);
      }
    }
  }

  lemma LaterPids(s: State, r: State)
    requires Later(s, r)
    ensures s.nextPid <= r.nextPid
  {
  }

  lemma NotOn(s: State, pid: nat)
    requires !Stacked(s, pid)
    ensures forall on :: OnIs(s, pid, on)
  {
  }

  lemma GrowsNone(s: State, pid: nat)
    ensures Grows(s, s, pid, 0)
  {
  }

  // ----- steps that take no time -----

  lemma StackedSame(s: State, r: State)
    requires |r.stack| == |s.stack| && forall k :: 0 <= k < |s.stack| ==> r.stack[k].pid == s.stack[k].pid
    ensures forall pid :: Stacked(r, pid) <==> Stacked(s, pid)
  {
  }

  /** A record changes, but not for the clock. */
  lemma SlotChanges(s: State, r: State, slot: nat, pid: nat)
    requires slot < |s.procs| && |r.procs| == |s.procs| && r.procs == s.procs[slot := r.procs[slot]] && r.now == s.now
    requires r.procs[slot].used == s.procs[slot].used && r.procs[slot].pid == s.procs[slot].pid
    requires RuntimeOf(r.procs[slot], r.now) == RuntimeOf(s.procs[slot], s.now)
    requires s.procs[slot].pid == pid ==> !Stacked(s, pid) || (r.procs[slot].runStarted == 0 <==> s.procs[slot].runStarted == 0)
    requires Stacked(r, pid) <==> Stacked(s, pid)
    ensures HasRecord(r, pid) <==> HasRecord(s, pid)
    ensures Grows(s, r, pid, 0)
  {
    hide Stacked, RuntimeOf;
    FindPidIs(r.procs, pid, FindPid(s.procs, pid));
  }

  /** No record changes. */
  lemma OthersChange(s: State, r: State, pid: nat)
    requires r.procs == s.procs && r.now == s.now && (Stacked(r, pid) <==> Stacked(s, pid))
    ensures Grows(s, r, pid, 0)
  {
  }

  lemma PauseExact(p: Proc, now: nat, status: nat)
    requires TimeOk(p, now)
    ensures RuntimeOf(EndRun(p, now, status), now) == RuntimeOf(StopRun(p, now, status), now) == RuntimeOf(p, now)
  {
  }

  lemma StartExact(p: Proc, now: nat)
    requires TimeOk(p, now) && p.runStarted == 0
    ensures RuntimeOf(StartRun(p, now), now) == RuntimeOf(p, now) && StartRun(p, now).runStarted == now
  {
  }

  /** A new record takes a slot that is free. */
  lemma AddGrows(s: State, path: string, phase: Phase, pid: nat)
    requires ProcsOk(s, MAX_PROCS) && AllocSlot(s.procs) < |s.procs|
    ensures Grows(s, AddProc(s, AllocSlot(s.procs), path, phase), pid, 0)
  {
    hide ProcsOk, AllocSlot;
    var slot := AllocSlot(s.procs);
    var r := AddProc(s, slot, path, phase);
    if HasRecord(r, pid) {
      if pid == s.nextPid {
        NoRecordYet(s, pid, MAX_PROCS);
        FoundNew(r, slot, s, pid);
      } else {
        FoundOld(s, r, slot, pid);
      }
    }
  }

  lemma FoundNew(r: State, slot: nat, s: State, pid: nat)
    requires ProcsOk(s, MAX_PROCS) && pid >= s.nextPid && slot < |s.procs|
    requires |r.procs| == |s.procs| && r.procs == s.procs[slot := r.procs[slot]] && r.procs[slot].used && r.procs[slot].pid == pid
    ensures FindPid(r.procs, pid) == slot
  {
    hide LogOk, TimeOk;
    forall j | 0 <= j < slot
      ensures !(r.procs[j].used && r.procs[j].pid == pid)
    {
      assert ProcOk(s, j, MAX_PROCS);
    }
    FindPidIs(r.procs, pid, slot);
  }

  /** Another record is found where it was. */
  lemma FoundOld(s: State, r: State, slot: nat, pid: nat)
    requires ProcsOk(s, MAX_PROCS) && slot < |s.procs| && |r.procs| == |s.procs| && r.procs == s.procs[slot := r.procs[slot]]
    requires HasRecord(r, pid) && !(r.procs[slot].used && r.procs[slot].pid == pid)
    ensures FindPid(s.procs, pid) == FindPid(r.procs, pid) < |s.procs| && r.procs[FindPid(r.procs, pid)] == s.procs[FindPid(r.procs, pid)]
  {
    hide LogOk, TimeOk, ProcOk;
    var i := FindPid(r.procs, pid);
    assert i != slot && s.procs[i].used && s.procs[i].pid == pid;
    FindPidIs(s.procs, pid, i);
  }

  lemma WithdrawGrows(s: State, pid: nat)
    requires ProcsOk(s, MAX_PROCS) && AllocSlot(s.procs) < |s.procs|
    ensures Grows(s, s.(procs := s.procs[AllocSlot(s.procs) := BLANK], nextPid := s.nextPid + 1), pid, 0)
  {
    hide ProcsOk, AllocSlot;
    var slot := AllocSlot(s.procs);
    var r := s.(procs := s.procs[slot := BLANK], nextPid := s.nextPid + 1);
    if HasRecord(r, pid) { FoundOld(s, r, slot, pid); }
  }

  lemma KillGrows(s: State, target: nat, signal: nat, pid: nat)
    requires ProcsOk(s, MAX_PROCS)
    ensures Grows(s, DoKill(s, target, signal).0, pid, 0)
  {
    hide ProcsOk, SignalStatus, TimeOk, Stacked, RuntimeOf;
    var slot, r := FindPid(s.procs, target), DoKill(s, target, signal).0;
    StackedSame(s, r);
    if r == s {
      GrowsNone(s, pid);
    } else {
      var told := s.procs[slot].(lastSignal := EffectiveSignal(signal));
      KnownPhase(s, slot);
      ToldSame(s.procs[slot], EffectiveSignal(signal), s.now);
      PauseExact(told, s.now, SignalStatus(EffectiveSignal(signal), 0, 0));
      if told.phase != Running { SignalledTime(told, s.now, SignalStatus(EffectiveSignal(signal), 0, 0)); }
      SlotChanges(s, r, slot, pid);
    }
  }

  lemma ToldSame(p: Proc, sig: nat, now: nat)
    requires TimeOk(p, now)
    ensures TimeOk(p.(lastSignal := sig), now) && RuntimeOf(p.(lastSignal := sig), now) == RuntimeOf(p, now)
  {
  }

  /** What a signal does to a process that is not running changes nothing that is reported. */
  lemma SignalledTime(p: Proc, now: nat, status: nat)
    requires TimeOk(p, now) && p.phase != Running
    ensures RuntimeOf(p.(phase := Pending), now) == RuntimeOf(p.(phase := Stopped), now) == RuntimeOf(p, now)
    ensures p.runStarted == 0 == EndRun(p, now, status).runStarted
  {
  }

  lemma FaultGrows(s: State, vector: nat, error: nat, pid: nat)
    requires ProcsOk(s, MAX_PROCS)
    ensures Grows(s, DoFault(s, vector, error), pid, 0)
  {
    hide ProcsOk, SignalStatus, SignalOf, IsUserProgram, TimeOk, Stacked, RuntimeOf;
    var slot, r := FindPid(s.procs, CurrentPid(s)), DoFault(s, vector, error);
    StackedSame(s, r);
    if r == s {
      GrowsNone(s, pid);
    } else {
      KnownPhase(s, slot);
      ToldSame(s.procs[slot], SignalOf(vector), s.now);
      SlotChanges(s, r, slot, pid);
    }
  }

  /** The clock advances: exactly the processes on the stack are charged for it, if their run has
      begun after tick 0. */
  lemma AdvanceGrows(s: State, n: nat, pid: nat, on: bool)
    requires ProcsOk(s, MAX_PROCS) && OnIs(s, pid, on)
    ensures Grows(s, s.(now := s.now + n), pid, if Stacked(s, pid) && on then n else 0)
  {
    hide LogOk;
    StackFacts(s);
    var i := FindPid(s.procs, pid);
    if i < |s.procs| {
      assert ProcOk(s, i, MAX_PROCS);
    } else {
      OnHasRecord(s, pid);
    }
    NoneNew(s, pid);
  }

  lemma NoneNew(s: State, pid: nat)
    requires ProcsOk(s, MAX_PROCS)
    ensures pid >= s.nextPid ==> !Stacked(s, pid)
  {
    hide ProcsOk, Stacked;
    if pid >= s.nextPid { NoRecordYet(s, pid, MAX_PROCS); }
  }

  lemma OnHasRecord(s: State, pid: nat)
    requires ProcsOk(s, MAX_PROCS) && !HasRecord(s, pid)
    ensures !Stacked(s, pid)
  {
    hide LogOk, TimeOk;
    forall k | 0 <= k < |s.stack|
      ensures s.stack[k].pid != pid
    {
      assert s.procs[s.slots[k]].used && s.procs[s.slots[k]].pid == s.stack[k].pid;
    }
  }

  lemma QuietGrows(s: State, c: Call, pid: nat)
    requires ProcsOk(s, MAX_PROCS) && !c.Advance? && !c.Run? && !c.Wait? && !c.Yield?
    ensures Grows(s, DoCall(s, c), pid, 0)
  {
    hide ProcsOk, Stacked, AllocSlot, FindPid, DoKill, DoFault, DoDlOpen, DoDlClose, StartsAtRoot, AddProc, Grows;
    var r := DoCall(s, c);
    GrowsNone(s, pid);
    match c
    case Spawn(path) =>
      if DoSpawn(s, path) != s { AddGrows(s, path, Pending, pid); }
    case Kill(target, signal) => KillGrows(s, target, signal, pid);
    case Fault(vector, error) => FaultGrows(s, vector, error, pid);
    case Exit(status) =>
      StackedSame(s, r);
      OthersChange(s, r, pid);
    case DlOpen(_, _) =>
      LibsOnly(s, c);
      StackedSame(s, r);
      OthersChange(s, r, pid);
    case DlClose(_) =>
      LibsOnly(s, c);
      StackedSame(s, r);
      OthersChange(s, r, pid);
  }

  lemma LibsOnly(s: State, c: Call)
    requires c.DlOpen? || c.DlClose?
    ensures var r := DoCall(s, c); r.procs == s.procs && r.stack == s.stack && r.now == s.now && r.nextPid == s.nextPid
  {
    hide FindLib, FreeLib, FindHandle, FindPid, StartsAtRoot;
  }

  // ----- runs -----

  /** A process gets onto the stack; for the others nothing changes. */
  lemma StartGrows(s: State, slot: nat, pid: nat, entering: nat)
    requires ProcsOk(s, entering) && slot < |s.procs| && s.procs[slot].used && slot !in s.slots && |s.stack| < MAX_DEPTH
    requires if s.procs[slot].phase == Pending then entering == MAX_PROCS else entering == slot
    ensures var r, mine := Started(s, slot), s.procs[slot].pid == pid;
            && (mine ==> Reported(r, pid) == Reported(s, pid) && !Stacked(s, pid) && HasRecord(s, pid) && OnIs(r, pid, s.now >= 1))
            && (!mine ==> Grows(s, r, pid, 0))
  {
    hide LogOk, TimeOk, RuntimeOf;
    var r := Started(s, slot);
    assert ProcOk(s, slot, entering);
    NotPaused(s.procs[slot], s.now);
    StartExact(s.procs[slot], s.now);
    PushedStack(s, slot);
    if s.procs[slot].pid == pid {
      FoundAt(s, slot, entering);
      FoundSame(s, r, slot, pid);
    } else {
      SlotChanges(s, r, slot, pid);
    }
  }

  lemma NotPaused(p: Proc, now: nat)
    requires TimeOk(p, now) && (p.phase == Running ==> p.runStarted == 0)
    ensures p.runStarted == 0
  {
  }

  lemma PushedStack(s: State, slot: nat)
    requires slot < |s.procs|
    ensures forall pid :: Stacked(Started(s, slot), pid) <==> Stacked(s, pid) || pid == s.procs[slot].pid
  {
    var r := Started(s, slot);
    forall pid
      ensures Stacked(r, pid) <==> Stacked(s, pid) || pid == s.procs[slot].pid
    {
      assert r.stack[|s.stack|].pid == s.procs[slot].pid;
      assert forall k :: 0 <= k < |s.stack| ==> r.stack[k] == s.stack[k];
    }
  }

  lemma FoundAt(s: State, slot: nat, entering: nat)
    requires ProcsOk(s, entering) && slot < |s.procs| && s.procs[slot].used && slot !in s.slots
    ensures FindPid(s.procs, s.procs[slot].pid) == slot && !Stacked(s, s.procs[slot].pid)
  {
    hide LogOk, TimeOk;
    FindPidIs(s.procs, s.procs[slot].pid, slot);
    forall k | 0 <= k < |s.stack|
      ensures s.stack[k].pid != s.procs[slot].pid
    {
      assert s.slots[k] in s.slots && s.procs[s.slots[k]].pid == s.stack[k].pid;
    }
  }

  lemma FoundSame(s: State, r: State, slot: nat, pid: nat)
    requires slot < |s.procs| && |r.procs| == |s.procs| && r.procs == s.procs[slot := r.procs[slot]]
    requires FindPid(s.procs, pid) == slot && r.procs[slot].used && r.procs[slot].pid == pid
    ensures FindPid(r.procs, pid) == slot
  {
    FindPidIs(r.procs, pid, slot);
  }

  /** The innermost process leaves, in one way or the other: nothing that is reported changes. */
  lemma LeaveGrows(s: State, slot: nat, p: Proc, r: State, pid: nat)
    requires ProcsOk(s, MAX_PROCS) && s.slots != [] && slot == s.slots[|s.slots|-1] && slot < |s.procs|
    requires exists status :: p == EndRun(s.procs[slot], s.now, status) || p == StopRun(s.procs[slot], s.now, status)
    requires r.procs == s.procs[slot := p] && r.now == s.now && r.stack == s.stack[..|s.stack|-1]
    ensures HasRecord(r, pid) ==> Reported(r, pid) == Reported(s, pid)
    ensures HasRecord(r, pid) <==> HasRecord(s, pid)
    ensures s.procs[slot].pid == pid ==> !Stacked(r, pid)
    ensures s.procs[slot].pid != pid ==> Grows(s, r, pid, 0)
  {
    hide LogOk, TimeOk, RuntimeOf;
    var status :| p == EndRun(s.procs[slot], s.now, status) || p == StopRun(s.procs[slot], s.now, status);
    assert ProcOk(s, slot, MAX_PROCS);
    PauseExact(s.procs[slot], s.now, status);
    StackFacts(s);
    assert s.stack[|s.stack|-1].pid == s.procs[slot].pid;
    PoppedStack(s, r);
    FindPidIs(r.procs, pid, FindPid(s.procs, pid));
    if s.procs[slot].pid != pid { SlotChanges(s, r, slot, pid); }
  }

  lemma PoppedStack(s: State, r: State)
    requires s.stack != [] && r.stack == s.stack[..|s.stack|-1]
    requires forall j, k :: 0 <= j < k < |s.stack| ==> s.stack[j].pid != s.stack[k].pid
    ensures forall pid :: Stacked(r, pid) <==> Stacked(s, pid) && pid != s.stack[|s.stack|-1].pid
  {
    forall pid
      ensures Stacked(r, pid) <==> Stacked(s, pid) && pid != s.stack[|s.stack|-1].pid
    {
      if Stacked(s, pid) && pid != s.stack[|s.stack|-1].pid {
        var k :| 0 <= k < |s.stack| && s.stack[k].pid == pid;
        assert r.stack[k].pid == pid;
      }
      if Stacked(r, pid) {
        var k :| 0 <= k < |r.stack| && r.stack[k].pid == pid;
        assert s.stack[k].pid == pid;
      }
    }
  }

  lemma RejectGrows(s: State, slot: nat, pid: nat, entering: nat)
    requires ProcsOk(s, entering) && slot < |s.procs| && s.procs[slot].used && slot !in s.slots
    requires if s.procs[slot].phase == Pending then entering == MAX_PROCS else entering == slot
    ensures Grows(s, SetProc(s, slot, EndRun(s.procs[slot], s.now, FAILED)), pid, 0)
  {
    hide LogOk, TimeOk, RuntimeOf, EndRun;
    var r := SetProc(s, slot, EndRun(s.procs[slot], s.now, FAILED));
    assert ProcOk(s, slot, entering);
    PauseExact(s.procs[slot], s.now, FAILED);
    FoundAt(s, slot, entering);
    StackedSame(s, r);
    SlotChanges(s, r, slot, pid);
  }

  /** What the end of a run needs to know of its body. */
  lemma BodyFacts(s: State, slot: nat, body: Calls, entering: nat)
    requires ProcsOk(s, entering) && slot < |s.procs| && s.procs[slot].used && slot !in s.slots && |s.stack| < MAX_DEPTH
    requires if s.procs[slot].phase == Pending then entering == MAX_PROCS else entering == slot
    ensures var started := Started(s, slot); var left := DoCalls(started, body);
            && ProcsOk(started, MAX_PROCS) && Later(s, started) && ProcsOk(left, MAX_PROCS) && Later(started, left)
            && left.slots != [] && left.slots[|left.slots|-1] == slot < |left.procs| && left.stack != [] && left.running > 0
            && left.procs[slot].pid == s.procs[slot].pid < s.nextPid == started.nextPid
  {
    hide ProcsOk, Later, DoCalls, Push;
    var started := Started(s, slot);
    PushOk(s, slot, entering);
    FlagsOk(Push(s, slot), s.running + 1, s.dispatching);
    LaterTwice(s, Push(s, slot), started);
    DoCallsOk(started, body);
    InTable(started);
    InTable(DoCalls(started, body));
    PidKnown(s, slot, entering);
  }

  lemma PidKnown(s: State, slot: nat, entering: nat)
    requires ProcsOk(s, entering) && slot < |s.procs| && s.procs[slot].used
    ensures s.procs[slot].pid < s.nextPid
  {
    assert ProcOk(s, slot, entering);
  }

  lemma FinishGrows(left: State, slot: nat, ret: nat, pid: nat)
    requires ProcsOk(left, MAX_PROCS) && left.slots != [] && slot == left.slots[|left.slots|-1] && slot < |left.procs|
    requires left.stack != [] && left.running > 0
    ensures var r := Finish(left.(running := left.running - 1), slot, ret);
            && ProcsOk(r, MAX_PROCS) && Later(left, r)
            && (HasRecord(r, pid) ==> HasRecord(left, pid) && Reported(r, pid) == Reported(left, pid))
            && (left.procs[slot].pid == pid ==> !Stacked(r, pid))
            && (left.procs[slot].pid != pid ==> Grows(left, r, pid, 0))
  {
    hide ProcsOk, Later, EndRun, StopRun, Release, Stacked;
    var ended := left.(running := left.running - 1);
    FlagsOk(left, left.running - 1, left.dispatching);
    FinishOk(ended, slot, ret);
    LaterTwice(left, ended, Finish(ended, slot, ret));
    var p, status := ended.procs[slot], RunStatus(Top(ended), ret);
    var q := if Top(ended).stopAsked then StopRun(p, ended.now, status) else EndRun(p, ended.now, status);
    ReleaseOnlyLibs(SetProc(ended, slot, q), p.pid);
    LeaveGrows(ended, slot, q, Finish(ended, slot, ret), pid);
    StackedSame(left, ended);
    SameView(left, ended, Finish(ended, slot, ret), pid);
  }

  /** The depth counter does not matter. */
  lemma SameView(left: State, ended: State, r: State, pid: nat)
    requires ended == left.(running := ended.running)
    ensures Reported(ended, pid) == Reported(left, pid) && (HasRecord(ended, pid) <==> HasRecord(left, pid))
    ensures Grows(ended, r, pid, 0) ==> Grows(left, r, pid, 0)
  {
    StackedSame(left, ended);
  }

  lemma {:induction false} RunSlotGrows(s: State, slot: nat, image: Image, pid: nat, on: bool, entering: nat)
    requires ProcsOk(s, entering) && slot < |s.procs| && s.procs[slot].used && slot !in s.slots
    requires if s.procs[slot].phase == Pending then entering == MAX_PROCS else entering == slot
    requires OnIs(s, pid, on)
    ensures Grows(s, RunSlot(s, slot, image).0, pid, TicksOnRun(s, slot, image, pid, on, 1))
    decreases image, 0
  {
    hide ProcsOk, Later, Finish, FailRun, DoCalls, StartsAtRoot, EndRun, Push, RunSlot, SetProc, Grows, OnIs, Stacked, Started;
    if !StartsAtRoot(s.procs[slot].path) || |s.stack| >= MAX_DEPTH {
      RunSlotRejects(s, slot, image);
      RejectGrows(s, slot, pid, entering);
    } else if !image.Runs? {
      RunSlotFails(s, slot, image);
      FailGrows(s, slot, pid, entering);
    } else {
      var started, mine := Started(s, slot), s.procs[slot].pid == pid;
      BodyFacts(s, slot, image.body, entering);
      StartGrows(s, slot, pid, entering);
      OnStarted(s, started, pid, on, mine);
      CallsGrow(started, image.body, pid, if mine then s.now >= 1 else on);
      EndGrows(s, slot, image, pid, TicksOn(started, image.body, pid, if mine then s.now >= 1 else on, 1), entering);
    }
  }

  /** A run whose body is known. */
  lemma EndGrows(s: State, slot: nat, image: Image, pid: nat, n: nat, entering: nat)
    requires ProcsOk(s, entering) && slot < |s.procs| && s.procs[slot].used && slot !in s.slots && |s.stack| < MAX_DEPTH
    requires if s.procs[slot].phase == Pending then entering == MAX_PROCS else entering == slot
    requires StartsAtRoot(s.procs[slot].path) && image.Runs?
    requires Grows(Started(s, slot), DoCalls(Started(s, slot), image.body), pid, n)
    ensures Grows(s, RunSlot(s, slot, image).0, pid, n)
  {
    hide ProcsOk, Later, Finish, DoCalls, StartsAtRoot, Push, RunSlot, Grows, OnIs, Stacked, Started;
    var started := Started(s, slot);
    var left := DoCalls(started, image.body);
    BodyFacts(s, slot, image.body, entering);
    StartGrows(s, slot, pid, entering);
    StartedIs(s, slot);
    RunSlotRuns(s, slot, image);
    FinishGrows(left, slot, image.ret, pid);
    RunGrown(s, started, left, RunSlot(s, slot, image).0, pid, s.procs[slot].pid == pid, n, entering);
  }

  lemma StartedIs(s: State, slot: nat)
    requires slot < |s.procs|
    ensures Started(s, slot) == Push(s, slot).(running := s.running + 1)
  {
  }

  lemma OnStarted(s: State, started: State, pid: nat, on: bool, mine: bool)
    requires OnIs(s, pid, on) && (if mine then OnIs(started, pid, s.now >= 1) else Grows(s, started, pid, 0))
    ensures OnIs(started, pid, if mine then s.now >= 1 else on)
  {
  }

  /** The parts of a run together. */
  lemma RunGrown(s: State, started: State, left: State, r: State, pid: nat, mine: bool, n: nat, entering: nat)
    requires ProcsOk(s, entering) && ProcsOk(started, MAX_PROCS) && ProcsOk(left, MAX_PROCS) && ProcsOk(r, MAX_PROCS)
    requires Later(s, started) && Later(started, left) && Later(left, r) && Grows(started, left, pid, n)
    requires HasRecord(r, pid) ==> HasRecord(left, pid) && Reported(r, pid) == Reported(left, pid)
    requires mine ==> pid < s.nextPid && Reported(started, pid) == Reported(s, pid) && !Stacked(s, pid) && !Stacked(r, pid)
    requires !mine ==> Grows(s, started, pid, 0) && Grows(left, r, pid, 0)
    ensures Grows(s, r, pid, n)
  {
    hide ProcsOk, Later, Stacked, OnIs;
    LaterPids(s, started);
    LaterPids(started, left);
    LaterPids(left, r);
    if mine {
      NotOn(s, pid);
      NotOn(r, pid);
    } else {
      GrowsTwice(s, started, left, pid, 0, n, entering);
      GrowsTwice(s, left, r, pid, n, 0, entering);
    }
  }

  lemma FailGrows(s: State, slot: nat, pid: nat, entering: nat)
    requires ProcsOk(s, entering) && slot < |s.procs| && s.procs[slot].used && slot !in s.slots && |s.stack| < MAX_DEPTH
    requires if s.procs[slot].phase == Pending then entering == MAX_PROCS else entering == slot
    ensures Grows(s, FailRun(Push(s, slot), slot), pid, 0)
  {
    hide ProcsOk, Later, Grows, OnIs, Stacked, Started, Push, EndRun, Release;
    var started, entered := Started(s, slot), Push(s, slot);
    StartedIs(s, slot);
    PushOk(s, slot, entering);
    FlagsOk(entered, s.running + 1, s.dispatching);
    StartGrows(s, slot, pid, entering);
    FailOk(entered, slot);
    LaterTwice(s, entered, started);
    PidKnown(s, slot, entering);
    ReleaseOnlyLibs(SetProc(entered, slot, EndRun(entered.procs[slot], entered.now, FAILED)), entered.procs[slot].pid);
    LeaveGrows(entered, slot, EndRun(entered.procs[slot], entered.now, FAILED), FailRun(entered, slot), pid);
    SameView(started, entered, FailRun(entered, slot), pid);
    LaterTwice(started, entered, FailRun(entered, slot));
    GrowsNone(started, pid);
    LaterSame(started, started);
    RunGrown(s, started, started, FailRun(entered, slot), pid, s.procs[slot].pid == pid, 0, entering);
  }

  lemma {:induction false} DispatchGrows(s: State, slot: nat, image: Image, pid: nat, on: bool)
    requires ProcsOk(s, MAX_PROCS) && slot < |s.procs| && IsPending(s, slot) && OnIs(s, pid, on)
    ensures Grows(s, Dispatch(s, slot, image), pid, TicksOnRun(Busy(s), slot, image, pid, on, 1))
    decreases image, 1
  {
    hide ProcsOk, Later, RunSlot, Stacked;
    FlagsOk(s, s.running, true);
    PendingNotStacked(s, slot);
    StackedSame(s, Busy(s));
    RunSlotGrows(Busy(s), slot, image, pid, on, MAX_PROCS);
    var r := RunSlot(Busy(s), slot, image).0;
    GrowsFlags(Busy(s), r, s, r.(dispatching := s.dispatching), pid, TicksOnRun(Busy(s), slot, image, pid, on, 1));
  }

  /** The dispatcher flag does not matter. */
  lemma GrowsFlags(s: State, r: State, s2: State, r2: State, pid: nat, n: nat)
    requires Grows(s, r, pid, n) && s2 == s.(dispatching := s2.dispatching) && r2 == r.(dispatching := r2.dispatching)
    ensures Grows(s2, r2, pid, n)
  {
    StackedSame(s, s2);
    StackedSame(r, r2);
    forall on | OnIs(s2, pid, on)
      ensures HasRecord(r2, pid) ==> OnIs(r2, pid, on)
    {
      assert OnIs(s, pid, on);
    }
  }

  lemma {:induction false} DoRunGrows(s: State, path: string, stdioOk: bool, image: Image, pid: nat, on: bool)
    requires ProcsOk(s, MAX_PROCS) && OnIs(s, pid, on)
    ensures Grows(s, DoRun(s, path, stdioOk, image).0, pid, TicksOnCall(s, Run(path, stdioOk, image), pid, on, 1))
    decreases image, 2
  {
    hide ProcsOk, Later, RunSlot, AllocSlot, StartsAtRoot, Stacked, Grows, OnIs, TicksOnRun, AddProc;
    GrowsNone(s, pid);
    var slot := AllocSlot(s.procs);
    if StartsAtRoot(path) && slot < |s.procs| {
      if !stdioOk {
        WithdrawGrows(s, pid);
      } else {
        var m := AddProc(s, slot, path, Running);
        AddOk(s, path, Running);
        AddGrows(s, path, Running, pid);
        OnStarted(s, m, pid, on, false);
        RunSlotGrows(m, slot, image, pid, on, slot);
        RunSlotOk(m, slot, image, slot);
        AddedGrows(s, m, RunSlot(m, slot, image).0, pid, TicksOnRun(m, slot, image, pid, on, 1), slot);
      }
    }
  }

  /** As GrowsTwice, where the state between is one in which a record is about to start. */
  lemma AddedGrows(s: State, m: State, r: State, pid: nat, n: nat, entering: nat)
    requires ProcsOk(s, MAX_PROCS) && ProcsOk(m, entering) && ProcsOk(r, MAX_PROCS) && Later(s, m) && Later(m, r)
    requires Grows(s, m, pid, 0) && Grows(m, r, pid, n)
    ensures Grows(s, r, pid, n)
  {
    hide ProcsOk, OnIs, Stacked, Later;
    LaterPids(s, m);
    LaterPids(m, r);
    if HasRecord(r, pid) {
      if pid < m.nextPid {
        HadRecord(m, r, pid, entering, MAX_PROCS);
      } else {
        NoRecordYet(m, pid, entering);
        NoRecordYet(s, pid, MAX_PROCS);
        NotOn(s, pid);
        NotOn(r, pid);
      }
    }
  }

  lemma {:induction false} CallGrows(s: State, c: Call, pid: nat, on: bool)
    requires ProcsOk(s, MAX_PROCS) && OnIs(s, pid, on)
    ensures Grows(s, DoCall(s, c), pid, TicksOnCall(s, c, pid, on, 1))
    decreases c
  {
    hide ProcsOk, RunSlot, Dispatch, DoRun, Grows, OnIs, Stacked, FindPid, FirstIn, TicksOnRun;
    GrowsNone(s, pid);
    match c
    case Advance(n) => AdvanceGrows(s, n, pid, on);
    case Run(path, stdioOk, image) => DoRunGrows(s, path, stdioOk, image, pid, on);
    case Wait(target, image) =>
      var slot := FindPid(s.procs, target);
      if slot < |s.procs| && s.procs[slot].phase == Pending && !s.dispatching { DispatchGrows(s, slot, image, pid, on); }
    case Yield(image) =>
      var slot := FirstIn(s.procs, Pending);
      if !s.dispatching && slot < |s.procs| { DispatchGrows(s, slot, image, pid, on); }
    case _ => QuietGrows(s, c, pid);
  }

  /** Over any calls, the reported runtime of every process that has a record in the end has grown
      by exactly the ticks during which it was on the stack, in runs that began after tick 0. It
      has not grown while it was pending, stopped or exited. */
  lemma {:induction false} CallsGrow(s: State, cs: Calls, pid: nat, on: bool)
    requires ProcsOk(s, MAX_PROCS) && OnIs(s, pid, on)
    ensures Grows(s, DoCalls(s, cs), pid, TicksOn(s, cs, pid, on, 1))
    decreases cs
  {
    hide ProcsOk, Later, DoCall, Grows, OnIs, Stacked, TicksOnCall;
    GrowsNone(s, pid);
    if cs.Then? {
      var m := DoCall(s, cs.call);
      CallGrows(s, cs.call, pid, on);
      DoCallOk(s, cs.call);
      OnAgain(s, m, pid, on, TicksOnCall(s, cs.call, pid, on, 1));
      CallsGrow(m, cs.rest, pid, on);
      DoCallsOk(m, cs.rest);
      LaterPids(s, m);
      GrowsTwice(s, m, DoCalls(m, cs.rest), pid, TicksOnCall(s, cs.call, pid, on, 1), TicksOn(m, cs.rest, pid, on, 1), MAX_PROCS);
    }
  }

  lemma OnAgain(s: State, m: State, pid: nat, on: bool, n: nat)
    requires OnIs(s, pid, on) && Grows(s, m, pid, n)
    ensures OnIs(m, pid, on)
  {
  }

  // ----- what this means -----

  /** Over any calls, the runtime that is reported for a process grows by exactly the ticks during
      which it was running, in runs that began after tick 0; it does not grow while the process is
      pending, stopped or exited. */
  lemma RuntimeCountsRunning(s: State, cs: Calls, pid: nat, on: bool)
    requires ProcsOk(s, MAX_PROCS) && OnIs(s, pid, on)
    ensures var r := DoCalls(s, cs); var i, j := FindPid(s.procs, pid), FindPid(r.procs, pid);
            j < |r.procs| ==>
              RuntimeOf(r.procs[j], r.now) == (if i < |s.procs| then RuntimeOf(s.procs[i], s.now) else 0) + TicksOn(s, cs, pid, on, 1)
  {
    hide ProcsOk, DoCalls, TicksOn, SameRun, RuntimeOf;
    CallsGrow(s, cs, pid, on);
  }

  /** The same from start-up on. */
  lemma RuntimeFromStart(cs: Calls, pid: nat)
    ensures var r := DoCalls(INITIAL, cs); var j := FindPid(r.procs, pid);
            j < |r.procs| ==> RuntimeOf(r.procs[j], r.now) == TicksOn(INITIAL, cs, pid, false, 1)
  {
    hide DoCalls, TicksOn, RuntimeOf, ProcsOk;
    InitialOk();
    NotOn(INITIAL, pid);
    RuntimeCountsRunning(INITIAL, cs, pid, false);
    assert FindPid(INITIAL.procs, pid) == |INITIAL.procs|;
  }

  /** Once the clock has started, no run is left out. */
  lemma {:induction false} NoneLost(s: State, cs: Calls, pid: nat, on: bool)
    requires s.now >= 1
    ensures TicksOn(s, cs, pid, on, 1) == TicksOn(s, cs, pid, on, 0)
    decreases cs
  {
    hide DoCall, TicksOnCall;
    if cs.Then? {
      NoneLostCall(s, cs.call, pid, on);
      NoneLost(DoCall(s, cs.call), cs.rest, pid, on);
    }
  }

  lemma {:induction false} NoneLostCall(s: State, c: Call, pid: nat, on: bool)
    requires s.now >= 1
    ensures TicksOnCall(s, c, pid, on, 1) == TicksOnCall(s, c, pid, on, 0)
    decreases c
  {
    hide TicksOnRun, AllocSlot, FindPid, FirstIn, StartsAtRoot;
    match c
    case Run(path, stdioOk, image) =>
      if AllocSlot(s.procs) < |s.procs| { NoneLostRun(Added(s, path), AllocSlot(s.procs), image, pid, on); }
    case Wait(p, image) =>
      if IsPending(s, FindPid(s.procs, p)) { NoneLostRun(Busy(s), FindPid(s.procs, p), image, pid, on); }
    case Yield(image) =>
      if IsPending(s, FirstIn(s.procs, Pending)) { NoneLostRun(Busy(s), FirstIn(s.procs, Pending), image, pid, on); }
    case _ =>
  }

  lemma {:induction false} NoneLostRun(s: State, slot: nat, image: Image, pid: nat, on: bool)
    requires slot < |s.procs| && s.now >= 1
    ensures TicksOnRun(s, slot, image, pid, on, 1) == TicksOnRun(s, slot, image, pid, on, 0)
    decreases image
  {
    hide TicksOn, StartsAtRoot;
    if image.Runs? { NoneLost(Started(s, slot), image.body, pid, if s.procs[slot].pid == pid then true else on); }
  }

  /** While a process is on the stack it is charged for all the time that passes, also in programs
      that it has started. */
  lemma {:induction false} AllTheTime(s: State, cs: Calls, pid: nat, on: bool)
    requires ProcsOk(s, MAX_PROCS) && Stacked(s, pid)
    ensures TicksOn(s, cs, pid, on, 1) == if on then DoCalls(s, cs).now - s.now else 0
    decreases cs
  {
    hide ProcsOk, Later, DoCall, TicksOnCall, Stacked;
    if cs.Then? {
      var m := DoCall(s, cs.call);
      AllOfCall(s, cs.call, pid, on);
      DoCallOk(s, cs.call);
      BalancedStack(s, m);
      AllTheTime(m, cs.rest, pid, on);
    }
  }

  lemma BalancedStack(s: State, r: State)
    requires Balanced(s, r)
    ensures forall pid :: Stacked(r, pid) <==> Stacked(s, pid)
  {
    assert forall k :: 0 <= k < |s.stack| - 1 ==> r.stack[k] == r.stack[..|s.stack|-1][k] == s.stack[k];
    StackedSame(s, r);
  }

  lemma {:induction false} AllOfCall(s: State, c: Call, pid: nat, on: bool)
    requires ProcsOk(s, MAX_PROCS) && Stacked(s, pid)
    ensures TicksOnCall(s, c, pid, on, 1) == if on then DoCall(s, c).now - s.now else 0
    decreases c
  {
    hide ProcsOk, Later, Stacked, TicksOnRun, RunSlot, AllocSlot, FindPid, FirstIn, StartsAtRoot, AddProc;
    match c
    case Run(path, stdioOk, image) =>
      var slot := AllocSlot(s.procs);
      if StartsAtRoot(path) && slot < |s.procs| && stdioOk {
        AddOk(s, path, Running);
        AddedStack(s, path);
        AllOfRun(Added(s, path), slot, image, pid, on, slot);
      }
    case Wait(target, image) =>
      var slot := FindPid(s.procs, target);
      if !s.dispatching && IsPending(s, slot) { AllOfDispatch(s, slot, image, pid, on); }
    case Yield(image) =>
      var slot := FirstIn(s.procs, Pending);
      if !s.dispatching && IsPending(s, slot) { AllOfDispatch(s, slot, image, pid, on); }
    case Advance(n) =>
    case _ => QuietClock(s, c);
  }

  lemma QuietClock(s: State, c: Call)
    requires !c.Advance? && !c.Run? && !c.Wait? && !c.Yield?
    ensures DoCall(s, c).now == s.now
  {
    hide AllocSlot, FindPid, FindLib, FreeLib, FindHandle, StartsAtRoot, SignalStatus, SignalOf, IsUserProgram, EndRun;
  }

  lemma AddedStack(s: State, path: string)
    requires AllocSlot(s.procs) < |s.procs|
    ensures Added(s, path).now == s.now && forall pid :: Stacked(Added(s, path), pid) <==> Stacked(s, pid)
  {
    hide AllocSlot;
    StackedSame(s, Added(s, path));
  }

  lemma {:induction false} AllOfDispatch(s: State, slot: nat, image: Image, pid: nat, on: bool)
    requires ProcsOk(s, MAX_PROCS) && Stacked(s, pid) && slot < |s.procs| && IsPending(s, slot)
    ensures TicksOnRun(Busy(s), slot, image, pid, on, 1) == if on then Dispatch(s, slot, image).now - s.now else 0
    decreases image, 1
  {
    hide ProcsOk, Later, Stacked, TicksOnRun, RunSlot;
    FlagsOk(s, s.running, true);
    PendingNotStacked(s, slot);
    StackedSame(s, Busy(s));
    AllOfRun(Busy(s), slot, image, pid, on, MAX_PROCS);
  }

  lemma {:induction false} AllOfRun(s: State, slot: nat, image: Image, pid: nat, on: bool, entering: nat)
    requires ProcsOk(s, entering) && slot < |s.procs| && s.procs[slot].used && slot !in s.slots
    requires if s.procs[slot].phase == Pending then entering == MAX_PROCS else entering == slot
    requires Stacked(s, pid)
    ensures TicksOnRun(s, slot, image, pid, on, 1) == if on then RunSlot(s, slot, image).0.now - s.now else 0
    decreases image, 0
  {
    hide ProcsOk, Later, Stacked, RunSlot, TicksOn, StartsAtRoot, DoCalls, Started, SetProc, FailRun, Finish, EndRun, Push;
    FoundAt(s, slot, entering);
    if !StartsAtRoot(s.procs[slot].path) || |s.stack| >= MAX_DEPTH {
      RunSlotRejects(s, slot, image);
    } else if !image.Runs? {
      RunSlotFails(s, slot, image);
    } else {
      BodyFacts(s, slot, image.body, entering);
      PushedStack(s, slot);
      StartedIs(s, slot);
      AllTheTime(Started(s, slot), image.body, pid, on);
      RunSlotRuns(s, slot, image);
    }
  }

  /** A whole run of a program adds the time that it has taken, but nothing if the clock stood at
      0 when it began. */
  lemma RunIsCounted(s: State, slot: nat, body: Calls, ret: nat)
    requires ProcsOk(s, MAX_PROCS) && slot < |s.procs| && s.procs[slot].used && s.procs[slot].phase == Pending
    requires StartsAtRoot(s.procs[slot].path) && |s.stack| < MAX_DEPTH
    ensures var r, pid := RunSlot(s, slot, Runs(body, ret)).0, s.procs[slot].pid;
            && HasRecord(r, pid) && r.now >= s.now
            && Reported(r, pid) == Reported(s, pid) + if s.now == 0 then 0 else r.now - s.now
  {
    hide ProcsOk, Later, RunSlot, TicksOn, StartsAtRoot, DoCalls, Started, Stacked, SameRun;
    var pid, started := s.procs[slot].pid, Started(s, slot);
    PendingNotStacked(s, slot);
    FoundAt(s, slot, MAX_PROCS);
    NotOn(s, pid);
    RunSlotGrows(s, slot, Runs(body, ret), pid, false, MAX_PROCS);
    RunSlotOk(s, slot, Runs(body, ret), MAX_PROCS);
    BodyFacts(s, slot, body, MAX_PROCS);
    PushedStack(s, slot);
    AllTheTime(started, body, pid, s.now >= 1);
    StartedIs(s, slot);
    RunSlotRuns(s, slot, Runs(body, ret));
    OverRecord(s, RunSlot(s, slot, Runs(body, ret)).0, slot);
  }

  lemma OverRecord(s: State, r: State, slot: nat)
    requires Over(s, r, slot)
    ensures HasRecord(r, s.procs[slot].pid)
  {
  }

  /** So the runtime of a run is exact if and only if the clock did not stand at 0 when it began,
      or no time has passed. */
  lemma RunExact(s: State, slot: nat, body: Calls, ret: nat)
    requires ProcsOk(s, MAX_PROCS) && slot < |s.procs| && s.procs[slot].used && s.procs[slot].phase == Pending
    requires StartsAtRoot(s.procs[slot].path) && |s.stack| < MAX_DEPTH
    ensures var r, pid := RunSlot(s, slot, Runs(body, ret)).0, s.procs[slot].pid;
            Reported(r, pid) == Reported(s, pid) + (r.now - s.now) <==> s.now > 0 || r.now == s.now
  {
    hide ProcsOk, RunSlot, StartsAtRoot, Reported;
    RunIsCounted(s, slot, body, ret);
  }

  /** A program that is run at tick 0 and takes five ticks is reported to have taken none. */
  lemma LostAtZero()
    ensures var cs := Then(Spawn("/shell/a.elf"), Then(Yield(Runs(Then(Advance(5), Done), 0)), Done));
            var r := DoCalls(INITIAL, cs);
            r.now == 5 && HasRecord(r, 1) && Reported(r, 1) == 0
  {
    hide RunSlot, ProcsOk, Later;
    var s, body := DoSpawn(INITIAL, "/shell/a.elf"), Then(Advance(5), Done);
    SpawnedFirst();
    InitialOk();
    assert s == DoCall(INITIAL, Spawn("/shell/a.elf"));
    DoCallOk(INITIAL, Spawn("/shell/a.elf"));
    FlagsOk(s, s.running, true);
    RunIsCounted(Busy(s), 0, body, 0);
    FiveTicks(Busy(s));
    var r := RunSlot(Busy(s), 0, Runs(body, 0)).0.(dispatching := false);
    assert DoCall(s, Yield(Runs(body, 0))) == r;
    assert DoCalls(r, Done) == r;
  }

  lemma SpawnedFirst()
    ensures var s := DoSpawn(INITIAL, "/shell/a.elf");
            && s.now == 0 && s.stack == [] && !s.dispatching && |s.procs| == MAX_PROCS && FirstIn(s.procs, Pending) == 0
            && s.procs[0] == NewProc(1, 0, "/shell/a.elf", Pending) && Reported(s, 1) == 0
  {
  }

  lemma FiveTicks(s: State)
    requires |s.procs| > 0 && s.procs[0].used && StartsAtRoot(s.procs[0].path) && |s.stack| < MAX_DEPTH
    ensures RunSlot(s, 0, Runs(Then(Advance(5), Done), 0)).0.now == s.now + 5
  {
    hide RunSlot, Finish, Push, StartsAtRoot;
    RunSlotRuns(s, 0, Runs(Then(Advance(5), Done), 0));
    var started := Push(s, 0).(running := s.running + 1);
    assert DoCalls(DoCall(started, Advance(5)), Done) == DoCall(started, Advance(5));
  }
}
