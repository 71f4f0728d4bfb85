/** What every run of the process executor keeps. */
module ExecSafety {
  import opened Machine
  import opened ExecState

  // ----- history of phases -----

  predicate Legal(from: Phase, to: Phase) {
    match from
    case Unused => to == Pending || to == Running
    case Pending => to == Running || to == Stopped || to == Exited
    case Running => to == Stopped || to == Exited
    case Stopped => to == Pending || to == Exited
    case Exited => false
  }

  /** The phase that the history gives process `pid`; Unused when it has none. */
  function LastPhase(log: seq<Move>, pid: nat): Phase {
    if log == [] then Unused
    else if log[|log|-1].pid == pid then log[|log|-1].to
    else LastPhase(log[..|log|-1], pid)
  }

  /** Every process moves from the phase it is in, and only where the phases allow. */
  ghost predicate LogOk(log: seq<Move>, nextPid: nat) {
    forall k :: 0 <= k < |log| ==>
      && log[k].pid < nextPid && Legal(log[k].from, log[k].to)
      && log[k].from == LastPhase(log[..k], log[k].pid)
  }

  lemma LogGrows(log: seq<Move>, nextPid: nat, m: Move, nextPid2: nat)
    requires LogOk(log, nextPid) && m.pid < nextPid2 && nextPid <= nextPid2
    requires Legal(m.from, m.to) && m.from == LastPhase(log, m.pid)
    ensures LogOk(log + [m], nextPid2)
  {
    var r := log + [m];
    forall k | 0 <= k < |r|
      ensures r[k].pid < nextPid2 && Legal(r[k].from, r[k].to) && r[k].from == LastPhase(r[..k], r[k].pid)
    {
      assert r[..k] == log[..k];
      assert log[..|log|] == log;
    }
  }

  lemma {:induction false} NoPhaseYet(log: seq<Move>, nextPid: nat, pid: nat)
    requires LogOk(log, nextPid) && pid >= nextPid
    ensures LastPhase(log, pid) == Unused
  {
    if log != [] {
      var front := log[..|log|-1];
      assert forall k :: 0 <= k < |front| ==> front[k] == log[k] && front[..k] == log[..k];
      NoPhaseYet(front, nextPid, pid);
    }
  }

  // ----- the clock -----

  /** A process has been running no longer than since it was first started. */
  predicate TimeOk(p: Proc, now: nat) {
    && p.started <= now && p.runStarted <= now
    && (p.phase != Running ==> p.runStarted == 0)
    && (p.started == 0 ==> p.runtime == 0 && p.runStarted == 0)
    && (p.started != 0 ==> RuntimeOf(p, now) <= now - p.started)
  }

  // ----- the invariant -----

  ghost predicate ShapeOk(s: State) {
    && |s.procs| == MAX_PROCS && |s.stack| == |s.slots| <= MAX_DEPTH && s.nextPid >= 1
  }

  /** `entering` is the slot of a record that is marked as running but not on the stack yet, or the
      table size. */
  ghost predicate ProcOk(s: State, i: nat, entering: nat)
    requires i < |s.procs|
  {
    var p := s.procs[i];
    if p.used then
      && 1 <= p.pid < s.nextPid && p.phase != Unused && LastPhase(s.log, p.pid) == p.phase
      && TimeOk(p, s.now) && (p.phase == Running <==> i in s.slots || i == entering)
      && (i == entering ==> p.runStarted == 0)
    else p == BLANK && i !in s.slots && i != entering
  }

  ghost predicate PidsDistinct(ps: seq<Proc>) {
    forall i, j :: 0 <= i < j < |ps| && ps[i].used && ps[j].used ==> ps[i].pid != ps[j].pid
  }

  /** Each frame belongs to a record of its own. */
  ghost predicate StackOk(s: State) {
    && |s.stack| == |s.slots|
    && (forall k :: 0 <= k < |s.slots| ==>
          s.slots[k] < |s.procs| && s.procs[s.slots[k]].used && s.procs[s.slots[k]].pid == s.stack[k].pid)
    && (forall j, k :: 0 <= j < k < |s.slots| ==> s.slots[j] != s.slots[k])
  }

  ghost predicate ProcsOk(s: State, entering: nat) {
    && ShapeOk(s) && LogOk(s.log, s.nextPid)
    && (forall i :: 0 <= i < |s.procs| ==> ProcOk(s, i, entering))
    && PidsDistinct(s.procs) && StackOk(s) && entering !in s.slots
  }

  // ----- what time does to a slot -----

  /** As long as a slot belongs to one process: an exited record is frozen, the first start
      stays, and the reported runtime does not go down. */
  ghost predicate LaterProc(p: Proc, q: Proc, nextPid: nat, t: nat, t2: nat) {
    q.used && q.pid < nextPid ==>
      && p.used && p.pid == q.pid
      && (p.phase == Exited ==> q == p)
      && (p.started != 0 ==> q.started == p.started)
      && RuntimeOf(p, t) <= RuntimeOf(q, t2)
  }

  ghost predicate Later(s: State, r: State) {
    && |r.procs| == |s.procs| && s.nextPid <= r.nextPid && s.now <= r.now
    && forall i :: 0 <= i < |s.procs| ==> LaterProc(s.procs[i], r.procs[i], s.nextPid, s.now, r.now)
  }

  lemma LaterTwice(s: State, m: State, r: State)
    requires Later(s, m) && Later(m, r)
    ensures Later(s, r)
  {
  }

  // ----- single steps -----

  /** Membership of the slot stack differs from `s` to `r` at most for `slot`. */
  ghost predicate SameSlotsBut(s: State, r: State, slot: nat) {
    forall i :: i != slot ==> (i in r.slots <==> i in s.slots)
  }

  /** One record changes its phase, while its frame may come or go. */
  lemma ProcsChange(s: State, entering: nat, slot: nat, p: Proc, r: State)
    requires ProcsOk(s, entering) && slot < |s.procs| && s.procs[slot].used && (entering == slot || entering == MAX_PROCS)
    requires p.used && p.pid == s.procs[slot].pid && TimeOk(p, s.now) && p.phase != Unused
    requires p.phase == s.procs[slot].phase || Legal(s.procs[slot].phase, p.phase)
    requires r.procs == s.procs[slot := p] && r.log == SetProc(s, slot, p).log
    requires r.nextPid == s.nextPid && r.now == s.now
    requires |r.slots| == |r.stack| <= MAX_DEPTH && StackOk(r) && SameSlotsBut(s, r, slot) && MAX_PROCS !in r.slots
    requires p.phase == Running <==> slot in r.slots
    ensures ProcsOk(r, MAX_PROCS)
  {
    hide TimeOk, LogOk;
    var before := s.procs[slot];
    assert ProcOk(s, slot, entering);
    if p.phase != before.phase {
      LogGrows(s.log, s.nextPid, Move(p.pid, before.phase, p.phase), s.nextPid);
    }
    forall i | 0 <= i < |r.procs|
      ensures ProcOk(r, i, MAX_PROCS)
    {
      assert ProcOk(s, i, entering);
    }
  }

  lemma PauseTime(p: Proc, now: nat, status: nat)
    requires TimeOk(p, now) && p.used
    ensures TimeOk(EndRun(p, now, status), now) && RuntimeOf(p, now) <= RuntimeOf(EndRun(p, now, status), now)
    ensures TimeOk(StopRun(p, now, status), now) && RuntimeOf(p, now) <= RuntimeOf(StopRun(p, now, status), now)
  {
  }

  lemma PushOk(s: State, slot: nat, entering: nat)
    requires ProcsOk(s, entering) && slot < |s.procs| && s.procs[slot].used && slot !in s.slots && |s.stack| < MAX_DEPTH
    requires if s.procs[slot].phase == Pending then entering == MAX_PROCS else entering == slot
    ensures ProcsOk(Push(s, slot), MAX_PROCS) && Later(s, Push(s, slot))
    ensures Push(s, slot).procs[slot].pid == s.procs[slot].pid
  {
    hide LogOk, TimeOk;
    var r, p := Push(s, slot), StartRun(s.procs[slot], s.now);
    assert ProcOk(s, slot, entering);
    StartFacts(s.procs[slot], s.now);
    assert StackOk(r);
    ProcsChange(s, entering, slot, p, r);
  }

  lemma StartFacts(p: Proc, now: nat)
    requires TimeOk(p, now) && p.used && (p.phase == Pending || (p.phase == Running && p.runStarted == 0))
    ensures TimeOk(StartRun(p, now), now) && forall n :: LaterProc(p, StartRun(p, now), n, now, now)
  {
  }

  /** The innermost process ends or stops, and its frame goes. */
  lemma LeaveOk(s: State, slot: nat, p: Proc, r: State)
    requires ProcsOk(s, MAX_PROCS) && s.slots != [] && slot == s.slots[|s.slots|-1]
    requires (exists status :: p == EndRun(s.procs[slot], s.now, status) || p == StopRun(s.procs[slot], s.now, status))
    requires r.procs == s.procs[slot := p] && r.log == SetProc(s, slot, p).log && r.nextPid == s.nextPid && r.now == s.now
    requires r.stack == s.stack[..|s.stack|-1] && r.slots == s.slots[..|s.slots|-1]
    ensures ProcsOk(r, MAX_PROCS) && Later(s, r)
  {
    hide LogOk, TimeOk;
    var n := |s.slots| - 1;
    assert ProcOk(s, slot, MAX_PROCS);
    var status :| p == EndRun(s.procs[slot], s.now, status) || p == StopRun(s.procs[slot], s.now, status);
    PauseTime(s.procs[slot], s.now, status);
    assert slot !in r.slots;
    assert s.slots == r.slots + [slot];
    ProcsChange(s, MAX_PROCS, slot, p, r);
  }

  /** The run of the process in `slot` is over; the record is still its own. */
  ghost predicate Over(s: State, r: State, slot: nat) {
    && slot < |s.procs| && slot < |r.procs|
    && r.procs[slot].used && r.procs[slot].pid == s.procs[slot].pid
    && (r.procs[slot].phase == Exited || r.procs[slot].phase == Stopped)
  }

  lemma ReleaseOnlyLibs(s: State, owner: nat)
    ensures Release(s, owner) == s.(libs := Release(s, owner).libs, freed := Release(s, owner).freed)
  {
  }

  lemma FinishOk(s: State, slot: nat, ret: nat)
    requires ProcsOk(s, MAX_PROCS) && s.slots != [] && slot == s.slots[|s.slots|-1]
    ensures ProcsOk(Finish(s, slot, ret), MAX_PROCS) && Later(s, Finish(s, slot, ret)) && Over(s, Finish(s, slot, ret), slot)
  {
    hide ProcsOk, Later, Release, EndRun, StopRun;
    InTable(s);
    var p, status := s.procs[slot], RunStatus(Top(s), ret);
    var q := if Top(s).stopAsked then StopRun(p, s.now, status) else EndRun(p, s.now, status);
    ReleaseOnlyLibs(SetProc(s, slot, q), p.pid);
    LeaveOk(s, slot, q, Finish(s, slot, ret));
  }

  lemma InTable(s: State)
    requires ProcsOk(s, MAX_PROCS)
    ensures |s.stack| == |s.slots|
    ensures forall k :: 0 <= k < |s.slots| ==>
              s.slots[k] < |s.procs| && s.procs[s.slots[k]].used && s.procs[s.slots[k]].pid == s.stack[k].pid
  {
  }

  lemma FailOk(s: State, slot: nat)
    requires ProcsOk(s, MAX_PROCS) && s.slots != [] && slot == s.slots[|s.slots|-1]
    ensures ProcsOk(FailRun(s, slot), MAX_PROCS) && Later(s, FailRun(s, slot)) && Over(s, FailRun(s, slot), slot)
  {
    hide ProcsOk, Later, Release, EndRun, StopRun;
    InTable(s);
    var q := EndRun(s.procs[slot], s.now, FAILED);
    ReleaseOnlyLibs(SetProc(s, slot, q), s.procs[slot].pid);
    LeaveOk(s, slot, q, FailRun(s, slot));
  }

  /** A record that never gets onto the stack is marked as failed. */
  lemma RejectOk(s: State, slot: nat, entering: nat)
    requires ProcsOk(s, entering) && slot < |s.procs| && s.procs[slot].used && slot !in s.slots
    requires if s.procs[slot].phase == Pending then entering == MAX_PROCS else entering == slot
    ensures var r := SetProc(s, slot, EndRun(s.procs[slot], s.now, FAILED)); ProcsOk(r, MAX_PROCS) && Later(s, r) && Over(s, r, slot)
  {
    hide LogOk, TimeOk;
    var p := EndRun(s.procs[slot], s.now, FAILED);
    var r := SetProc(s, slot, p);
    assert ProcOk(s, slot, entering);
    PauseTime(s.procs[slot], s.now, FAILED);
    assert StackOk(r);
    ProcsChange(s, entering, slot, p, r);
  }

  /** A signal changes a record that stays where it is. */
  lemma SignalOk(s: State, slot: nat, p: Proc, r: State)
    requires ProcsOk(s, MAX_PROCS) && slot < |s.procs| && s.procs[slot].used && s.procs[slot].phase != Exited
    requires p.used && p.pid == s.procs[slot].pid && p.phase != Unused && (p.phase == Running <==> s.procs[slot].phase == Running)
    requires p.phase == s.procs[slot].phase || Legal(s.procs[slot].phase, p.phase)
    requires TimeOk(p, s.now) && RuntimeOf(s.procs[slot], s.now) <= RuntimeOf(p, s.now)
    requires p.started == s.procs[slot].started
    requires r == SetProc(s, slot, p).(stack := r.stack) && |r.stack| == |s.stack|
    requires forall k :: 0 <= k < |s.stack| ==> r.stack[k].pid == s.stack[k].pid
    ensures ProcsOk(r, MAX_PROCS) && Later(s, r)
  {
    hide LogOk, TimeOk;
    assert ProcOk(s, slot, MAX_PROCS);
    assert StackOk(r);
    ProcsChange(s, MAX_PROCS, slot, p, r);
  }

  /** A slot is given away: nothing in it is stacked. */
  lemma ReuseOk(s: State, slot: nat, r: State)
    requires ProcsOk(s, MAX_PROCS) && slot < |s.procs| && (!s.procs[slot].used || s.procs[slot].phase == Exited)
    requires |r.procs| == |s.procs|
    requires r == s.(procs := s.procs[slot := r.procs[slot]], nextPid := s.nextPid + 1, log := r.log)
    requires LogOk(r.log, r.nextPid) && forall pid: nat :: pid < s.nextPid ==> LastPhase(r.log, pid) == LastPhase(s.log, pid)
    requires r.procs[slot] == BLANK || (r.procs[slot].used && r.procs[slot].pid == s.nextPid)
    requires r.procs[slot].used ==> ProcOk(r, slot, if r.procs[slot].phase == Running then slot else MAX_PROCS)
    ensures slot !in s.slots && Later(s, r)
    ensures ProcsOk(r, if r.procs[slot].phase == Running then slot else MAX_PROCS)
  {
    hide LogOk, TimeOk;
    assert ProcOk(s, slot, MAX_PROCS);
    assert slot !in s.slots;
    var entering := if r.procs[slot].phase == Running then slot else MAX_PROCS;
    forall i | 0 <= i < |r.procs|
      ensures ProcOk(r, i, entering)
    {
      assert ProcOk(s, i, MAX_PROCS);
    }
    forall i | 0 <= i < |s.procs|
      ensures LaterProc(s.procs[i], r.procs[i], s.nextPid, s.now, r.now)
    {
      assert ProcOk(s, i, MAX_PROCS);
    }
    assert PidsDistinct(r.procs) by {
      forall i, j | 0 <= i < j < |r.procs| && r.procs[i].used && r.procs[j].used
        ensures r.procs[i].pid != r.procs[j].pid
      {
        assert ProcOk(s, i, MAX_PROCS) && ProcOk(s, j, MAX_PROCS);
      }
    }
  }

  lemma AddOk(s: State, path: string, phase: Phase)
    requires ProcsOk(s, MAX_PROCS) && AllocSlot(s.procs) < |s.procs| && (phase == Pending || phase == Running)
    ensures var slot := AllocSlot(s.procs); var r := AddProc(s, slot, path, phase);
            && slot < |r.procs| && slot !in r.slots && r.procs[slot].used && r.procs[slot].phase == phase
            && ProcsOk(r, if phase == Running then slot else MAX_PROCS) && Later(s, r)
  {
    hide LogOk, ProcsOk, Later, AllocSlot;
    var slot := AllocSlot(s.procs);
    var r := AddProc(s, slot, path, phase);
    LogFacts(s);
    NoPhaseYet(s.log, s.nextPid, s.nextPid);
    LogGrows(s.log, s.nextPid, Move(s.nextPid, Unused, phase), r.nextPid);
    forall pid
      ensures LastPhase(r.log, pid) == if pid == s.nextPid then phase else LastPhase(s.log, pid)
    {
    }
    NotStacked(s, slot);
    ReuseOk(s, slot, r);
  }

  lemma LogFacts(s: State)
    requires ProcsOk(s, MAX_PROCS)
    ensures LogOk(s.log, s.nextPid) && s.nextPid >= 1 && |s.procs| == MAX_PROCS
  {
  }

  lemma NotStacked(s: State, slot: nat)
    requires ProcsOk(s, MAX_PROCS) && slot < |s.procs| && (!s.procs[slot].used || s.procs[slot].phase == Exited)
    ensures slot !in s.slots
  {
    assert ProcOk(s, slot, MAX_PROCS);
  }

  lemma WithdrawOk(s: State)
    requires ProcsOk(s, MAX_PROCS) && AllocSlot(s.procs) < |s.procs|
    ensures var r := s.(procs := s.procs[AllocSlot(s.procs) := BLANK], nextPid := s.nextPid + 1);
            ProcsOk(r, MAX_PROCS) && Later(s, r)
  {
    hide ProcsOk, Later, AllocSlot;
    LogFacts(s);
    ReuseOk(s, AllocSlot(s.procs), s.(procs := s.procs[AllocSlot(s.procs) := BLANK], nextPid := s.nextPid + 1));
  }

  lemma AdvanceOk(s: State, n: nat)
    requires ProcsOk(s, MAX_PROCS)
    ensures ProcsOk(s.(now := s.now + n), MAX_PROCS) && Later(s, s.(now := s.now + n))
  {
    hide LogOk;
    var r := s.(now := s.now + n);
    forall i | 0 <= i < |r.procs|
      ensures ProcOk(r, i, MAX_PROCS) && LaterProc(s.procs[i], r.procs[i], s.nextPid, s.now, r.now)
    {
      assert ProcOk(s, i, MAX_PROCS);
    }
  }

  lemma LaterSame(s: State, r: State)
    requires r == s.(stack := r.stack, running := r.running, dispatching := r.dispatching, libs := r.libs,
                     nextHandle := r.nextHandle, images := r.images, freed := r.freed)
    ensures Later(s, r)
    ensures forall e :: ProcsOk(s, e) && |r.stack| == |s.stack| && (forall k :: 0 <= k < |s.stack| ==> r.stack[k].pid == s.stack[k].pid)
              ==> ProcsOk(r, e)
  {
    hide LogOk, TimeOk;
    forall e | ProcsOk(s, e) && |r.stack| == |s.stack| && (forall k :: 0 <= k < |s.stack| ==> r.stack[k].pid == s.stack[k].pid)
      ensures ProcsOk(r, e)
    {
      forall i | 0 <= i < |r.procs|
        ensures ProcOk(r, i, e)
      {
        assert ProcOk(s, i, e);
      }
    }
  }

  lemma KillOk(s: State, pid: nat, signal: nat)
    requires ProcsOk(s, MAX_PROCS)
    ensures ProcsOk(DoKill(s, pid, signal).0, MAX_PROCS) && Later(s, DoKill(s, pid, signal).0)
  {
    hide ProcsOk, Later, TimeOk, SignalStatus, LogOk;
    LaterSame(s, s);
    var slot, sig, r := FindPid(s.procs, pid), EffectiveSignal(signal), DoKill(s, pid, signal).0;
    if pid != 0 && slot < |s.procs| && s.procs[slot].phase != Exited {
      var p := s.procs[slot];
      var told := p.(lastSignal := sig);
      KnownPhase(s, slot);
      ToldTime(p, sig, s.now);
      if (sig != CONT && sig != STOP) && (p.phase == Pending || p.phase == Stopped) {
        PauseTime(told, s.now, SignalStatus(sig, 0, 0));
      }
      SignalOk(s, slot, r.procs[slot], r);
    }
  }

  lemma KnownPhase(s: State, slot: nat)
    requires ProcsOk(s, MAX_PROCS) && slot < |s.procs| && s.procs[slot].used
    ensures s.procs[slot].phase != Unused && TimeOk(s.procs[slot], s.now)
  {
    assert ProcOk(s, slot, MAX_PROCS);
  }

  lemma ToldTime(p: Proc, sig: nat, now: nat)
    requires TimeOk(p, now)
    ensures TimeOk(p.(lastSignal := sig), now) && RuntimeOf(p.(lastSignal := sig), now) == RuntimeOf(p, now)
    ensures p.phase == Pending || p.phase == Stopped ==>
              forall f :: f == Pending || f == Stopped ==>
                TimeOk(p.(lastSignal := sig, phase := f), now) && RuntimeOf(p.(lastSignal := sig, phase := f), now) == RuntimeOf(p, now)
  {
  }

  lemma FaultOk(s: State, vector: nat, error: nat)
    requires ProcsOk(s, MAX_PROCS)
    ensures ProcsOk(DoFault(s, vector, error), MAX_PROCS) && Later(s, DoFault(s, vector, error))
  {
    hide ProcsOk, Later, TimeOk, SignalStatus, LogOk, SignalOf, IsUserProgram;
    LaterSame(s, s);
    var slot, r := FindPid(s.procs, CurrentPid(s)), DoFault(s, vector, error);
    if s.stack != [] && slot < |s.procs| && r != s {
      KnownPhase(s, slot);
      ToldTime(s.procs[slot], SignalOf(vector), s.now);
      TopRunning(s);
      SignalOk(s, slot, r.procs[slot], r);
    }
  }

  /** The record of the innermost process is found, and is marked as running. */
  lemma TopRunning(s: State)
    requires ProcsOk(s, MAX_PROCS) && s.stack != []
    ensures FindPid(s.procs, Top(s).pid) == s.slots[|s.slots|-1] < |s.procs|
    ensures s.procs[s.slots[|s.slots|-1]].phase == Running
  {
    hide LogOk, TimeOk;
    var slot := s.slots[|s.slots|-1];
    assert ProcOk(s, slot, MAX_PROCS);
    assert s.procs[slot].pid == Top(s).pid;
    FindPidIs(s.procs, Top(s).pid, slot);
  }

  // ----- whole runs -----

  /** The dispatcher flag and the depth counter are not part of the invariant. */
  lemma FlagsOk(s: State, running: nat, dispatching: bool)
    ensures var r := s.(running := running, dispatching := dispatching);
            Later(s, r) && Later(r, s) && (forall e: nat :: ProcsOk(r, e) <==> ProcsOk(s, e))
  {
    hide ProcsOk;
    var r := s.(running := running, dispatching := dispatching);
    LaterSame(s, r);
    LaterSame(r, s);
  }

  lemma {:induction false} RunSlotOk(s: State, slot: nat, image: Image, entering: nat)
    requires ProcsOk(s, entering) && slot < |s.procs| && s.procs[slot].used && slot !in s.slots
    requires if s.procs[slot].phase == Pending then entering == MAX_PROCS else entering == slot
    ensures ProcsOk(RunSlot(s, slot, image).0, MAX_PROCS) && Later(s, RunSlot(s, slot, image).0)
    ensures Over(s, RunSlot(s, slot, image).0, slot)
    decreases image, 0
  {
    hide ProcsOk, Later, Finish, FailRun, DoCalls, StartsAtRoot, EndRun, StartRun, Push, RunSlot, SetProc;
    if !StartsAtRoot(s.procs[slot].path) || |s.stack| >= MAX_DEPTH {
      RejectOk(s, slot, entering);
      RunSlotRejects(s, slot, image);
      return;
    }
    var entered := Push(s, slot);
    PushOk(s, slot, entering);
    if !image.Runs? {
      FailOk(entered, slot);
      RunSlotFails(s, slot, image);
    } else {
      var started := entered.(running := s.running + 1);
      FlagsOk(entered, s.running + 1, s.dispatching);
      DoCallsOk(started, image.body);
      RunSlotRuns(s, slot, image);
      LeaveRunOk(entered, DoCalls(started, image.body), slot, image.ret);
    }
    LaterTwice(s, entered, RunSlot(s, slot, image).0);
  }

  /** The way out of a run whose body led from `entered`, with the depth counted, to `left`. */
  lemma LeaveRunOk(entered: State, left: State, slot: nat, ret: nat)
    requires ProcsOk(entered, MAX_PROCS) && entered.slots != [] && slot == entered.slots[|entered.slots|-1]
    requires ProcsOk(left, MAX_PROCS) && left.running > 0
    requires var started := entered.(running := entered.running + 1); Balanced(started, left) && Later(started, left)
    requires slot < |left.procs| && left.stack != [] && left.slots != []
    ensures var r := Finish(left.(running := left.running - 1), slot, ret);
            ProcsOk(r, MAX_PROCS) && Later(entered, r) && Over(entered, r, slot)
  {
    hide ProcsOk, Later, Finish;
    var started := entered.(running := entered.running + 1);
    var ended := left.(running := left.running - 1);
    InTable(entered);
    InTable(left);
    FlagsOk(entered, started.running, entered.dispatching);
    FlagsOk(left, ended.running, left.dispatching);
    FinishOk(ended, slot, ret);
    LaterTwice(entered, started, left);
    LaterTwice(entered, left, ended);
    LaterTwice(entered, ended, Finish(ended, slot, ret));
  }

  lemma {:induction false} DispatchOk(s: State, slot: nat, image: Image)
    requires ProcsOk(s, MAX_PROCS) && slot < |s.procs| && s.procs[slot].used && s.procs[slot].phase == Pending
    ensures ProcsOk(Dispatch(s, slot, image), MAX_PROCS) && Later(s, Dispatch(s, slot, image))
    ensures Over(s, Dispatch(s, slot, image), slot)
    decreases image, 1
  {
    hide ProcsOk, Later, RunSlot;
    var inside := s.(dispatching := true);
    FlagsOk(s, s.running, true);
    PendingNotStacked(s, slot);
    RunSlotOk(inside, slot, image, MAX_PROCS);
    var r := RunSlot(inside, slot, image).0;
    FlagsOk(r, r.running, s.dispatching);
    LaterTwice(s, inside, r);
    LaterTwice(s, r, r.(dispatching := s.dispatching));
  }

  lemma PendingNotStacked(s: State, slot: nat)
    requires ProcsOk(s, MAX_PROCS) && slot < |s.procs| && s.procs[slot].used && s.procs[slot].phase == Pending
    ensures slot !in s.slots
  {
    assert ProcOk(s, slot, MAX_PROCS);
  }

  lemma {:induction false} DoRunOk(s: State, path: string, stdioOk: bool, image: Image)
    requires ProcsOk(s, MAX_PROCS)
    ensures ProcsOk(DoRun(s, path, stdioOk, image).0, MAX_PROCS) && Later(s, DoRun(s, path, stdioOk, image).0)
    decreases image, 2
  {
    hide ProcsOk, Later, RunSlot, AddProc, AllocSlot, StartsAtRoot;
    LaterSame(s, s);
    var slot := AllocSlot(s.procs);
    if StartsAtRoot(path) && slot < |s.procs| {
      if stdioOk {
        AddOk(s, path, Running);
        RunSlotOk(AddProc(s, slot, path, Running), slot, image, slot);
        LaterTwice(s, AddProc(s, slot, path, Running), DoRun(s, path, stdioOk, image).0);
      } else {
        WithdrawOk(s);
      }
    }
  }

  lemma {:induction false} DoWaitOk(s: State, pid: nat, image: Image)
    requires ProcsOk(s, MAX_PROCS)
    ensures ProcsOk(DoWait(s, pid, image).0, MAX_PROCS) && Later(s, DoWait(s, pid, image).0)
    ensures var (t, code, status) := DoWait(s, pid, image);
            code == 1 ==> exists i :: Reported(t, i, pid, status)
    decreases image, 2
  {
    hide ProcsOk, Later, Dispatch;
    LaterSame(s, s);
    var slot := FindPid(s.procs, pid);
    if slot < |s.procs| && s.procs[slot].phase == Pending && !s.dispatching { DispatchOk(s, slot, image); }
    var (t, code, status) := DoWait(s, pid, image);
    if code == 1 { assert Reported(t, slot, pid, status); }
  }

  /** Slot `i` holds the exited process `pid` with this status. */
  ghost predicate Reported(t: State, i: nat, pid: nat, status: nat) {
    i < |t.procs| && t.procs[i].used && t.procs[i].pid == pid && t.procs[i].phase == Exited && t.procs[i].status == status
  }

  lemma {:induction false} DoYieldOk(s: State, image: Image)
    requires ProcsOk(s, MAX_PROCS)
    ensures ProcsOk(DoYield(s, image), MAX_PROCS) && Later(s, DoYield(s, image))
    decreases image, 2
  {
    hide ProcsOk, Later, Dispatch;
    LaterSame(s, s);
    var slot := FirstIn(s.procs, Pending);
    if !s.dispatching && slot < |s.procs| { DispatchOk(s, slot, image); }
  }

  lemma {:induction false} DoCallOk(s: State, c: Call)
    requires ProcsOk(s, MAX_PROCS)
    ensures ProcsOk(DoCall(s, c), MAX_PROCS) && Later(s, DoCall(s, c))
    decreases c
  {
    hide ProcsOk, Later, DoRun, DoWait, DoYield, AddProc, DoKill, DoFault, AllocSlot;
    LaterSame(s, s);
    if c.Exit? || c.DlOpen? || c.DlClose? { LaterSame(s, DoCall(s, c)); }
    match c
    case Advance(n) => AdvanceOk(s, n);
    case Run(path, stdioOk, image) => DoRunOk(s, path, stdioOk, image);
    case Spawn(path) =>
      if DoSpawn(s, path) != s { AddOk(s, path, Pending); }
    case Wait(pid, image) => DoWaitOk(s, pid, image);
    case Yield(image) => DoYieldOk(s, image);
    case Kill(pid, signal) => KillOk(s, pid, signal);
    case Exit(status) =>
    case Fault(vector, error) => FaultOk(s, vector, error);
    case DlOpen(path, loads) =>
    case DlClose(handle) =>
  }

  lemma {:induction false} DoCallsOk(s: State, cs: Calls)
    requires ProcsOk(s, MAX_PROCS)
    ensures ProcsOk(DoCalls(s, cs), MAX_PROCS) && Later(s, DoCalls(s, cs))
    decreases cs
  {
    hide ProcsOk, Later, DoCall;
    match cs
    case Done => LaterSame(s, s);
    case Then(c, rest) =>
      DoCallOk(s, c);
      DoCallsOk(DoCall(s, c), rest);
      LaterTwice(s, DoCall(s, c), DoCalls(s, cs));
  }

  // ----- what the invariant says -----

  /** The state after clks_exec_init. */
  const INITIAL: State :=
    State(seq(MAX_PROCS, _ => BLANK), [], 0, false, 1, 0, seq(MAX_LIBS, _ => NO_LIB), 1, [], [], 0, [])

  ghost predicate Stacked(s: State, pid: nat) {
    exists k :: 0 <= k < |s.stack| && s.stack[k].pid == pid
  }

  /** What the invariant says about the stack. */
  lemma StackFacts(s: State)
    requires ProcsOk(s, MAX_PROCS)
    ensures |s.stack| <= MAX_DEPTH
    ensures forall j, k :: 0 <= j < k < |s.stack| ==> s.stack[j].pid != s.stack[k].pid
    ensures forall i :: 0 <= i < |s.procs| && s.procs[i].used ==> (s.procs[i].phase == Running <==> Stacked(s, s.procs[i].pid))
    ensures s.stack != [] ==> HasCurrent(s) && s.procs[FindPid(s.procs, CurrentPid(s))].phase == Running
  {
    hide LogOk, TimeOk;
    if s.stack != [] { TopRunning(s); }
    forall i | 0 <= i < |s.procs| && s.procs[i].used
      ensures s.procs[i].phase == Running <==> Stacked(s, s.procs[i].pid)
    {
      assert ProcOk(s, i, MAX_PROCS);
      if i in s.slots {
        var k :| 0 <= k < |s.slots| && s.slots[k] == i;
        assert s.stack[k].pid == s.procs[i].pid;
      }
      if Stacked(s, s.procs[i].pid) {
        var k :| 0 <= k < |s.stack| && s.stack[k].pid == s.procs[i].pid;
        assert s.procs[s.slots[k]].pid == s.procs[i].pid;
      }
    }
  }

  /** A nested run leaves the slot of every process below it alone. */
  lemma StackedSlotsStay(s: State, r: State, k: nat)
    requires ProcsOk(s, MAX_PROCS) && ProcsOk(r, MAX_PROCS) && r.slots == s.slots && k < |s.stack|
    requires r.stack[k].pid == s.stack[k].pid
    ensures s.slots[k] < |s.procs| && s.slots[k] < |r.procs|
    ensures r.procs[s.slots[k]].used && r.procs[s.slots[k]].pid == s.stack[k].pid == s.procs[s.slots[k]].pid
    ensures FindPid(r.procs, s.stack[k].pid) == FindPid(s.procs, s.stack[k].pid) == s.slots[k]
  {
    hide LogOk, TimeOk;
    FindPidIs(s.procs, s.stack[k].pid, s.slots[k]);
    FindPidIs(r.procs, s.stack[k].pid, s.slots[k]);
  }

  /** Every run from the start keeps the invariant and moves all processes legally. */
  lemma EveryRunOk(cs: Calls)
    ensures ProcsOk(DoCalls(INITIAL, cs), MAX_PROCS) && DoCalls(INITIAL, cs).stack == []
    ensures DoCalls(INITIAL, cs).running == 0 && !DoCalls(INITIAL, cs).dispatching
    ensures forall m :: m in DoCalls(INITIAL, cs).log ==> Legal(m.from, m.to)
  {
    DoCallsOk(INITIAL, cs);
  }

  /** The status that a wait reports for an exited process is reported again by any later wait,
      until the slot belongs to another process. */
  lemma WaitStable(s: State, cs: Calls, pid: nat, image: Image, image2: Image)
    requires ProcsOk(s, MAX_PROCS) && DoWait(s, pid, image).1 == 1
    ensures var (t, _, status) := DoWait(s, pid, image);
            var (_, code, status2) := DoWait(DoCalls(t, cs), pid, image2);
            code == FAILED || (code == 1 && status2 == status)
  {
    hide ProcsOk, Later, Dispatch, DoCalls;
    var (t, _, status) := DoWait(s, pid, image);
    var r := DoCalls(t, cs);
    DoWaitOk(s, pid, image);
    DoCallsOk(t, cs);
    var i :| Reported(t, i, pid, status);
    var k := FindPid(r.procs, pid);
    if k < |r.procs| {
      SameRecord(t, r, i, pid, k);
    }
  }

  /** An exited process that is still in the table is where it was, as it was. */
  lemma SameRecord(t: State, r: State, i: nat, pid: nat, k: nat)
    requires ProcsOk(t, MAX_PROCS) && Later(t, r) && i < |t.procs| && t.procs[i].used && t.procs[i].pid == pid
    requires k < |r.procs| && r.procs[k].used && r.procs[k].pid == pid && t.procs[i].phase == Exited
    ensures k == i && r.procs[k] == t.procs[i]
  {
    hide LogOk, TimeOk;
    assert ProcOk(t, i, MAX_PROCS);
    assert LaterProc(t.procs[k], r.procs[k], t.nextPid, t.now, r.now);
  }

  /** Over any stretch of a run, with any number of stops and restarts, the runtime reported for
      a process does not go down, and is no longer than the time since its first start. */
  lemma ReportedRuntime(s: State, cs: Calls, pid: nat)
    requires ProcsOk(s, MAX_PROCS) && pid < s.nextPid
    ensures var r := DoCalls(s, cs);
            var i := FindPid(r.procs, pid);
            i < |r.procs| ==>
              && i == FindPid(s.procs, pid) < |s.procs|
              && RuntimeOf(s.procs[i], s.now) <= RuntimeOf(r.procs[i], r.now)
              && (r.procs[i].started != 0 ==> RuntimeOf(r.procs[i], r.now) <= r.now - r.procs[i].started)
              && (s.procs[i].started != 0 ==> r.procs[i].started == s.procs[i].started)
  {
    hide DoCalls, LogOk;
    var r := DoCalls(s, cs);
    var i := FindPid(r.procs, pid);
    DoCallsOk(s, cs);
    if i < |r.procs| {
      assert LaterProc(s.procs[i], r.procs[i], s.nextPid, s.now, r.now);
      FindPidIs(s.procs, pid, i);
      assert ProcOk(r, i, MAX_PROCS);
    }
  }

  /** During a nested run every process below it stays where it is and stays marked as running. */
  lemma BelowStays(s: State, cs: Calls, k: nat)
    requires ProcsOk(s, MAX_PROCS) && k < |s.stack|
    ensures var r := DoCalls(s, cs);
            && r.stack[k].pid == s.stack[k].pid && s.slots[k] < |r.procs|
            && r.procs[s.slots[k]].used && r.procs[s.slots[k]].pid == s.stack[k].pid && r.procs[s.slots[k]].phase == Running
  {
    hide DoCalls, LogOk, TimeOk, Later;
    var r := DoCalls(s, cs);
    DoCallsOk(s, cs);
    assert r.stack[k].pid == s.stack[k].pid by {
      if k < |s.stack| - 1 { assert r.stack[..|s.stack|-1][k] == s.stack[..|s.stack|-1][k]; }
    }
    assert ProcOk(r, s.slots[k], MAX_PROCS);
  }

  /** The status of a process killed by a signal, or by a fault, can be read back. */
  lemma SignalStatusParts(signal: nat, vector: nat, error: nat)
    ensures var st := SignalStatus(signal, vector, error);
            && st / SIGNAL_FLAG == 1 && st < U64
            && st % 0x100 == signal % 0x100
            && st / 0x100 % 0x100 == vector % 0x100
            && st / 0x1_0000 % 0x1_0000 == error % 0x1_0000
  {
  }
}
