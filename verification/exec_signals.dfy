/** What signals, exits and waiting do to a process (clks/kernel/exec.c). */
module ExecSignals {
  import opened Machine
  import opened ExecState
  import opened ExecSafety

  /** A pending process that is stopped and continued is pending again, as it was. */
  lemma StopThenContinue(s: State, pid: nat)
    requires pid != 0 && FindPid(s.procs, pid) < |s.procs| && s.procs[FindPid(s.procs, pid)].phase == Pending
    ensures var i := FindPid(s.procs, pid);
            var stopped := DoKill(s, pid, STOP);
            var going := DoKill(stopped.0, pid, CONT);
            && stopped.1 == 1 && going.1 == 1
            && stopped.0.procs == s.procs[i := s.procs[i].(phase := Stopped, lastSignal := STOP)]
            && going.0.procs == s.procs[i := s.procs[i].(lastSignal := CONT)]
  {
    hide SignalStatus, EndRun;
    var i := FindPid(s.procs, pid);
    var stopped := DoKill(s, pid, STOP).0;
    FindPidIs(stopped.procs, pid, i);
    assert stopped.procs[i := s.procs[i].(lastSignal := CONT)] == s.procs[i := s.procs[i].(lastSignal := CONT)];
  }

  /** A process that is not running and is killed has exited with the signal as its status, which
      the next wait reports. */
  lemma KillIsReported(s: State, pid: nat, signal: nat, image: Image)
    requires pid != 0 && FindPid(s.procs, pid) < |s.procs|
    requires s.procs[FindPid(s.procs, pid)].phase == Pending || s.procs[FindPid(s.procs, pid)].phase == Stopped
    requires EffectiveSignal(signal) != STOP && EffectiveSignal(signal) != CONT
    ensures var killed := DoKill(s, pid, signal);
            killed.1 == 1 && DoWait(killed.0, pid, image) == (killed.0, 1, SignalStatus(EffectiveSignal(signal), 0, 0))
  {
    hide SignalStatus, Dispatch;
    var i := FindPid(s.procs, pid);
    FindPidIs(DoKill(s, pid, signal).0.procs, pid, i);
  }

  /** A running process takes signals only while it is the innermost one. */
  lemma OnlyTheCurrentIsSignalled(s: State, pid: nat, signal: nat)
    requires pid != 0 && FindPid(s.procs, pid) < |s.procs| && s.procs[FindPid(s.procs, pid)].phase == Running
    requires CurrentPid(s) != pid && EffectiveSignal(signal) != CONT
    ensures var i := FindPid(s.procs, pid);
            DoKill(s, pid, signal)
              == (s.(procs := s.procs[i := s.procs[i].(lastSignal := EffectiveSignal(signal))]), 0)
  {
  }

  /** What the innermost process asks of itself takes effect when it leaves: a stop stops it, now
      or earlier, any other signal alone ends it, and the status names the signal. */
  lemma SelfSignal(s: State, signal: nat, ret: nat)
    requires ProcsOk(s, MAX_PROCS) && s.stack != [] && EffectiveSignal(signal) != CONT
    ensures var slot := s.slots[|s.slots|-1];
            var asked := DoKill(s, CurrentPid(s), signal);
            && slot < |s.procs| && asked.1 == 1 && |asked.0.procs| == |s.procs| && asked.0.stack != [] && asked.0.slots != []
            && var p := Finish(asked.0, slot, ret).procs[slot];
               p.status == SignalStatus(EffectiveSignal(signal), 0, 0)
               && p.phase == if EffectiveSignal(signal) == STOP || Top(s).stopAsked then Stopped else Exited
  {
    hide SignalStatus, EndRun, StopRun, WithoutOwner, ImagesOf, ProcsOk;
    TopRunning(s);
    TopPid(s);
  }

  /** A kill after a stop does not end the process: it is stopped, with the status of the kill,
      and a continue makes it pending again. */
  lemma StopBeatsKill(s: State, ret: nat)
    requires ProcsOk(s, MAX_PROCS) && s.stack != []
    ensures var slot, pid := s.slots[|s.slots|-1], CurrentPid(s);
            var asked := DoKill(DoKill(s, pid, STOP).0, pid, 9).0;
            && slot < |asked.procs| && asked.stack != [] && asked.slots != []
            && var r := Finish(asked, slot, ret);
               && FindPid(r.procs, pid) == slot < |r.procs|
               && r.procs[slot].phase == Stopped && r.procs[slot].status == SignalStatus(9, 0, 0)
               && DoKill(r, pid, CONT).1 == 1 && DoKill(r, pid, CONT).0.procs[slot].phase == Pending
  {
    hide SignalStatus, Finish, ProcsOk, DoKill, Later;
    TopPid(s);
    var slot, pid := s.slots[|s.slots|-1], CurrentPid(s);
    var stopped := DoKill(s, pid, STOP).0;
    StopAsked(s);
    KillOk(s, pid, STOP);
    SelfSignal(stopped, 9, ret);
    var asked := DoKill(stopped, pid, 9).0;
    KillOk(stopped, pid, 9);
    TopPid(asked);
    FinishOk(asked, slot, ret);
    InTable(asked);
    var r := Finish(asked, slot, ret);
    FoundAt(r, slot);
    Continued(r, pid);
  }

  lemma StopAsked(s: State)
    requires ProcsOk(s, MAX_PROCS) && s.stack != []
    ensures var stopped := DoKill(s, CurrentPid(s), STOP).0;
            && stopped.slots == s.slots && stopped.stack != [] && CurrentPid(stopped) == CurrentPid(s) && Top(stopped).stopAsked
  {
    hide SignalStatus, EndRun, ProcsOk;
    TopRunning(s);
    TopPid(s);
  }

  lemma FoundAt(s: State, slot: nat)
    requires ProcsOk(s, MAX_PROCS) && slot < |s.procs| && s.procs[slot].used
    ensures FindPid(s.procs, s.procs[slot].pid) == slot && s.procs[slot].pid != 0
  {
    hide LogOk, TimeOk;
    assert ProcOk(s, slot, MAX_PROCS);
    FindPidIs(s.procs, s.procs[slot].pid, slot);
  }

  lemma Continued(s: State, pid: nat)
    requires pid != 0 && FindPid(s.procs, pid) < |s.procs| && s.procs[FindPid(s.procs, pid)].phase == Stopped
    ensures var i, r := FindPid(s.procs, pid), DoKill(s, pid, CONT);
            r.1 == 1 && |r.0.procs| == |s.procs| && r.0.procs[i].phase == Pending
  {
    hide SignalStatus, EndRun;
  }

  lemma TopPid(s: State)
    requires ProcsOk(s, MAX_PROCS) && s.stack != []
    ensures |s.slots| == |s.stack| && Top(s).pid != 0
    ensures s.slots[|s.slots|-1] < |s.procs|
  {
    hide LogOk, TimeOk;
    assert ProcOk(s, s.slots[|s.slots|-1], MAX_PROCS);
    assert s.procs[s.slots[|s.slots|-1]].pid == s.stack[|s.stack|-1].pid;
  }

  /** An exit request decides the status, whatever the program returns after it; the process has
      exited unless it was asked to stop before. */
  lemma ExitStatus(s: State, slot: nat, status: nat, ret: nat)
    requires slot < |s.procs| && s.stack != [] && s.slots != []
    ensures var p := Finish(DoExit(s, status), slot, ret).procs[slot];
            p.status == status && p.phase == if Top(s).stopAsked then Stopped else Exited
  {
    hide WithoutOwner, ImagesOf, Pause;
  }

  /** The state in which the program of a pending process comes back, when it is waited for. */
  function LeftBy(s: State, slot: nat, body: Calls): (left: State)
    requires slot < |s.procs|
    ensures left.stack != [] && |left.procs| == |s.procs|
  {
    hide DoCalls;
    var started := Push(s.(dispatching := true), slot).(running := s.running + 1);
    DoCalls(started, body)
  }

  /** A pending process that is waited for runs its program from the beginning; the wait reports
      what the program returns, or what it was last asked to leave with, unless it stops. */
  lemma WaitRuns(s: State, pid: nat, body: Calls, ret: nat)
    requires FindPid(s.procs, pid) < |s.procs| && s.procs[FindPid(s.procs, pid)].phase == Pending
    requires StartsAtRoot(s.procs[FindPid(s.procs, pid)].path) && |s.stack| < MAX_DEPTH && !s.dispatching
    ensures var top := Top(LeftBy(s, FindPid(s.procs, pid), body));
            var (r, code, status) := DoWait(s, pid, Runs(body, ret));
            if top.stopAsked then code == 0 && r.procs[FindPid(s.procs, pid)].phase == Stopped
            else code == 1 && status == if top.exitAsked then top.exitStatus else ret
  {
    hide StartsAtRoot, Dispatch, LeftBy;
    DispatchLeaves(s, FindPid(s.procs, pid), body, ret);
  }

  /** The record of a process after its program has run inside the dispatcher. */
  lemma DispatchLeaves(s: State, slot: nat, body: Calls, ret: nat)
    requires slot < |s.procs| && s.procs[slot].used && StartsAtRoot(s.procs[slot].path) && |s.stack| < MAX_DEPTH
    ensures var top, r := Top(LeftBy(s, slot, body)), Dispatch(s, slot, Runs(body, ret));
            && r.procs[slot].phase == (if top.stopAsked then Stopped else Exited)
            && r.procs[slot].status == if top.exitAsked then top.exitStatus else ret
  {
    hide StartsAtRoot, DoCalls, Push, Finish, RunSlot;
    var inside := s.(dispatching := true);
    RunSlotRuns(inside, slot, Runs(body, ret));
    var left := LeftBy(s, slot, body);
    FinishRecord(left.(running := left.running - 1), slot, ret);
  }

  lemma FinishRecord(s: State, slot: nat, ret: nat)
    requires slot < |s.procs| && s.stack != [] && s.slots != []
    ensures var p := Finish(s, slot, ret).procs[slot];
            p.phase == (if Top(s).stopAsked then Stopped else Exited) && p.status == RunStatus(Top(s), ret)
  {
    hide WithoutOwner, ImagesOf, Pause;
  }

  /** A process that was spawned runs when it is waited for, whatever calls it makes, and the wait
      reports what it leaves with, unless it stops. */
  lemma SpawnThenWait(s: State, path: string, body: Calls, ret: nat)
    requires ProcsOk(s, MAX_PROCS) && StartsAtRoot(path) && AllocSlot(s.procs) < |s.procs|
    requires |s.stack| < MAX_DEPTH && !s.dispatching
    ensures var t := DoSpawn(s, path);
            && |t.procs| == |s.procs|
            && var top := Top(LeftBy(t, AllocSlot(s.procs), body));
               var (_, code, status) := DoWait(t, s.nextPid, Runs(body, ret));
               if top.stopAsked then code == 0 else code == 1 && status == if top.exitAsked then top.exitStatus else ret
  {
    hide AllocSlot, ProcsOk, StartsAtRoot, LeftBy, DoWait;
    Spawned(s, path);
    WaitRuns(DoSpawn(s, path), s.nextPid, body, ret);
  }

  /** A stopped process that is continued and waited for starts again: its whole program runs, from
      the first call on, however far it had come. */
  lemma ContinueStartsOver(s: State, pid: nat, body: Calls, ret: nat)
    requires pid != 0 && FindPid(s.procs, pid) < |s.procs| && s.procs[FindPid(s.procs, pid)].phase == Stopped
    requires StartsAtRoot(s.procs[FindPid(s.procs, pid)].path) && |s.stack| < MAX_DEPTH && !s.dispatching
    ensures var slot := FindPid(s.procs, pid);
            var t := DoKill(s, pid, CONT).0;
            && FindPid(t.procs, pid) == slot < |t.procs| && t.procs[slot].phase == Pending
            && var top := Top(LeftBy(t, slot, body));
               var (_, code, status) := DoWait(t, pid, Runs(body, ret));
               if top.stopAsked then code == 0 else code == 1 && status == if top.exitAsked then top.exitStatus else ret
  {
    hide StartsAtRoot, LeftBy, DoWait, EndRun, SignalStatus;
    var slot, t := FindPid(s.procs, pid), DoKill(s, pid, CONT).0;
    FindPidIs(t.procs, pid, slot);
    WaitRuns(t, pid, body, ret);
  }

  lemma Spawned(s: State, path: string)
    requires ProcsOk(s, MAX_PROCS) && StartsAtRoot(path) && AllocSlot(s.procs) < |s.procs|
    ensures var t := DoSpawn(s, path);
            && FindPid(t.procs, s.nextPid) == AllocSlot(s.procs)
            && t.procs[AllocSlot(s.procs)] == NewProc(s.nextPid, CurrentPid(s), path, Pending)
  {
    hide LogOk, TimeOk, AllocSlot;
    var slot, t := AllocSlot(s.procs), DoSpawn(s, path);
    forall j | 0 <= j < slot
      ensures !(t.procs[j].used && t.procs[j].pid == s.nextPid)
    {
      assert ProcOk(s, j, MAX_PROCS);
    }
    FindPidIs(t.procs, s.nextPid, slot);
  }

  // ----- faults -----

  /** A fault of the innermost program, if it is a user program that is being executed, asks it to
      leave with a status that names signal, vector and error code. */
  lemma FaultAsks(s: State, vector: nat, error: nat)
    requires ProcsOk(s, MAX_PROCS) && s.stack != [] && s.running > 0
    requires IsUserProgram(s.procs[FindPid(s.procs, CurrentPid(s))].path)
    ensures var r, i := DoFault(s, vector, error), FindPid(s.procs, CurrentPid(s));
            && i < |s.procs| && r.procs == s.procs[i := s.procs[i].(lastSignal := FaultSignal(vector))]
            && r.stack == s.stack[|s.stack|-1 := Frame(CurrentPid(s), true, FaultStatus(vector, error), Top(s).stopAsked)]
  {
    hide ProcsOk, IsUserProgram;
    TopRunning(s);
  }

  /** Arithmetic faults are 8, an undefined instruction 4, a breakpoint 5, faults of memory and
      alignment 11, and everything else 6. */
  function FaultSignal(vector: nat): nat {
    match vector
    case 0 => 8
    case 16 => 8
    case 19 => 8
    case 6 => 4
    case 3 => 5
    case 17 => 11
    case _ => if 10 <= vector <= 14 then 11 else 6
  }

  function FaultStatus(vector: nat, error: nat): nat {
    0x8000_0000_0000_0000 + FaultSignal(vector) + vector % 256 * 256 + error % 65536 * 65536
  }

  /** A fault anywhere else is not captured. */
  lemma FaultElsewhere(s: State, vector: nat, error: nat)
    requires s.stack == [] || s.running == 0 || FindPid(s.procs, CurrentPid(s)) == |s.procs|
             || !IsUserProgram(s.procs[FindPid(s.procs, CurrentPid(s))].path)
    ensures DoFault(s, vector, error) == s
  {
  }

  /** User programs are those under /shell/, and files with the ending .elf that are not under
      /system/ or /driver/. */
  lemma UserPrograms(x: string)
    ensures IsUserProgram("/shell/" + x) && IsUserProgram("/temp/" + x + ".elf")
    ensures !IsUserProgram("/system/" + x) && !IsUserProgram("/driver/" + x)
    ensures IsUserProgram("/temp/" + x) <==> ("/temp/" + x)[|x|+2..] == ".elf"
  {
    var p := "/temp/" + x + ".elf";
    assert p[|p|-4..] == ".elf" && p[0] == '/' && p[1] == 't';
    assert ("/shell/" + x)[..7] == "/shell/" && ("/shell/" + x)[1] == 's' && ("/shell/" + x)[2] == 'h';
    assert ("/system/" + x)[..8] == "/system/" && ("/driver/" + x)[..8] == "/driver/";
    assert ("/temp/" + x)[1] == 't';
  }

  // ----- what calls answer -----

  /** Signal 0 stands for 15, and of any other number the low eight bits count. */
  lemma KillNumbers(s: State, pid: nat, signal: nat)
    ensures DoKill(s, pid, 0) == DoKill(s, pid, 15)
    ensures signal % 256 != 0 ==> DoKill(s, pid, signal) == DoKill(s, pid, signal % 256)
  {
    hide SignalStatus, EndRun;
    assert EffectiveSignal(0) == EffectiveSignal(15);
  }

  /** A signal for nobody fails, and one for a process that has exited does nothing. */
  lemma KillAnswers(s: State, pid: nat, signal: nat)
    ensures pid == 0 || FindPid(s.procs, pid) == |s.procs| ==> DoKill(s, pid, signal) == (s, 0xFFFF_FFFF_FFFF_FFFF)
    ensures pid != 0 && FindPid(s.procs, pid) < |s.procs| && s.procs[FindPid(s.procs, pid)].phase == Exited ==>
              DoKill(s, pid, signal) == (s, 1)
  {
  }

  /** A wait for nobody fails; for a process that is running or stopped, or that is pending while a
      dispatch is under way, it answers 0 and does nothing; for one that has exited it reports. */
  lemma WaitAnswers(s: State, pid: nat, image: Image)
    ensures var i := FindPid(s.procs, pid);
            && (i == |s.procs| ==> DoWait(s, pid, image) == (s, 0xFFFF_FFFF_FFFF_FFFF, 0))
            && (i < |s.procs| && (s.procs[i].phase == Running || s.procs[i].phase == Stopped) ==> DoWait(s, pid, image) == (s, 0, 0))
            && (i < |s.procs| && s.procs[i].phase == Pending && s.dispatching ==> DoWait(s, pid, image) == (s, 0, 0))
            && (i < |s.procs| && s.procs[i].phase == Exited ==> DoWait(s, pid, image) == (s, 1, s.procs[i].status))
  {
    hide Dispatch;
  }

  /** What a new process is known by: a pid that no other has, its parent, and no time. */
  lemma SpawnRecord(s: State, path: string)
    ensures var r, i := DoSpawn(s, path), AllocSlot(s.procs);
            if path == "" || path[0] != '/' || i == |s.procs| then r == s
            else r.procs == s.procs[i := Proc(true, Pending, s.nextPid, CurrentPid(s), 0, 0, 0, 0, 0xFFFF_FFFF_FFFF_FFFF, 0, path)]
                 && r.nextPid == s.nextPid + 1 && r.stack == s.stack && r.libs == s.libs && r.now == s.now
  {
    hide AllocSlot;
  }

  /** An unused slot is given away first, and only then that of a process that has exited, the first
      one of each. */
  lemma UnusedFirst(ps: seq<Proc>, i: nat)
    requires i < |ps|
    ensures !ps[i].used && (forall j :: 0 <= j < i ==> ps[j].used) ==> AllocSlot(ps) == i
    ensures (forall j :: 0 <= j < |ps| ==> ps[j].used) && ps[i].phase == Exited && (forall j :: 0 <= j < i ==> ps[j].phase != Exited) ==>
              AllocSlot(ps) == i
  {
  }

  /** The record of a process that leaves: it has the status that was asked for last, or that the
      program returned; the tick of its exit unless it is only stopped; and its identity. */
  lemma LeavingRecord(s: State, slot: nat, ret: nat)
    requires slot < |s.procs| && s.stack != [] && s.slots != []
    ensures var p, q, top := s.procs[slot], Finish(s, slot, ret).procs[slot], Top(s);
            && q.used == p.used && q.pid == p.pid && q.ppid == p.ppid && q.path == p.path && q.lastSignal == p.lastSignal
            && q.started == p.started && q.runStarted == 0
            && q.status == (if top.exitAsked then top.exitStatus else ret)
            && q.phase == (if top.stopAsked then Stopped else Exited) && q.exited == if top.stopAsked then 0 else s.now
  {
    hide WithoutOwner, ImagesOf;
  }

  /** A program that is run at once answers with the status that it leaves with; it answers nothing
      when it cannot be run. */
  lemma RunAnswers(s: State, path: string, body: Calls, ret: nat)
    requires StartsAtRoot(path) && AllocSlot(s.procs) < |s.procs| && |s.stack| < MAX_DEPTH
    ensures var i := AllocSlot(s.procs); var added := AddProc(s, i, path, Running);
            var left := DoCalls(Push(added, i).(running := s.running + 1), body);
            && left.stack != []
            && DoRun(s, path, true, Runs(body, ret)).1 == Some(if Top(left).exitAsked then Top(left).exitStatus else ret)
  {
    hide AllocSlot, StartsAtRoot, DoCalls, Push, Finish, RunSlot;
    var i := AllocSlot(s.procs);
    RunSlotRuns(AddProc(s, i, path, Running), i, Runs(body, ret));
  }

  lemma RunFails(s: State, path: string, stdioOk: bool, image: Image)
    requires !StartsAtRoot(path) || AllocSlot(s.procs) == |s.procs| || !stdioOk || |s.stack| >= MAX_DEPTH || !image.Runs?
    ensures DoRun(s, path, stdioOk, image).1 == None
  {
    hide AllocSlot, StartsAtRoot, DoCalls, Push, FailRun, RunSlot;
    var i := AllocSlot(s.procs);
    if StartsAtRoot(path) && i < |s.procs| && stdioOk {
      var added := AddProc(s, i, path, Running);
      if |s.stack| >= MAX_DEPTH { RunSlotRejects(added, i, image); } else { RunSlotFails(added, i, image); }
    }
  }
}
