/** The process executor (clks/kernel/exec.c) on values: the process table, the stack of
    processes that are inside each other, and the open libraries. User code is any finite list
    of system calls, given together with the image that a call starts, if it starts one. */
module ExecState {
  import opened Machine

  const MAX_PROCS: nat := 64
  const MAX_DEPTH: nat := 16
  const MAX_LIBS: nat := 32
  const FAILED: nat := U64 - 1
  const SIGNAL_FLAG: nat := 0x8000_0000_0000_0000

  const TERM: nat := 15
  const CONT: nat := 18
  const STOP: nat := 19

  datatype Image = Broken | NoStack | Runs(body: Calls, ret: nat)
  datatype Calls = Done | Then(call: Call, rest: Calls)
  datatype Call =
    | Advance(ticks: nat)
    | Run(path: string, stdioOk: bool, image: Image)
    | Spawn(path: string)
    | Wait(pid: nat, image: Image)
    | Yield(image: Image)
    | Kill(pid: nat, signal: nat)
    | Exit(status: nat)
    | Fault(vector: nat, error: nat)
    | DlOpen(path: string, loads: bool)
    | DlClose(handle: nat)

  datatype Phase = Unused | Pending | Running | Exited | Stopped

  datatype Proc = Proc(used: bool, phase: Phase, pid: nat, ppid: nat, started: nat, exited: nat, runStarted: nat,
                       runtime: nat, status: nat, lastSignal: nat, path: string)

  const BLANK: Proc := Proc(false, Unused, 0, 0, 0, 0, 0, 0, 0, 0, "")

  datatype Frame = Frame(pid: nat, exitAsked: bool, exitStatus: nat, stopAsked: bool)

  datatype Lib = Lib(used: bool, handle: nat, owner: nat, refs: nat, path: string, image: nat)

  const NO_LIB: Lib := Lib(false, 0, 0, 0, "", 0)

  /** A change of a process's phase, in the history of all of them. */
  datatype Move = Move(pid: nat, from: Phase, to: Phase)

  /** `slots`, `log`, `images` and `freed` are history: the table slot of each stacked process,
      all changes of phase, the number of library images loaded so far and those freed. */
  datatype State = State(procs: seq<Proc>, stack: seq<Frame>, running: nat, dispatching: bool, nextPid: nat, now: nat,
                         libs: seq<Lib>, nextHandle: nat,
                         slots: seq<nat>, log: seq<Move>, images: nat, freed: seq<nat>)

  // ----- records -----

  function SignalOf(vector: nat): nat {
    if vector in {0, 16, 19} then 8
    else if vector == 6 then 4
    else if vector == 3 then 5
    else if vector in {10, 11, 12, 13, 14, 17} then 11
    else 6
  }

  function SignalStatus(signal: nat, vector: nat, error: nat): nat {
    SIGNAL_FLAG + signal % 0x100 + vector % 0x100 * 0x100 + error % 0x1_0000 * 0x1_0000
  }

  function StartRun(p: Proc, now: nat): Proc {
    p.(started := if p.started == 0 then now else p.started, runStarted := now, phase := Running)
  }

  function Pause(p: Proc, now: nat): Proc {
    p.(runtime := if p.runStarted != 0 && now > p.runStarted then p.runtime + (now - p.runStarted) else p.runtime,
       runStarted := 0)
  }

  function EndRun(p: Proc, now: nat, status: nat): (r: Proc)
    ensures r.used == p.used && r.pid == p.pid && r.phase == Exited && r.status == status
  {
    Pause(p, now).(phase := Exited, status := status, exited := now)
  }

  function StopRun(p: Proc, now: nat, status: nat): (r: Proc)
    ensures r.used == p.used && r.pid == p.pid && r.phase == Stopped && r.status == status
  {
    Pause(p, now).(phase := Stopped, status := status, exited := 0)
  }

  /** clks_exec_proc_runtime_ticks */
  function RuntimeOf(p: Proc, now: nat): nat {
    if p.started == 0 then 0
    else if p.phase == Running && p.runStarted != 0 && now > p.runStarted then p.runtime + (now - p.runStarted)
    else p.runtime
  }

  function NewProc(pid: nat, ppid: nat, path: string, phase: Phase): Proc {
    Proc(true, phase, pid, ppid, 0, 0, 0, 0, FAILED, 0, path)
  }

  predicate StartsAtRoot(path: string) {
    path != "" && path[0] == '/'
  }

  /** clks_exec_path_is_user_program */
  predicate IsUserProgram(path: string) {
    && StartsAtRoot(path) && !("/system/" <= path) && !("/driver/" <= path)
    && ("/shell/" <= path || (|path| >= 4 && path[|path|-4..] == ".elf"))
  }

  // ----- searching -----

  function FindPid(ps: seq<Proc>, pid: nat): (i: nat)
    ensures i <= |ps| && (i < |ps| ==> ps[i].used && ps[i].pid == pid)
    ensures forall j :: 0 <= j < i ==> !(ps[j].used && ps[j].pid == pid)
  {
    if ps == [] then 0 else if ps[0].used && ps[0].pid == pid then 0
    else
      var k := FindPid(ps[1..], pid);
      assert forall j :: 1 <= j < 1 + k ==> ps[j] == ps[1..][j-1];
      1 + k
  }

  lemma FindPidIs(ps: seq<Proc>, pid: nat, i: nat)
    requires i <= |ps| && (i < |ps| ==> ps[i].used && ps[i].pid == pid)
    requires forall j :: 0 <= j < i ==> !(ps[j].used && ps[j].pid == pid)
    ensures FindPid(ps, pid) == i
  {
  }

  /** The first slot in phase `f`, where `f` is Unused for a slot that is not in use. */
  function FirstIn(ps: seq<Proc>, f: Phase): (i: nat)
    ensures i <= |ps| && (i < |ps| ==> InPhase(ps[i], f))
    ensures forall j :: 0 <= j < i ==> !InPhase(ps[j], f)
  {
    if ps == [] then 0 else if InPhase(ps[0], f) then 0
    else
      var k := FirstIn(ps[1..], f);
      assert forall j :: 1 <= j < 1 + k ==> ps[j] == ps[1..][j-1];
      1 + k
  }

  predicate InPhase(p: Proc, f: Phase) {
    if f == Unused then !p.used else if f == Pending then p.used && p.phase == Pending else p.phase == f
  }

  lemma FirstInIs(ps: seq<Proc>, f: Phase, i: nat)
    requires i <= |ps| && (i < |ps| ==> InPhase(ps[i], f)) && forall j :: 0 <= j < i ==> !InPhase(ps[j], f)
    ensures FirstIn(ps, f) == i
  {
  }

  /** clks_exec_proc_alloc_slot: an unused slot, else one whose process has exited. */
  function AllocSlot(ps: seq<Proc>): (i: nat)
    ensures i <= |ps| && (i < |ps| ==> !ps[i].used || ps[i].phase == Exited)
    ensures i == |ps| ==> forall j :: 0 <= j < |ps| ==> ps[j].used && ps[j].phase != Exited
  {
    if FirstIn(ps, Unused) < |ps| then FirstIn(ps, Unused) else FirstIn(ps, Exited)
  }

  // ----- small steps -----

  function Top(s: State): Frame
    requires s.stack != []
  {
    s.stack[|s.stack|-1]
  }

  function CurrentPid(s: State): nat {
    if s.stack == [] then 0 else Top(s).pid
  }

  function SetTop(s: State, f: Frame): State
    requires s.stack != []
  {
    s.(stack := s.stack[|s.stack|-1 := f])
  }

  /** The record in `slot` becomes `p`, and the change of its phase goes into the history. */
  function SetProc(s: State, slot: nat, p: Proc): (r: State)
    requires slot < |s.procs|
    ensures r == s.(procs := s.procs[slot := p], log := r.log)
  {
    s.(procs := s.procs[slot := p],
       log := if s.procs[slot].phase == p.phase then s.log else s.log + [Move(p.pid, s.procs[slot].phase, p.phase)])
  }

  /** A new record takes the slot, whatever was there. */
  function AddProc(s: State, slot: nat, path: string, phase: Phase): State
    requires slot < |s.procs|
  {
    s.(procs := s.procs[slot := NewProc(s.nextPid, CurrentPid(s), path, phase)], nextPid := s.nextPid + 1,
       log := s.log + [Move(s.nextPid, Unused, phase)])
  }

  predicate Belongs(l: Lib, owner: nat) {
    l.used && l.owner == owner
  }

  /** The library table without the slots of `owner`. */
  function WithoutOwner(ls: seq<Lib>, owner: nat): seq<Lib> {
    seq(|ls|, i requires 0 <= i < |ls| => if Belongs(ls[i], owner) then NO_LIB else ls[i])
  }

  function ImagesOf(ls: seq<Lib>, owner: nat): seq<nat> {
    if ls == [] then []
    else if Belongs(ls[0], owner) then [ls[0].image] + ImagesOf(ls[1..], owner)
    else ImagesOf(ls[1..], owner)
  }

  /** clks_exec_dynlib_release_owner */
  function Release(s: State, owner: nat): State {
    if owner == 0 then s
    else s.(libs := WithoutOwner(s.libs, owner), freed := s.freed + ImagesOf(s.libs, owner))
  }

  // ----- system calls that start nothing -----

  /** What a stretch of execution gives back: the same nesting, with at most the requests of
      the innermost process changed. */
  ghost predicate Balanced(s: State, r: State) {
    && |r.procs| == |s.procs| && r.slots == s.slots && |r.stack| == |s.stack|
    && r.running == s.running && r.dispatching == s.dispatching
    && s.nextPid <= r.nextPid && s.now <= r.now
    && (s.stack != [] ==> r.stack[..|s.stack|-1] == s.stack[..|s.stack|-1] && Top(r).pid == Top(s).pid)
  }

  /** clks_exec_spawn_pathv */
  function DoSpawn(s: State, path: string): (r: State)
    ensures Balanced(s, r)
  {
    var slot := AllocSlot(s.procs);
    if !StartsAtRoot(path) || slot == |s.procs| then s else AddProc(s, slot, path, Pending)
  }

  /** clks_exec_request_exit */
  function DoExit(s: State, status: nat): (r: State)
    ensures Balanced(s, r)
  {
    if s.stack == [] then s else SetTop(s, Top(s).(exitAsked := true, exitStatus := status))
  }

  function EffectiveSignal(signal: nat): nat {
    if signal == 0 then TERM else signal % 0x100
  }

  /** clks_exec_proc_kill, with the value that it returns. */
  function DoKill(s: State, pid: nat, signal: nat): (r: (State, nat))
    ensures Balanced(s, r.0)
  {
    var slot := FindPid(s.procs, pid);
    if pid == 0 || slot == |s.procs| then (s, FAILED)
    else
      var p, sig := s.procs[slot], EffectiveSignal(signal);
      var status := SignalStatus(sig, 0, 0);
      var told := p.(lastSignal := sig);
      if p.phase == Exited then (s, 1)
      else if sig == CONT then
        (SetProc(s, slot, if p.phase == Stopped then told.(phase := Pending) else told), 1)
      else if sig == STOP && p.phase == Pending then (SetProc(s, slot, told.(phase := Stopped)), 1)
      else if sig == STOP && p.phase == Stopped then (SetProc(s, slot, told), 1)
      else if p.phase == Pending || p.phase == Stopped then (SetProc(s, slot, EndRun(told, s.now, status)), 1)
      else if p.phase != Running || s.stack == [] || CurrentPid(s) != pid then (SetProc(s, slot, told), 0)
      else
        (SetTop(SetProc(s, slot, told), Top(s).(exitAsked := true, exitStatus := status, stopAsked := sig == STOP || Top(s).stopAsked)), 1)
  }

  /** clks_exec_handle_exception for a fault in the code of the running program. */
  function DoFault(s: State, vector: nat, error: nat): (r: State)
    ensures Balanced(s, r)
  {
    var slot := FindPid(s.procs, CurrentPid(s));
    if s.running == 0 || s.stack == [] || slot == |s.procs| || !IsUserProgram(s.procs[slot].path) then s
    else
      SetTop(SetProc(s, slot, s.procs[slot].(lastSignal := SignalOf(vector))),
             Top(s).(exitAsked := true, exitStatus := SignalStatus(SignalOf(vector), vector, error)))
  }

  function FindLib(ls: seq<Lib>, owner: nat, path: string): (i: nat)
    ensures i <= |ls| && (i < |ls| ==> ls[i].used && ls[i].owner == owner && ls[i].path == path)
    ensures forall j :: 0 <= j < i ==> !(ls[j].used && ls[j].owner == owner && ls[j].path == path)
  {
    if ls == [] then 0 else if ls[0].used && ls[0].owner == owner && ls[0].path == path then 0
    else
      var k := FindLib(ls[1..], owner, path);
      assert forall j :: 1 <= j < 1 + k ==> ls[j] == ls[1..][j-1];
      1 + k
  }

  function FindHandle(ls: seq<Lib>, handle: nat): (i: nat)
    ensures i <= |ls| && (i < |ls| ==> ls[i].used && ls[i].handle == handle)
    ensures forall j :: 0 <= j < i ==> !(ls[j].used && ls[j].handle == handle)
  {
    if ls == [] then 0 else if ls[0].used && ls[0].handle == handle then 0
    else
      var k := FindHandle(ls[1..], handle);
      assert forall j :: 1 <= j < 1 + k ==> ls[j] == ls[1..][j-1];
      1 + k
  }

  function FreeLib(ls: seq<Lib>): (i: nat)
    ensures i <= |ls| && (i < |ls| ==> !ls[i].used)
    ensures forall j :: 0 <= j < i ==> ls[j].used
  {
    if ls == [] then 0 else if !ls[0].used then 0
    else
      var k := FreeLib(ls[1..]);
      assert forall j :: 1 <= j < 1 + k ==> ls[j] == ls[1..][j-1];
      1 + k
  }

  /** The process that makes a system call has a record. */
  predicate HasCurrent(s: State) {
    s.stack != [] && FindPid(s.procs, CurrentPid(s)) < |s.procs|
  }

  /** clks_exec_dl_open; `loads` says whether the library file is there and loads. */
  function DoDlOpen(s: State, path: string, loads: bool): (r: State)
    ensures Balanced(s, r)
  {
    var owner := CurrentPid(s);
    var i, free := FindLib(s.libs, owner, path), FreeLib(s.libs);
    if !HasCurrent(s) || !StartsAtRoot(path) || |path| >= 192 then s
    else if i < |s.libs| then s.(libs := s.libs[i := s.libs[i].(refs := s.libs[i].refs + 1)])
    else if free == |s.libs| || !loads then s
    else
      s.(libs := s.libs[free := Lib(true, s.nextHandle, owner, 1, path, s.images)],
         nextHandle := s.nextHandle + 1, images := s.images + 1)
  }

  /** clks_exec_dl_close */
  function DoDlClose(s: State, handle: nat): (r: State)
    ensures Balanced(s, r)
  {
    var i := FindHandle(s.libs, handle);
    if !HasCurrent(s) || handle == 0 || i == |s.libs| || s.libs[i].owner != CurrentPid(s) then s
    else if s.libs[i].refs > 1 then s.(libs := s.libs[i := s.libs[i].(refs := s.libs[i].refs - 1)])
    else s.(libs := s.libs[i := NO_LIB], freed := s.freed + [s.libs[i].image])
  }

  // ----- running -----

  /** What a whole nested run gives back: the stack as it was, with all its requests. */
  ghost predicate Restored(s: State, r: State) {
    Balanced(s, r) && r.stack == s.stack
  }

  function Push(s: State, slot: nat): (r: State)
    requires slot < |s.procs|
    ensures r.stack == s.stack + [Frame(s.procs[slot].pid, false, 0, false)] && r.slots == s.slots + [slot]
    ensures r == s.(procs := r.procs, stack := r.stack, slots := r.slots, log := r.log) && |r.procs| == |s.procs|
  {
    SetProc(s, slot, StartRun(s.procs[slot], s.now))
      .(stack := s.stack + [Frame(s.procs[slot].pid, false, 0, false)], slots := s.slots + [slot])
  }

  function Pop(s: State): State
    requires s.stack != [] && s.slots != []
  {
    s.(stack := s.stack[..|s.stack|-1], slots := s.slots[..|s.slots|-1])
  }

  /** The failure exit of clks_exec_run_proc_slot. */
  function FailRun(s: State, slot: nat): (r: State)
    requires slot < |s.procs| && s.stack != [] && s.slots != []
    ensures r.stack == s.stack[..|s.stack|-1] && r.slots == s.slots[..|s.slots|-1] && |r.procs| == |s.procs|
    ensures r == s.(procs := r.procs, stack := r.stack, slots := r.slots, log := r.log, libs := r.libs, freed := r.freed)
  {
    Pop(Release(SetProc(s, slot, EndRun(s.procs[slot], s.now, FAILED)), s.procs[slot].pid))
  }

  function RunStatus(f: Frame, ret: nat): nat {
    if f.exitAsked then f.exitStatus else ret
  }

  /** What clks_exec_run_proc_slot does after user code has returned. */
  function Finish(s: State, slot: nat, ret: nat): (r: State)
    requires slot < |s.procs| && s.stack != [] && s.slots != []
    ensures r.stack == s.stack[..|s.stack|-1] && r.slots == s.slots[..|s.slots|-1] && |r.procs| == |s.procs|
    ensures r == s.(procs := r.procs, stack := r.stack, slots := r.slots, log := r.log, libs := r.libs, freed := r.freed)
  {
    var p, status := s.procs[slot], RunStatus(Top(s), ret);
    Pop(Release(SetProc(s, slot, if Top(s).stopAsked then StopRun(p, s.now, status) else EndRun(p, s.now, status)), p.pid))
  }

  /** clks_exec_run_proc_slot */
  function RunSlot(s: State, slot: nat, image: Image): (r: (State, Option<nat>))
    requires slot < |s.procs|
    ensures Restored(s, r.0)
    decreases image, 0
  {
    hide Push, FailRun, Finish, SetProc, EndRun, RunStatus, StartsAtRoot;
    if !s.procs[slot].used then (s, None)
    else if !StartsAtRoot(s.procs[slot].path) || |s.stack| >= MAX_DEPTH then
      (SetProc(s, slot, EndRun(s.procs[slot], s.now, FAILED)), None)
    else
      var entered := Push(s, slot);
      match image
      case Broken => (FailRun(entered, slot), None)
      case NoStack => (FailRun(entered, slot), None)
      case Runs(body, ret) =>
        var left := DoCalls(entered.(running := s.running + 1), body);
        (Finish(left.(running := left.running - 1), slot, ret), Some(RunStatus(Top(left), ret)))
  }

  /** A pending process runs inside the dispatcher, which does not nest. */
  function Dispatch(s: State, slot: nat, image: Image): (r: State)
    requires slot < |s.procs|
    ensures Restored(s, r)
    decreases image, 1
  {
    RunSlot(s.(dispatching := true), slot, image).0.(dispatching := s.dispatching)
  }

  /** clks_exec_dispatch_pending_once, the body of a yield, a sleep and a timer tick */
  function DoYield(s: State, image: Image): (r: State)
    ensures Restored(s, r)
    decreases image, 2
  {
    var slot := FirstIn(s.procs, Pending);
    if s.dispatching || slot == |s.procs| then s else Dispatch(s, slot, image)
  }

  /** clks_exec_wait_pid: the code it returns and, for code 1, the status it reports */
  function DoWait(s: State, pid: nat, image: Image): (r: (State, nat, nat))
    ensures Restored(s, r.0)
    decreases image, 2
  {
    var slot := FindPid(s.procs, pid);
    if slot == |s.procs| then (s, FAILED, 0)
    else
      var t := if s.procs[slot].phase == Pending && !s.dispatching then Dispatch(s, slot, image) else s;
      var p := t.procs[slot];
      if p.phase == Pending || p.phase == Running || p.phase == Stopped then (t, 0, 0)
      else if p.phase != Exited then (t, FAILED, 0)
      else (t, 1, p.status)
  }

  /** clks_exec_run_path_internal */
  function DoRun(s: State, path: string, stdioOk: bool, image: Image): (r: (State, Option<nat>))
    ensures Restored(s, r.0)
    decreases image, 2
  {
    var slot := AllocSlot(s.procs);
    if !StartsAtRoot(path) || slot == |s.procs| then (s, None)
    else if !stdioOk then (s.(procs := s.procs[slot := BLANK], nextPid := s.nextPid + 1), None)
    else RunSlot(AddProc(s, slot, path, Running), slot, image)
  }

  function DoCall(s: State, c: Call): (r: State)
    ensures Balanced(s, r)
    decreases c
  {
    hide DoSpawn, DoKill, DoExit, DoFault, DoDlOpen, DoDlClose;
    match c
    case Advance(n) => s.(now := s.now + n)
    case Run(path, stdioOk, image) => DoRun(s, path, stdioOk, image).0
    case Spawn(path) => DoSpawn(s, path)
    case Wait(pid, image) => DoWait(s, pid, image).0
    case Yield(image) => DoYield(s, image)
    case Kill(pid, signal) => DoKill(s, pid, signal).0
    case Exit(status) => DoExit(s, status)
    case Fault(vector, error) => DoFault(s, vector, error)
    case DlOpen(path, loads) => DoDlOpen(s, path, loads)
    case DlClose(handle) => DoDlClose(s, handle)
  }

  function DoCalls(s: State, cs: Calls): (r: State)
    ensures Balanced(s, r)
    decreases cs
  {
    match cs
    case Done => s
    case Then(c, rest) => DoCalls(DoCall(s, c), rest)
  }

  // ----- the three ways through a run -----

  lemma RunSlotRejects(s: State, slot: nat, image: Image)
    requires slot < |s.procs| && s.procs[slot].used
    requires !StartsAtRoot(s.procs[slot].path) || |s.stack| >= MAX_DEPTH
    ensures RunSlot(s, slot, image) == (SetProc(s, slot, EndRun(s.procs[slot], s.now, FAILED)), None)
  {
    hide SetProc, EndRun, StartsAtRoot;
  }

  lemma RunSlotFails(s: State, slot: nat, image: Image)
    requires slot < |s.procs| && s.procs[slot].used && StartsAtRoot(s.procs[slot].path) && |s.stack| < MAX_DEPTH
    requires !image.Runs?
    ensures RunSlot(s, slot, image) == (FailRun(Push(s, slot), slot), None)
  {
    hide FailRun, Push, StartsAtRoot, RunStatus;
  }

  lemma RunSlotRuns(s: State, slot: nat, image: Image)
    requires slot < |s.procs| && s.procs[slot].used && StartsAtRoot(s.procs[slot].path) && |s.stack| < MAX_DEPTH
    requires image.Runs?
    ensures var left := DoCalls(Push(s, slot).(running := s.running + 1), image.body);
            && left.running > 0 && slot < |left.procs| && left.stack != [] && left.slots != []
            && RunSlot(s, slot, image)
               == (Finish(left.(running := left.running - 1), slot, image.ret), Some(RunStatus(Top(left), image.ret)))
  {
    hide Finish, Push, StartsAtRoot, DoCalls, RunStatus;
  }

  /** From the frame on the stack through user code to the end of the run. */
  function Through(s: State, slot: nat, body: Calls, ret: nat): (State, nat)
    requires slot < |s.procs| && s.stack != [] && s.slots != []
  {
    hide Finish, RunStatus;
    var left := DoCalls(s.(running := s.running + 1), body);
    (Finish(left.(running := left.running - 1), slot, ret), RunStatus(Top(left), ret))
  }

  lemma RunSlotThrough(s: State, slot: nat, image: Image)
    requires slot < |s.procs| && s.procs[slot].used && StartsAtRoot(s.procs[slot].path) && |s.stack| < MAX_DEPTH
    requires image.Runs?
    ensures var (r, status) := Through(Push(s, slot), slot, image.body, image.ret);
            RunSlot(s, slot, image) == (r, Some(status))
  {
    hide Finish, Push, StartsAtRoot, DoCalls, RunStatus, RunSlot;
    RunSlotRuns(s, slot, image);
  }
}
