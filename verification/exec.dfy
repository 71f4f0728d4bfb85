/** The process executor (clks/kernel/exec.c) with its tables updated in place. */
module Exec {
  import opened Machine
  import opened ExecState

  class Kernel {
    const procs: array<Proc>
    const frames: array<Frame>
    var depth: nat
    var running: nat
    var dispatching: bool
    var nextPid: nat
    var now: nat
    const libs: array<Lib>
    var nextHandle: nat
    /** Stands for the addresses of the library images that have been loaded. */
    var images: nat

    ghost var slots: seq<nat>
    ghost var log: seq<Move>
    ghost var freed: seq<nat>

    ghost predicate Valid()
      reads this
    {
      procs.Length == MAX_PROCS && frames.Length == MAX_DEPTH && libs.Length == MAX_LIBS && depth <= MAX_DEPTH && |slots| == depth
    }

    ghost function View(): State
      reads this, procs, frames, libs
      requires depth <= frames.Length
    {
      State(procs[..], frames[..depth], running, dispatching, nextPid, now, libs[..], nextHandle, slots, log, images, freed)
    }

    /** clks_exec_init */
    constructor ()
      ensures Valid() && fresh(procs) && fresh(frames) && fresh(libs)
      ensures View() == State(seq(MAX_PROCS, _ => BLANK), [], 0, false, 1, 0, seq(MAX_LIBS, _ => NO_LIB), 1, [], [], 0, [])
    {
      procs := new Proc[MAX_PROCS](i => BLANK);
      frames := new Frame[MAX_DEPTH](i => Frame(0, false, 0, false));
      libs := new Lib[MAX_LIBS](i => NO_LIB);
      depth, running, dispatching, nextPid, now, nextHandle, images := 0, 0, false, 1, 0, 1, 0;
      slots, log, freed := [], [], [];
      new;
      assert procs[..] == seq(MAX_PROCS, _ => BLANK);
      assert libs[..] == seq(MAX_LIBS, _ => NO_LIB);
    }

    // ----- table searches -----

    /** clks_exec_proc_find_slot_by_pid */
    method FindSlotByPid(pid: nat) returns (r: int)
      requires Valid()
      ensures r == if FindPid(procs[..], pid) < MAX_PROCS then FindPid(procs[..], pid) else -1
    {
      var i := 0;
      while i < MAX_PROCS
        invariant 0 <= i <= MAX_PROCS && forall j :: 0 <= j < i ==> !(procs[j].used && procs[j].pid == pid)
      {
        if procs[i].used && procs[i].pid == pid {
          FindPidIs(procs[..], pid, i);
          return i;
        }
        i := i + 1;
      }
      FindPidIs(procs[..], pid, MAX_PROCS);
      return -1;
    }

    method FirstSlotIn(f: Phase) returns (r: int)
      requires Valid()
      ensures r == if FirstIn(procs[..], f) < MAX_PROCS then FirstIn(procs[..], f) else -1
    {
      var i := 0;
      while i < MAX_PROCS
        invariant 0 <= i <= MAX_PROCS && forall j :: 0 <= j < i ==> !InPhase(procs[j], f)
      {
        if InPhase(procs[i], f) {
          FirstInIs(procs[..], f, i);
          return i;
        }
        i := i + 1;
      }
      FirstInIs(procs[..], f, MAX_PROCS);
      return -1;
    }

    /** clks_exec_proc_alloc_slot */
    method AllocProcSlot() returns (r: int)
      requires Valid()
      ensures r == if AllocSlot(procs[..]) < MAX_PROCS then AllocSlot(procs[..]) else -1
    {
      r := FirstSlotIn(Unused);
      if r >= 0 {
        return;
      }
      r := FirstSlotIn(Exited);
    }

    /** clks_exec_current_pid */
    method CurrentPidOf() returns (pid: nat)
      requires Valid()
      ensures pid == CurrentPid(View())
    {
      pid := if depth == 0 then 0 else frames[depth-1].pid;
    }

    // ----- records and frames -----

    method Store(slot: nat, p: Proc)
      requires Valid() && slot < MAX_PROCS
      modifies procs, this`log
      ensures Valid() && View() == SetProc(old(View()), slot, p)
    {
      ghost var was := View();
      log := SetProc(was, slot, p).log;
      procs[slot] := p;
      assert procs[..] == was.procs[slot := p];
    }

    /** clks_exec_alloc_pid and clks_exec_prepare_proc_record */
    method Prepare(slot: nat, path: string, phase: Phase) returns (pid: nat)
      requires Valid() && slot < MAX_PROCS
      modifies procs, this`log, this`nextPid
      ensures Valid() && View() == AddProc(old(View()), slot, path, phase) && pid == old(nextPid)
    {
      ghost var was := View();
      pid := nextPid;
      var parent := CurrentPidOf();
      nextPid := nextPid + 1;
      procs[slot] := NewProc(pid, parent, path, phase);
      log := log + [Move(pid, Unused, phase)];
      assert procs[..] == was.procs[slot := procs[slot]];
    }

    method Ask(f: Frame)
      requires Valid() && depth > 0
      modifies frames
      ensures Valid() && View() == SetTop(old(View()), f)
    {
      ghost var was := View();
      frames[depth-1] := f;
      assert frames[..depth] == was.stack[depth-1 := f];
    }

    /** clks_exec_request_exit */
    method RequestExit(status: nat) returns (ok: bool)
      requires Valid()
      modifies frames
      ensures Valid() && View() == DoExit(old(View()), status) && ok == (depth > 0)
    {
      if depth == 0 {
        return false;
      }
      Ask(frames[depth-1].(exitAsked := true, exitStatus := status));
      return true;
    }

    /** clks_exec_spawn_pathv */
    method SpawnPath(path: string) returns (r: Option<nat>)
      requires Valid()
      modifies procs, this`log, this`nextPid
      ensures Valid() && View() == DoSpawn(old(View()), path)
      ensures r.Some? ==> r.value == old(nextPid)
      ensures r.Some? <==> StartsAtRoot(path) && AllocSlot(old(procs[..])) < MAX_PROCS
    {
      hide AllocSlot, AddProc;
      if path == "" || path[0] != '/' {
        return None;
      }
      var slot := AllocProcSlot();
      if slot < 0 {
        return None;
      }
      var pid := Prepare(slot, path, Pending);
      return Some(pid);
    }

    /** clks_exec_proc_kill */
    method ProcKill(pid: nat, signal: nat) returns (code: nat)
      requires Valid()
      modifies procs, frames, this`log
      ensures Valid() && (View(), code) == DoKill(old(View()), pid, signal)
    {
      hide SetProc, SetTop, EndRun, SignalStatus, FindPid, View;
      TopFrame();
      if pid == 0 {
        return FAILED;
      }
      var slot := FindSlotByPid(pid);
      if slot < 0 {
        return FAILED;
      }
      var sig := if signal == 0 then TERM else signal % 0x100;
      var status := SignalStatus(sig, 0, 0);
      if procs[slot].phase == Exited {
        return 1;
      }
      var told := procs[slot].(lastSignal := sig);
      if sig == CONT {
        Store(slot, if told.phase == Stopped then told.(phase := Pending) else told);
        return 1;
      }
      if sig == STOP {
        if told.phase == Pending {
          Store(slot, told.(phase := Stopped));
          return 1;
        }
        if told.phase == Stopped {
          Store(slot, told);
          return 1;
        }
      }
      if told.phase == Pending || told.phase == Stopped {
        Store(slot, EndRun(told, now, status));
        return 1;
      }
      Store(slot, told);
      TopFrame();
      if told.phase == Running {
        var current := CurrentPidOf();
        if depth == 0 || current != pid {
          return 0;
        }
        var f := frames[depth-1];
        Ask(f.(exitAsked := true, exitStatus := status, stopAsked := sig == STOP || f.stopAsked));
        return 1;
      }
      return 0;
    }

    /** What View shows of the table and the innermost frame. */
    lemma TopFrame()
      requires Valid()
      ensures View().procs == procs[..] && View().now == now && |View().stack| == depth
      ensures depth > 0 ==> Top(View()) == frames[depth-1]
    {
    }

    /** clks_exec_handle_exception, for a fault in the code of the running program */
    method HandleException(vector: nat, error: nat) returns (ok: bool)
      requires Valid()
      modifies procs, frames, this`log
      ensures Valid() && View() == DoFault(old(View()), vector, error)
      ensures ok == (running > 0 && depth > 0 && FindPid(old(procs[..]), CurrentPid(old(View()))) < MAX_PROCS
                     && IsUserProgram(old(procs[FindPid(procs[..], CurrentPid(View()))]).path))
    {
      hide SetProc, SetTop, SignalStatus, FindPid, View, SignalOf, IsUserProgram;
      TopFrame();
      RunningIs();
      if running == 0 || depth == 0 {
        return false;
      }
      var pid := CurrentPidOf();
      var slot := FindSlotByPid(pid);
      if slot < 0 || !IsUserProgram(procs[slot].path) {
        return false;
      }
      var signal := SignalOf(vector);
      Store(slot, procs[slot].(lastSignal := signal));
      TopFrame();
      Ask(frames[depth-1].(exitAsked := true, exitStatus := SignalStatus(signal, vector, error)));
      return true;
    }

    lemma RunningIs()
      requires Valid()
      ensures View().running == running
    {
    }

    // ----- libraries -----

    /** clks_exec_dl_open */
    method OpenLib(path: string, loads: bool) returns (handle: Option<nat>)
      requires Valid()
      modifies libs, this`nextHandle, this`images
      ensures Valid() && View() == DoDlOpen(old(View()), path, loads)
      ensures handle == None ==> View() == old(View())
      ensures handle.Some? ==> var i := FindLib(libs[..], CurrentPid(View()), path); i < MAX_LIBS && libs[i].handle == handle.value
    {
      hide FindPid, FindLib, FreeLib;
      ghost var was := View();
      var pid := CurrentPidOf();
      var current := FindSlotByPid(pid);
      if depth == 0 || current < 0 || path == "" || path[0] != '/' || |path| >= 192 {
        return None;
      }
      var i := 0;
      while i < MAX_LIBS
        invariant 0 <= i <= MAX_LIBS && forall j :: 0 <= j < i ==> !(libs[j].used && libs[j].owner == pid && libs[j].path == path)
      {
        if libs[i].used && libs[i].owner == pid && libs[i].path == path {
          libs[i] := libs[i].(refs := libs[i].refs + 1);
          assert libs[..] == was.libs[i := libs[i]];
          return Some(libs[i].handle);
        }
        i := i + 1;
      }
      i := 0;
      while i < MAX_LIBS && libs[i].used
        invariant 0 <= i <= MAX_LIBS && forall j :: 0 <= j < i ==> libs[j].used
      {
        i := i + 1;
      }
      FreeLibIs(libs[..], i);
      if i == MAX_LIBS || !loads {
        return None;
      }
      libs[i] := Lib(true, nextHandle, pid, 1, path, images);
      handle := Some(nextHandle);
      nextHandle, images := nextHandle + 1, images + 1;
      assert libs[..] == was.libs[i := libs[i]];
    }

    lemma FreeLibIs(ls: seq<Lib>, i: nat)
      requires i <= |ls| && (i < |ls| ==> !ls[i].used) && forall j :: 0 <= j < i ==> ls[j].used
      ensures FreeLib(ls) == i
    {
    }

    /** clks_exec_dl_close */
    method CloseLib(handle: nat) returns (ok: bool)
      requires Valid()
      modifies libs, this`freed
      ensures Valid() && View() == DoDlClose(old(View()), handle)
      ensures ok == (old(HasCurrent(View())) && handle != 0 && FindHandle(old(libs[..]), handle) < MAX_LIBS
                     && old(libs[FindHandle(libs[..], handle)]).owner == CurrentPid(old(View())))
    {
      hide FindPid, FindHandle;
      ghost var was := View();
      var pid := CurrentPidOf();
      var current := FindSlotByPid(pid);
      if depth == 0 || current < 0 || handle == 0 {
        return false;
      }
      var i := 0;
      while i < MAX_LIBS && !(libs[i].used && libs[i].handle == handle)
        invariant 0 <= i <= MAX_LIBS && forall j :: 0 <= j < i ==> !(libs[j].used && libs[j].handle == handle)
      {
        i := i + 1;
      }
      if i == MAX_LIBS || libs[i].owner != pid {
        return false;
      }
      if libs[i].refs > 1 {
        libs[i] := libs[i].(refs := libs[i].refs - 1);
        assert libs[..] == was.libs[i := libs[i]];
        return true;
      }
      freed := freed + [libs[i].image];
      libs[i] := NO_LIB;
      assert libs[..] == was.libs[i := NO_LIB];
      return true;
    }

    /** clks_exec_dynlib_release_owner */
    method ReleaseOwner(owner: nat)
      requires Valid()
      modifies libs, this`freed
      ensures Valid() && View() == Release(old(View()), owner)
    {
      if owner == 0 {
        return;
      }
      ghost var was := View();
      var i := 0;
      assert was.libs[0..] == was.libs;
      while i < MAX_LIBS
        invariant 0 <= i <= MAX_LIBS && Valid()
        invariant forall j :: 0 <= j < MAX_LIBS ==> libs[j] == if j < i && Belongs(was.libs[j], owner) then NO_LIB else was.libs[j]
        invariant freed + ImagesOf(was.libs[i..], owner) == was.freed + ImagesOf(was.libs, owner)
        invariant View() == was.(libs := libs[..], freed := freed)
      {
        assert was.libs[i..][1..] == was.libs[i+1..];
        if libs[i].used && libs[i].owner == owner {
          freed := freed + [libs[i].image];
          libs[i] := NO_LIB;
        }
        i := i + 1;
      }
      assert was.libs[i..] == [];
      assert libs[..] == WithoutOwner(was.libs, owner);
    }

    // ----- nested execution -----

    /** The entry of clks_exec_run_proc_slot: the record is marked as running, and a frame for
        it is pushed. */
    method Enter(slot: nat)
      requires Valid() && slot < MAX_PROCS && depth < MAX_DEPTH
      modifies this`depth, this`slots, this`log, procs, frames
      ensures Valid() && View() == Push(old(View()), slot)
    {
      hide StartRun;
      ghost var was := View();
      var pid := procs[slot].pid;
      Store(slot, StartRun(procs[slot], now));
      frames[depth] := Frame(pid, false, 0, false);
      depth := depth + 1;
      slots := slots + [slot];
      assert frames[..depth] == was.stack + [Frame(pid, false, 0, false)];
    }

    /** The end of clks_exec_run_proc_slot: the record gets its last phase, the libraries of the
        process go, and its frame is popped. */
    method Leave(slot: nat, p: Proc)
      requires Valid() && slot < MAX_PROCS && depth > 0
      modifies this`depth, this`slots, this`log, this`freed, procs, frames, libs
      ensures Valid() && View() == Pop(Release(SetProc(old(View()), slot, p), old(procs[slot]).pid))
    {
      hide Release, SetProc;
      ghost var was := View();
      var pid := procs[slot].pid;
      Store(slot, p);
      ReleaseOwner(pid);
      ghost var released := View();
      frames[depth-1] := frames[depth-1].(stopAsked := false);
      depth := depth - 1;
      slots := slots[..|slots|-1];
      assert frames[..depth] == released.stack[..|released.stack|-1];
    }

    /** What clks_exec_run_proc_slot does after user code has returned. */
    method Return(slot: nat, ret: nat) returns (status: nat)
      requires Valid() && slot < MAX_PROCS && depth > 0 && running > 0
      modifies this, procs, frames, libs
      ensures Valid() && status == RunStatus(Top(old(View())), ret)
      ensures View() == Finish(old(View()).(running := old(running) - 1), slot, ret)
    {
      hide SetProc, EndRun, StopRun, Pop, Release;
      TopFrame();
      if running > 0 {
        running := running - 1;
      }
      var f := frames[depth-1];
      status := if f.exitAsked then f.exitStatus else ret;
      if f.stopAsked {
        Leave(slot, StopRun(procs[slot], now, status));
      } else {
        Leave(slot, EndRun(procs[slot], now, status));
      }
    }

    /** clks_exec_run_proc_slot */
    method RunProcSlot(slot: nat, image: Image) returns (r: Option<nat>)
      requires Valid() && slot < MAX_PROCS
      modifies this, procs, frames, libs
      ensures Valid() && (View(), r) == RunSlot(old(View()), slot, image)
      decreases image, 0
    {
      hide SetProc, EndRun, StopRun, Push, Pop, Release, DoCalls, StartsAtRoot, RunSlot, Finish, View, RunStatus, Through;
      ghost var was := View();
      TopFrame();
      if !procs[slot].used {
        UnusedSlot(was, slot, image);
        return None;
      }
      if !StartsAtRoot(procs[slot].path) {
        RunSlotRejects(was, slot, image);
        Store(slot, EndRun(procs[slot], now, FAILED));
        return None;
      }
      if depth >= MAX_DEPTH {
        RunSlotRejects(was, slot, image);
        Store(slot, EndRun(procs[slot], now, FAILED));
        return None;
      }
      Enter(slot);
      TopFrame();
      if !image.Runs? {
        RunSlotFails(was, slot, image);
        FailLoaded(slot, image);
        return None;
      }
      RunSlotThrough(was, slot, image);
      var status := RunProgram(slot, image.body, image.ret);
      return Some(status);
    }

    method RunProgram(slot: nat, body: Calls, ret: nat) returns (status: nat)
      requires Valid() && slot < MAX_PROCS && depth > 0
      modifies this, procs, frames, libs
      ensures Valid() && (View(), status) == Through(old(View()), slot, body, ret)
      decreases body, 1
    {
      hide DoCalls, Finish, RunStatus;
      running := running + 1;
      ServeAll(body);
      status := Return(slot, ret);
    }

    lemma UnusedSlot(s: State, slot: nat, image: Image)
      requires slot < |s.procs| && !s.procs[slot].used
      ensures RunSlot(s, slot, image) == (s, None)
    {
    }

    /** The failure exit, from before or after the program has been counted as running. */
    method FailLoaded(slot: nat, image: Image)
      requires Valid() && slot < MAX_PROCS && depth > 0 && !image.Runs?
      modifies this, procs, frames, libs
      ensures Valid() && View() == FailRun(old(View()), slot)
    {
      hide SetProc, EndRun, Pop, Release;
      if image.NoStack? {
        running := running + 1;
        if running > 0 {
          running := running - 1;
        }
      }
      Leave(slot, EndRun(procs[slot], now, FAILED));
    }

    /** clks_exec_dispatch_pending_once */
    method DispatchPendingOnce(image: Image) returns (ran: bool)
      requires Valid()
      modifies this, procs, frames, libs
      ensures Valid() && View() == DoYield(old(View()), image)
      ensures ran == (!old(dispatching) && FirstIn(old(procs[..]), Pending) < MAX_PROCS)
      decreases image, 2
    {
      hide RunSlot, FirstIn;
      if dispatching {
        return false;
      }
      var slot := FirstSlotIn(Pending);
      if slot < 0 {
        return false;
      }
      dispatching := true;
      var ignored := RunProcSlot(slot, image);
      dispatching := false;
      return true;
    }

    /** clks_exec_wait_pid */
    method WaitPid(pid: nat, image: Image) returns (code: nat, status: nat)
      requires Valid()
      modifies this, procs, frames, libs
      ensures Valid() && (View(), code, status) == DoWait(old(View()), pid, image)
      decreases image, 2
    {
      hide RunSlot, FindPid;
      var slot := FindSlotByPid(pid);
      if slot < 0 {
        return FAILED, 0;
      }
      if procs[slot].phase == Pending && !dispatching {
        dispatching := true;
        var ignored := RunProcSlot(slot, image);
        dispatching := false;
      }
      if procs[slot].phase == Pending || procs[slot].phase == Running || procs[slot].phase == Stopped {
        return 0, 0;
      }
      if procs[slot].phase != Exited {
        return FAILED, 0;
      }
      return 1, procs[slot].status;
    }

    /** clks_exec_run_path_internal */
    method RunPath(path: string, stdioOk: bool, image: Image) returns (r: Option<nat>)
      requires Valid()
      modifies this, procs, frames, libs
      ensures Valid() && (View(), r) == DoRun(old(View()), path, stdioOk, image)
      decreases image, 2
    {
      hide RunSlot, AllocSlot;
      if path == "" || path[0] != '/' {
        return None;
      }
      var slot := AllocProcSlot();
      if slot < 0 {
        return None;
      }
      if !stdioOk {
        ghost var was := View();
        procs[slot] := BLANK;
        nextPid := nextPid + 1;
        assert procs[..] == was.procs[slot := BLANK];
        return None;
      }
      var pid := Prepare(slot, path, Running);
      r := RunProcSlot(slot, image);
    }

    /** One system call of user code, or a tick of the clock. */
    method Serve(c: Call)
      requires Valid()
      modifies this, procs, frames, libs
      ensures Valid() && View() == DoCall(old(View()), c)
      decreases c
    {
      hide DoRun, DoSpawn, DoWait, DoYield, DoKill, DoExit, DoFault, DoDlOpen, DoDlClose;
      match c
      case Advance(n) => now := now + n;
      case Run(path, stdioOk, image) => var _ := RunPath(path, stdioOk, image);
      case Spawn(path) => var _ := SpawnPath(path);
      case Wait(pid, image) => var _, _ := WaitPid(pid, image);
      case Yield(image) => var _ := DispatchPendingOnce(image);
      case Kill(pid, signal) => var _ := ProcKill(pid, signal);
      case Exit(status) => var _ := RequestExit(status);
      case Fault(vector, error) => var _ := HandleException(vector, error);
      case DlOpen(path, loads) => var _ := OpenLib(path, loads);
      case DlClose(handle) => var _ := CloseLib(handle);
    }

    /** clks_exec_invoke_entry: user code, as the calls that it makes */
    method ServeAll(cs: Calls)
      requires Valid()
      modifies this, procs, frames, libs
      ensures Valid() && View() == DoCalls(old(View()), cs)
      decreases cs, 0
    {
      hide DoCall;
      if cs.Then? {
        Serve(cs.call);
        ServeAll(cs.rest);
      }
    }
  }
}
