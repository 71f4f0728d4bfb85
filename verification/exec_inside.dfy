/** The states that a run passes through, at every depth of nesting (clks/kernel/exec.c). */
module ExecInside {
  import opened Machine
  import opened ExecState
  import opened ExecSafety
  import opened ExecLibs

  /** `t` is a state between two operations while the calls `cs` are served from `s`. */
  ghost predicate Inside(s: State, cs: Calls, t: State)
    decreases cs
  {
    t == s || (cs.Then? && (InsideCall(s, cs.call, t) || Inside(DoCall(s, cs.call), cs.rest, t)))
  }

  /** `t` belongs to a program that call `c` starts. */
  ghost predicate InsideCall(s: State, c: Call, t: State)
    decreases c
  {
    match c
    case Run(path, stdioOk, image) =>
      && StartsAtRoot(path) && AllocSlot(s.procs) < |s.procs| && stdioOk
      && InsideRun(Added(s, path), AllocSlot(s.procs), image, t)
    case Wait(pid, image) =>
      !s.dispatching && IsPending(s, FindPid(s.procs, pid)) && InsideRun(Busy(s), FindPid(s.procs, pid), image, t)
    case Yield(image) =>
      !s.dispatching && IsPending(s, FirstIn(s.procs, Pending)) && InsideRun(Busy(s), FirstIn(s.procs, Pending), image, t)
    case _ => false
  }

  predicate IsPending(s: State, slot: nat) {
    slot < |s.procs| && s.procs[slot].used && s.procs[slot].phase == Pending
  }

  function Busy(s: State): State {
    s.(dispatching := true)
  }

  /** The state in which a program that is run at once has its record. */
  function Added(s: State, path: string): (r: State)
    requires AllocSlot(s.procs) < |s.procs|
    ensures |r.procs| == |s.procs|
  {
    AddProc(s, AllocSlot(s.procs), path, Running)
  }

  /** `t` is passed through by the program that runs in `slot`. */
  ghost predicate InsideRun(s: State, slot: nat, image: Image, t: State)
    requires slot < |s.procs|
    decreases image
  {
    && s.procs[slot].used && StartsAtRoot(s.procs[slot].path) && |s.stack| < MAX_DEPTH && image.Runs?
    && Inside(Started(s, slot), image.body, t)
  }

  /** The state in which user code begins. */
  function Started(s: State, slot: nat): (r: State)
    requires slot < |s.procs|
    ensures |r.procs| == |s.procs| && r.libs == s.libs && r.freed == s.freed && r.stack != [] && r.slots != []
    ensures CurrentPid(r) == s.procs[slot].pid
  {
    Push(s, slot).(running := s.running + 1)
  }

  /** The processes of `s` are still at the bottom of the stack of `t`, with the requests that
      they had; only the innermost one of them may have made new ones. */
  ghost predicate Above(s: State, t: State) {
    && |s.stack| <= |t.stack| && |s.slots| <= |t.slots| && t.slots[..|s.slots|] == s.slots
    && (s.stack != [] ==> t.stack[..|s.stack|-1] == s.stack[..|s.stack|-1] && t.stack[|s.stack|-1].pid == Top(s).pid)
  }

  // ----- what holds inside -----

  lemma {:induction false} InsideOk(s: State, cs: Calls, t: State)
    requires ProcsOk(s, MAX_PROCS) && LibsOk(s) && Inside(s, cs, t)
    ensures ProcsOk(t, MAX_PROCS) && LibsOk(t) && Above(s, t) && Later(s, t)
    decreases cs
  {
    hide ProcsOk, LibsOk, DoCall, InsideCall, Above, Later;
    if t == s {
      AboveSame(s);
      LaterSame(s, s);
    } else if InsideCall(s, cs.call, t) {
      InsideCallOk(s, cs.call, t);
    } else {
      DoCallOk(s, cs.call);
      DoCallLibs(s, cs.call);
      InsideOk(DoCall(s, cs.call), cs.rest, t);
      AboveBalanced(s, DoCall(s, cs.call), t);
      LaterTwice(s, DoCall(s, cs.call), t);
    }
  }

  lemma AboveSame(s: State)
    ensures Above(s, s)
  {
  }

  lemma AboveBalanced(s: State, m: State, t: State)
    requires Balanced(s, m) && Above(m, t)
    ensures Above(s, t)
  {
  }

  /** What is above a frame that was pushed on `s` is above `s` itself. */
  lemma AbovePushed(s: State, slot: nat, t: State)
    requires slot < |s.procs| && Above(Started(s, slot), t)
    ensures Above(s, t)
  {
    var m := Started(s, slot);
    assert m.stack[..|m.stack|-1] == s.stack && m.slots[..|s.slots|] == s.slots;
    assert t.slots[..|s.slots|] == t.slots[..|m.slots|][..|s.slots|];
    if s.stack != [] {
      assert t.stack[..|s.stack|] == s.stack;
      assert t.stack[..|s.stack|-1] == t.stack[..|s.stack|][..|s.stack|-1];
      assert t.stack[|s.stack|-1] == t.stack[..|s.stack|][|s.stack|-1];
    }
  }

  /** The states of a started program lie above the one that made the call. */
  lemma {:induction false} InsideRunOk(s: State, slot: nat, image: Image, entering: nat, t: State)
    requires LibsOk(s) && ProcsOk(s, entering) && slot < |s.procs| && s.procs[slot].used && slot !in s.slots
    requires if s.procs[slot].phase == Pending then entering == MAX_PROCS else entering == slot
    requires InsideRun(s, slot, image, t)
    ensures ProcsOk(t, MAX_PROCS) && LibsOk(t) && Above(s, t) && Later(s, t)
    decreases image, 0
  {
    hide ProcsOk, LibsOk, Inside, Above, Push, Later, Stacked, StartsAtRoot;
    var entered := Push(s, slot);
    PushOk(s, slot, entering);
    FlagsOk(entered, s.running + 1, s.dispatching);
    StackedByPid(s, Started(s, slot));
    LibsSame(s, Started(s, slot));
    InsideOk(Started(s, slot), image.body, t);
    AbovePushed(s, slot, t);
    LaterTwice(s, entered, Started(s, slot));
    LaterTwice(s, Started(s, slot), t);
  }

  lemma {:induction false} InsideCallOk(s: State, c: Call, t: State)
    requires ProcsOk(s, MAX_PROCS) && LibsOk(s) && InsideCall(s, c, t)
    ensures ProcsOk(t, MAX_PROCS) && LibsOk(t) && Above(s, t) && Later(s, t)
    decreases c
  {
    hide ProcsOk, LibsOk, InsideRun, Above, Later, Stacked, AllocSlot;
    match c
    case Run(path, stdioOk, image) =>
      var slot := AllocSlot(s.procs);
      var r := AddProc(s, slot, path, Running);
      AddOk(s, path, Running);
      StackedByPid(s, r);
      LibsSame(s, r);
      InsideRunOk(r, slot, image, slot, t);
      AboveFlags(s, r, t);
      LaterTwice(s, r, t);
    case Wait(pid, image) => InsideDispatchOk(s, FindPid(s.procs, pid), image, t);
    case Yield(image) => InsideDispatchOk(s, FirstIn(s.procs, Pending), image, t);
  }

  lemma {:induction false} InsideDispatchOk(s: State, slot: nat, image: Image, t: State)
    requires ProcsOk(s, MAX_PROCS) && LibsOk(s) && slot < |s.procs|
    requires IsPending(s, slot) && InsideRun(Busy(s), slot, image, t)
    ensures ProcsOk(t, MAX_PROCS) && LibsOk(t) && Above(s, t) && Later(s, t)
    decreases image, 1
  {
    hide ProcsOk, LibsOk, InsideRun, Above, Later, Stacked;
    var inside := s.(dispatching := true);
    FlagsOk(s, s.running, true);
    StackedByPid(s, inside);
    LibsSame(s, inside);
    PendingNotStacked(s, slot);
    InsideRunOk(inside, slot, image, MAX_PROCS, t);
    AboveFlags(s, inside, t);
    LaterTwice(s, inside, t);
  }

  lemma AboveFlags(s: State, m: State, t: State)
    requires m.stack == s.stack && m.slots == s.slots && Above(m, t)
    ensures Above(s, t)
  {
  }

  // ----- what this means for every state that is ever reached -----

  /** `t` is a state between two operations, at any depth, of some run from `s`. */
  ghost predicate Reaches(s: State, t: State) {
    exists cs :: Inside(s, cs, t)
  }

  lemma ReachedOk(t: State)
    requires Reaches(INITIAL, t)
    ensures ProcsOk(t, MAX_PROCS) && LibsOk(t)
  {
    hide ProcsOk, LibsOk, Inside, Above;
    var cs :| Inside(INITIAL, cs, t);
    InitialOk();
    InsideOk(INITIAL, cs, t);
  }

  lemma InitialOk()
    ensures ProcsOk(INITIAL, MAX_PROCS) && LibsOk(INITIAL)
  {
  }

  /** At every point between operations of every run, a process is marked as running exactly when
      its pid is on the stack; the pids there are distinct, at most 16, and the record of the
      current process exists. */
  lemma RunningIffStacked(t: State)
    requires Reaches(INITIAL, t)
    ensures |t.stack| <= MAX_DEPTH
    ensures forall j, k :: 0 <= j < k < |t.stack| ==> t.stack[j].pid != t.stack[k].pid
    ensures forall i :: 0 <= i < |t.procs| && t.procs[i].used ==> (t.procs[i].phase == Running <==> Stacked(t, t.procs[i].pid))
    ensures t.stack != [] ==> HasCurrent(t) && t.procs[FindPid(t.procs, CurrentPid(t))].phase == Running
  {
    hide ProcsOk, LibsOk, Reaches, Stacked;
    ReachedOk(t);
    StackFacts(t);
  }

  /** At every point the processes of the table have different pids, each has made only legal
      moves, and its phase is where the last one led. */
  lemma PhasesAreLegal(t: State, i: nat)
    requires Reaches(INITIAL, t) && i < |t.procs| && t.procs[i].used
    ensures LastPhase(t.log, t.procs[i].pid) == t.procs[i].phase
    ensures forall m :: m in t.log ==> Legal(m.from, m.to)
    ensures forall j :: 0 <= j < |t.procs| && j != i && t.procs[j].used ==> t.procs[j].pid != t.procs[i].pid
  {
    ReachedOk(t);
    assert ProcOk(t, i, MAX_PROCS);
  }

  /** At every point an open library belongs to a process that is running, and no two slots are
      for the same owner and path. */
  lemma OwnersAreRunning(t: State, i: nat)
    requires Reaches(INITIAL, t) && i < |t.libs| && t.libs[i].used
    ensures Stacked(t, t.libs[i].owner)
    ensures FindPid(t.procs, t.libs[i].owner) < |t.procs| && t.procs[FindPid(t.procs, t.libs[i].owner)].phase == Running
    ensures forall j :: 0 <= j < |t.libs| && j != i && t.libs[j].used ==>
              !(t.libs[j].owner == t.libs[i].owner && t.libs[j].path == t.libs[i].path)
  {
    hide ProcsOk, Reaches, Stacked;
    ReachedOk(t);
    OwnerRuns(t, i);
  }

  /** At every point each image ever loaded is either open or freed, and was freed at most once. */
  lemma ImagesOnceFreed(t: State, x: nat)
    requires Reaches(INITIAL, t)
    ensures x < t.images <==> x in t.freed || Loaded(t.libs, x)
    ensures !(x in t.freed && Loaded(t.libs, x)) && Distinct(t.freed)
  {
    hide ProcsOk, Reaches;
    ReachedOk(t);
    if Loaded(t.libs, x) {
      var i :| 0 <= i < |t.libs| && t.libs[i].used && t.libs[i].image == x;
      assert LibOk(t, t.libs[i]);
    }
  }

  /** The end of a run is one of its states. */
  lemma {:induction false} EndIsInside(s: State, cs: Calls)
    ensures Inside(s, cs, DoCalls(s, cs))
    decreases cs
  {
    hide DoCall, InsideCall;
    if cs.Then? { EndIsInside(DoCall(s, cs.call), cs.rest); }
  }

  /** While the calls of a process are served, at any depth, every process below it keeps its
      slot, its phase and its requests. */
  lemma LowerFramesStay(s: State, cs: Calls, t: State, k: nat)
    requires Reaches(INITIAL, s) && Inside(s, cs, t) && k < |s.stack|
    ensures k < |s.slots| && k < |t.stack| && s.slots[k] < |t.procs|
    ensures t.procs[s.slots[k]].used && t.procs[s.slots[k]].pid == s.stack[k].pid == t.stack[k].pid
    ensures t.procs[s.slots[k]].phase == Running && FindPid(t.procs, s.stack[k].pid) == s.slots[k]
    ensures k + 1 < |s.stack| ==> t.stack[k] == s.stack[k]
  {
    hide Inside, Reaches, LogOk, TimeOk, LibsOk;
    ReachedOk(s);
    InsideOk(s, cs, t);
    assert t.slots[..|s.slots|][k] == s.slots[k];
    if k + 1 < |s.stack| { assert t.stack[..|s.stack|-1][k] == s.stack[..|s.stack|-1][k]; }
    assert ProcOk(t, s.slots[k], MAX_PROCS);
    FindPidIs(t.procs, s.stack[k].pid, s.slots[k]);
  }

  /** From any point of a run on, at any depth, a process that has exited stays as it is, and the
      reported runtime of every process goes up, but not beyond the time since its first start. */
  lemma RecordsGoOn(s: State, cs: Calls, t: State, pid: nat)
    requires Reaches(INITIAL, s) && Inside(s, cs, t) && pid < s.nextPid
    ensures var i := FindPid(t.procs, pid);
            i < |t.procs| ==>
              && i == FindPid(s.procs, pid) < |s.procs|
              && (s.procs[i].phase == Exited ==> t.procs[i] == s.procs[i])
              && RuntimeOf(s.procs[i], s.now) <= RuntimeOf(t.procs[i], t.now)
              && (t.procs[i].started != 0 ==> RuntimeOf(t.procs[i], t.now) <= t.now - t.procs[i].started)
  {
    hide Inside, Reaches, LogOk, LibsOk;
    var i := FindPid(t.procs, pid);
    ReachedOk(s);
    InsideOk(s, cs, t);
    if i < |t.procs| {
      assert LaterProc(s.procs[i], t.procs[i], s.nextPid, s.now, t.now);
      FindPidIs(s.procs, pid, i);
      assert ProcOk(t, i, MAX_PROCS);
    }
  }
}
