/** The round-robin scheduler (clks/kernel/scheduler.c). */
module Scheduler {
  import opened Machine

  const MAX_TASKS: nat := 16
  const MIN_SLICE: nat := 1

  // ----- turns as a value -----

  /** Slices and tick counts of all tasks, and how long the current one may still run. */
  datatype Turns = Turns(slices: seq<nat>, current: nat, left: nat, ticks: seq<nat>)

  ghost predicate Fair(s: Turns) {
    && 0 < |s.slices| == |s.ticks| && s.current < |s.slices|
    && (forall i :: 0 <= i < |s.slices| ==> s.slices[i] >= 1)
    && 1 <= s.left <= s.slices[s.current]
  }

  /** A position counted on around a table of `n`. */
  function Wrap(a: nat, n: nat): (r: nat)
    requires a < 2 * n
    ensures r < n
  {
    if a < n then a else a - n
  }

  /** This is what the remainder gives. */
  lemma WrapIsMod(a: nat, n: nat)
    requires a < 2 * n
    ensures a % n == Wrap(a, n)
  {
    if a >= n { assert a % n == (a - n) % n; }
  }

  function Next(i: nat, n: nat): (r: nat)
    requires i < n
    ensures r < n
  {
    Wrap(i + 1, n)
  }

  /** One timer tick that finds no dispatch in progress. */
  function Tick(s: Turns): (r: Turns)
    requires Fair(s)
    ensures Fair(r) && r.slices == s.slices
  {
    var ticked := s.(ticks := s.ticks[s.current := s.ticks[s.current] + 1]);
    var next := Next(s.current, |s.slices|);
    if s.left > 1 then ticked.(left := s.left - 1)
    else ticked.(current := next, left := s.slices[next])
  }

  function Ticks(s: Turns, k: nat): (r: Turns)
    requires Fair(s)
    ensures Fair(r) && r.slices == s.slices
  {
    if k == 0 then s else Tick(Ticks(s, k - 1))
  }

  lemma {:induction false} TicksTwice(s: Turns, j: nat, k: nat)
    requires Fair(s)
    ensures Ticks(s, j + k) == Ticks(Ticks(s, j), k)
  {
    hide Tick, Fair;
    if k > 0 { TicksTwice(s, j, k - 1); }
  }

  /** While its slice lasts, a task gets every tick. */
  lemma {:induction false} WithinSlice(s: Turns, k: nat)
    requires Fair(s) && k < s.left
    ensures Ticks(s, k) == s.(ticks := s.ticks[s.current := s.ticks[s.current] + k], left := s.left - k)
  {
    if k > 0 { WithinSlice(s, k - 1); }
  }

  /** The task has had the rest of its slice, and the next one starts with a whole one. */
  function TurnOver(s: Turns): Turns
    requires Fair(s)
  {
    var next := Next(s.current, |s.slices|);
    s.(ticks := s.ticks[s.current := s.ticks[s.current] + s.left], current := next, left := s.slices[next])
  }

  lemma WholeSlice(s: Turns)
    requires Fair(s)
    ensures Ticks(s, s.left) == TurnOver(s)
  {
    hide Ticks, Tick, Fair, Next, AtEnd, TurnOver;
    Bounds(s);
    SliceEnds(s);
    LastTick(s, s.left);
    AllButOne(s);
  }

  lemma AllButOne(s: Turns)
    requires Fair(s)
    ensures Ticks(s, s.left - 1) == AtEnd(s)
  {
    hide Ticks, Tick, Fair;
    Bounds(s);
    WithinSlice(s, s.left - 1);
  }

  /** Just before its last tick, a task has had all others of its slice. */
  function AtEnd(s: Turns): Turns
    requires Fair(s)
  {
    s.(ticks := s.ticks[s.current := s.ticks[s.current] + (s.left - 1)], left := 1)
  }

  lemma SliceEnds(s: Turns)
    requires Fair(s)
    ensures Fair(AtEnd(s)) && Tick(AtEnd(s)) == TurnOver(s)
  {
    hide Next;
    Twice(s.ticks, s.current, s.ticks[s.current] + (s.left - 1), s.ticks[s.current] + s.left);
    TickAtEnd(AtEnd(s));
  }

  lemma Twice(xs: seq<nat>, i: nat, a: nat, b: nat)
    requires i < |xs|
    ensures xs[i := a][i := b] == xs[i := b] && xs[i := a][i] == a
  {
  }

  lemma Bounds(s: Turns)
    requires Fair(s)
    ensures s.left >= 1 && s.current < |s.slices| == |s.ticks|
  {
  }

  lemma TickAtEnd(t: Turns)
    requires Fair(t) && t.left == 1
    ensures var next := Next(t.current, |t.slices|);
            Tick(t) == t.(ticks := t.ticks[t.current := t.ticks[t.current] + 1], current := next, left := t.slices[next])
  {
  }

  lemma LastTick(s: Turns, k: nat)
    requires Fair(s) && k > 0
    ensures Ticks(s, k) == Tick(Ticks(s, k - 1))
  {
  }

  function Sum(xs: seq<nat>): nat {
    if xs == [] then 0 else Sum(xs[..|xs|-1]) + xs[|xs|-1]
  }

  /** The slices of the tasks from `c` up to `c + j`, around the table. */
  function SumFrom(xs: seq<nat>, c: nat, j: nat): nat
    requires c < |xs| && j <= |xs|
  {
    if j == 0 then 0 else SumFrom(xs, c, j - 1) + xs[Wrap(c + j - 1, |xs|)]
  }

  /** Tick counts after the `j` tasks from `c` on have had one slice each. */
  function Served(s: Turns, j: nat): (r: seq<nat>)
    requires Fair(s) && j <= |s.slices|
    ensures |r| == |s.ticks|
    ensures forall i :: 0 <= i < |r| ==>
              r[i] == s.ticks[i] + if Wrap(i + |r| - s.current, |r|) < j then s.slices[i] else 0
  {
    seq(|s.ticks|, i requires 0 <= i < |s.ticks| =>
      s.ticks[i] + if Wrap(i + |s.ticks| - s.current, |s.ticks|) < j then s.slices[i] else 0)
  }

  /** From the start of a slice, `j` tasks in turn get their slices. */
  lemma {:induction false} TurnsTaken(s: Turns, j: nat)
    requires Fair(s) && s.left == s.slices[s.current] && j <= |s.slices|
    ensures var n := |s.slices|; var r := Ticks(s, SumFrom(s.slices, s.current, j));
            && r.current == Wrap(s.current + j, n) && r.left == s.slices[r.current] && r.ticks == Served(s, j)
  {
    hide Ticks, Tick, Served, Next, Sum, Fair;
    Bounds(s);
    var n := |s.slices|;
    if j == 0 {
      NoTicks(s);
      assert Served(s, 0) == s.ticks;
    } else {
      TurnsTaken(s, j - 1);
      var mid := Ticks(s, SumFrom(s.slices, s.current, j - 1));
      WholeSlice(mid);
      TicksTwice(s, SumFrom(s.slices, s.current, j - 1), mid.left);
      ServedNext(s, j);
    }
  }

  lemma ServedNext(s: Turns, j: nat)
    requires Fair(s) && 0 < j <= |s.slices|
    ensures var c := Wrap(s.current + j - 1, |s.slices|);
            && Served(s, j) == Served(s, j - 1)[c := Served(s, j - 1)[c] + s.slices[c]]
            && Next(c, |s.slices|) == Wrap(s.current + j, |s.slices|)
  {
  }

  lemma NoTicks(s: Turns)
    requires Fair(s)
    ensures Ticks(s, 0) == s
  {
  }

  lemma {:induction false} SumFromSplits(xs: seq<nat>, c: nat, j: nat)
    requires c < |xs| && j <= |xs|
    ensures c + j <= |xs| ==> SumFrom(xs, c, j) == Sum(xs[..c+j]) - Sum(xs[..c])
    ensures c + j > |xs| ==> SumFrom(xs, c, j) == Sum(xs) - Sum(xs[..c]) + Sum(xs[..c+j-|xs|])
  {
    if j > 0 {
      SumFromSplits(xs, c, j - 1);
      var k := if c + j <= |xs| then c + j else c + j - |xs|;
      assert xs[..k][..k-1] == xs[..k-1];
      assert xs[..|xs|] == xs;
      assert Sum(xs[..0]) == 0;
    }
  }

  lemma RoundSum(xs: seq<nat>, c: nat)
    requires c < |xs|
    ensures SumFrom(xs, c, |xs|) == Sum(xs)
  {
    SumFromSplits(xs, c, |xs|);
    assert xs[..|xs|] == xs && Sum(xs[..0]) == 0;
    assert c > 0 ==> xs[..c+|xs|-|xs|] == xs[..c];
  }

  /** A round of as many ticks as all slices together gives every task exactly its slice and comes
      back to the same task at the start of its slice. */
  lemma FullRound(s: Turns)
    requires Fair(s) && s.left == s.slices[s.current]
    ensures var r := Ticks(s, Sum(s.slices));
            && r.current == s.current && r.left == s.left
            && forall i :: 0 <= i < |s.ticks| ==> r.ticks[i] == s.ticks[i] + s.slices[i]
  {
    hide Ticks, Tick, Served, Sum, SumFrom;
    TurnsTaken(s, |s.slices|);
    RoundSum(s.slices, s.current);
  }

  /** At any moment, a task that is not running gets its turn, with a whole slice, after no more
      ticks than the slices of the others. */
  lemma BoundedWait(s: Turns, t: nat)
    requires Fair(s) && t < |s.slices| && t != s.current
    ensures exists k: nat :: k <= Sum(s.slices) - s.slices[t] && Ticks(s, k).current == t && Ticks(s, k).left == s.slices[t]
  {
    hide Ticks, Tick, Served, Sum, SumFrom;
    Bounds(s);
    SliceLeft(s);
    var j, n := Wrap(t + |s.slices| - s.current, |s.slices|), s.slices[s.current] - s.left;
    TurnsTaken(Started(s), j);
    SumFromBelow(s.slices, s.current, j);
    var k := SumFrom(s.slices, s.current, j);
    SumFromFirst(s.slices, s.current, j);
    Behind(s, k);
    assert k - n <= Sum(s.slices) - s.slices[t] && Ticks(s, k - n).current == t;
  }

  lemma SliceLeft(s: Turns)
    requires Fair(s)
    ensures s.left <= s.slices[s.current]
  {
  }

  lemma {:induction false} SumFromFirst(xs: seq<nat>, c: nat, j: nat)
    requires c < |xs| && 0 < j <= |xs|
    ensures SumFrom(xs, c, j) >= xs[c]
  {
    if j > 1 { SumFromFirst(xs, c, j - 1); } else { assert SumFrom(xs, c, 0) == 0; }
  }

  /** The current task at the start of its slice. */
  function Started(s: Turns): Turns
    requires Fair(s)
  {
    s.(left := s.slices[s.current])
  }

  /** The same task's turn, with as much of it left. */
  ghost predicate Alike(s: Turns, r: Turns) {
    s.slices == r.slices && s.current == r.current && s.left == r.left
  }

  /** In the middle of a slice a turn comes as many ticks earlier as the slice has lasted. */
  lemma Behind(s: Turns, k: nat)
    requires Fair(s) && s.left <= s.slices[s.current] <= k
    ensures Fair(Started(s)) && Alike(Ticks(s, k - (s.slices[s.current] - s.left)), Ticks(Started(s), k))
  {
    hide Ticks, TurnOver, Alike, Fair;
    Bounds(s);
    SameTurn(s);
    var later := k - s.slices[s.current];
    AfterSlice(s, later);
    AfterSlice(Started(s), later);
    assert s.left + later == k - (s.slices[s.current] - s.left);
    SameTurns(TurnOver(s), TurnOver(Started(s)), later);
  }

  lemma AfterSlice(s: Turns, later: nat)
    requires Fair(s)
    ensures Fair(TurnOver(s)) && Ticks(s, s.left + later) == Ticks(TurnOver(s), later)
  {
    hide Ticks, TurnOver, Fair;
    WholeSlice(s);
    TicksTwice(s, s.left, later);
  }

  lemma SameTurn(s: Turns)
    requires Fair(s)
    ensures Fair(Started(s)) && Fair(TurnOver(s)) && Fair(TurnOver(Started(s)))
    ensures Alike(TurnOver(s), TurnOver(Started(s)))
  {
  }

  lemma SameTick(s: Turns, r: Turns)
    requires Fair(s) && Fair(r) && Alike(s, r)
    ensures Alike(Tick(s), Tick(r))
  {
  }

  /** Whose turn it is does not depend on the tick counts. */
  lemma {:induction false} SameTurns(s: Turns, r: Turns, k: nat)
    requires Fair(s) && Fair(r) && Alike(s, r)
    ensures Alike(Ticks(s, k), Ticks(r, k))
  {
    hide Fair, Tick, Alike;
    if k > 0 {
      SameTurns(s, r, k - 1);
      SameTick(Ticks(s, k - 1), Ticks(r, k - 1));
    }
  }

  lemma {:induction false} SumFromGrows(xs: seq<nat>, c: nat, j: nat, m: nat)
    requires c < |xs| && j <= m <= |xs|
    ensures SumFrom(xs, c, j) <= SumFrom(xs, c, m)
  {
    if j < m { SumFromGrows(xs, c, j, m - 1); }
  }

  lemma SumFromBelow(xs: seq<nat>, c: nat, j: nat)
    requires c < |xs| && j < |xs|
    ensures SumFrom(xs, c, j) + xs[Wrap(c + j, |xs|)] <= Sum(xs)
  {
    SumFromGrows(xs, c, j + 1, |xs|);
    RoundSum(xs, c);
  }

  // ----- the task table -----

  datatype Phase = Unused | Ready | Running | Blocked

  datatype Task = Task(phase: Phase, slice: nat, left: nat, ticks: nat, switches: nat, runs: nat, lastRun: nat, hasEntry: bool)

  const NO_TASK: Task := Task(Unused, 0, 0, 0, 0, 0, 0, false)

  predicate Runnable(t: Task) {
    t.phase == Ready || t.phase == Running
  }

  /** The first task that can run among those `i` and more places behind `from`. */
  function Search(ts: seq<Task>, from: nat, i: nat): (r: nat)
    requires from < |ts|
    ensures r < |ts| && (r == from || Runnable(ts[r]))
    decreases |ts| + 1 - i
  {
    if i > |ts| then from
    else if Runnable(ts[(from + i) % |ts|]) then (from + i) % |ts|
    else Search(ts, from, i + 1)
  }

  /** Where every task can run, it is the next one in the table. */
  lemma SearchNext(ts: seq<Task>, from: nat)
    requires from < |ts| && forall t :: t in ts ==> Runnable(t)
    ensures Search(ts, from, 1) == Next(from, |ts|)
  {
    WrapIsMod(from + 1, |ts|);
    assert ts[(from + 1) % |ts|] in ts;
  }

  // ----- ticks and dispatches -----

  /** What happens: a timer tick, or a dispatch with all that happens while the entry of the task
      runs, if it has one. */
  datatype Event = TimerTick(at: nat) | Dispatch(at: nat, during: Events)
  datatype Events = Nothing | Then(first: Event, rest: Events)

  /** How often and when a task was last run. */
  datatype Record = Record(runs: nat, lastRun: nat, hasEntry: bool)

  datatype Watched = Watched(turns: Turns, records: seq<Record>, total: nat)

  ghost predicate Known(w: Watched) {
    Fair(w.turns) && |w.records| == |w.turns.slices|
  }

  function RecordOf(t: Task): Record {
    Record(t.runs, t.lastRun, t.hasEntry)
  }

  /** The current task is run once more. */
  function RunOnce(w: Watched, at: nat): (r: Watched)
    requires Known(w)
    ensures Known(r) && r.turns == w.turns && r.total == w.total
  {
    var c := w.turns.current;
    w.(records := w.records[c := Record(w.records[c].runs + 1, at, w.records[c].hasEntry)])
  }

  /** The state after an event, where `active` says whether a dispatch is under way. */
  function Happens(w: Watched, e: Event, active: bool): (r: Watched)
    requires Known(w)
    ensures Known(r)
    decreases e
  {
    match e
    case TimerTick(at) => if active then w.(total := at) else w.(total := at, turns := Tick(w.turns))
    case Dispatch(at, during) =>
      if active then w
      else if w.records[w.turns.current].hasEntry then HappenAll(RunOnce(w, at), during, true)
      else RunOnce(w, at)
  }

  function HappenAll(w: Watched, es: Events, active: bool): (r: Watched)
    requires Known(w)
    ensures Known(r)
    decreases es
  {
    if es.Nothing? then w else HappenAll(Happens(w, es.first, active), es.rest, active)
  }

  /** Ticks that no dispatch contains. */
  function TicksOutside(es: Events): nat {
    if es.Nothing? then 0 else TicksOutside(es.rest) + if es.first.TimerTick? then 1 else 0
  }

  /** Dispatches that no other one contains. */
  function DispatchesOutside(es: Events): nat {
    if es.Nothing? then 0 else DispatchesOutside(es.rest) + if es.first.Dispatch? then 1 else 0
  }

  /** The last tick that is seen, if there is one. */
  function LastSeen(es: Events, total: nat): nat {
    if es.Nothing? then total else LastSeen(es.rest, if es.first.TimerTick? then es.first.at else total)
  }

  /** While a task is run, ticks are only noted and dispatches do nothing. */
  lemma {:induction false} OnlyNoted(w: Watched, es: Events)
    requires Known(w)
    ensures HappenAll(w, es, true) == w.(total := LastSeen(es, w.total))
    decreases es
  {
    hide Known;
    if es.Then? {
      assert Known(w) && Known(Happens(w, es.first, true));
      OnlyNoted(Happens(w, es.first, true), es.rest);
    }
  }

  /** Whatever the tasks do, and however ticks and dispatches are nested, turns are those of the
      ticks outside of dispatches. */
  lemma {:induction false} TurnsOfHistory(w: Watched, es: Events)
    requires Known(w)
    ensures HappenAll(w, es, false).turns == Ticks(w.turns, TicksOutside(es))
    decreases es
  {
    hide Tick, Ticks, Fair;
    if es.Nothing? {
      NoTicks(w.turns);
    } else {
      var m := Happens(w, es.first, false);
      TurnsOfHistory(m, es.rest);
      match es.first
      case TimerTick(at) =>
        OneTick(w.turns);
        TicksTwice(w.turns, 1, TicksOutside(es.rest));
      case Dispatch(at, during) =>
        OnlyNoted(RunOnce(w, at), during);
    }
  }

  lemma OneTick(s: Turns)
    requires Fair(s)
    ensures Ticks(s, 1) == Tick(s)
  {
    hide Tick, Fair;
    NoTicks(s);
  }

  /** A dispatch notes one run of the current task, with its tick, and of no other; one that is
      inside another notes nothing. */
  lemma DispatchNotes(w: Watched, at: nat, during: Events)
    requires Known(w)
    ensures var c, r := w.turns.current, Happens(w, Dispatch(at, during), false);
            && c < |w.records| && r.turns == w.turns
            && r.records == w.records[c := Record(w.records[c].runs + 1, at, w.records[c].hasEntry)]
    ensures Happens(w, Dispatch(at, during), true) == w
  {
    hide Fair, Tick;
    Bounds(w.turns);
    OnlyNoted(RunOnce(w, at), during);
  }

  function RunsOf(rs: seq<Record>): (xs: seq<nat>)
    ensures |xs| == |rs| && forall i :: 0 <= i < |rs| ==> xs[i] == rs[i].runs
  {
    seq(|rs|, i requires 0 <= i < |rs| => rs[i].runs)
  }

  lemma {:induction false} SumRaised(xs: seq<nat>, i: nat)
    requires i < |xs|
    ensures Sum(xs[i := xs[i] + 1]) == Sum(xs) + 1
  {
    var ys, n := xs[i := xs[i] + 1], |xs| - 1;
    if i < n {
      SumRaised(xs[..n], i);
      assert ys[..n] == xs[..n][i := xs[..n][i] + 1];
    } else {
      assert ys[..n] == xs[..n];
    }
  }

  /** Each dispatch that is not inside another one counts exactly one run. */
  lemma {:induction false} RunsOfHistory(w: Watched, es: Events)
    requires Known(w)
    ensures Sum(RunsOf(HappenAll(w, es, false).records)) == Sum(RunsOf(w.records)) + DispatchesOutside(es)
    decreases es
  {
    hide Tick, Fair, Sum;
    if es.Then? {
      var m := Happens(w, es.first, false);
      RunsOfHistory(m, es.rest);
      if es.first.Dispatch? { OneRun(w, es.first.at, es.first.during); }
    }
  }

  lemma OneRun(w: Watched, at: nat, during: Events)
    requires Known(w)
    ensures Sum(RunsOf(Happens(w, Dispatch(at, during), false).records)) == Sum(RunsOf(w.records)) + 1
  {
    hide Tick, Sum;
    var c, r := w.turns.current, RunOnce(w, at);
    OnlyNoted(r, during);
    assert RunsOf(r.records) == RunsOf(w.records)[c := RunsOf(w.records)[c] + 1];
    SumRaised(RunsOf(w.records), c);
  }

  /** In a history with as many ticks outside of dispatches as all slices together, every task gets
      exactly its slice, from the start of a slice on. */
  lemma RoundOfHistory(w: Watched, es: Events)
    requires Known(w) && w.turns.left == w.turns.slices[w.turns.current] && TicksOutside(es) == Sum(w.turns.slices)
    ensures var r := HappenAll(w, es, false).turns;
            && r.current == w.turns.current && r.left == w.turns.left && |r.ticks| == |w.turns.ticks|
            && forall i :: 0 <= i < |r.ticks| ==> r.ticks[i] == w.turns.ticks[i] + w.turns.slices[i]
  {
    hide Ticks, Sum, HappenAll, TicksOutside;
    TurnsOfHistory(w, es);
    FullRound(w.turns);
    Bounds(w.turns);
    Bounds(HappenAll(w, es, false).turns);
  }

  class Scheduler {
    const tasks: array<Task>
    var count: nat
    var current: nat
    var totalTicks: nat
    var switches: nat
    var dispatching: bool

    /** Exactly the current task is running, with ticks left of its slice; all others are ready
        with a whole one. */
    ghost predicate Valid()
      reads this, tasks
    {
      && tasks.Length == MAX_TASKS && 0 < count <= MAX_TASKS && current < count
      && (forall i :: 0 <= i < count ==> tasks[i].slice >= MIN_SLICE)
      && (forall i :: 0 <= i < count ==> tasks[i].phase == if i == current then Running else Ready)
      && (forall i :: 0 <= i < count && i != current ==> tasks[i].left == tasks[i].slice)
      && 1 <= tasks[current].left <= tasks[current].slice
    }

    ghost function View(): (s: Turns)
      reads this, tasks
      requires Valid()
      ensures Fair(s)
    {
      Turns(seq(count, i reads this, tasks requires 0 <= i < count && count <= tasks.Length => tasks[i].slice), current, tasks[current].left,
            seq(count, i reads this, tasks requires 0 <= i < count && count <= tasks.Length => tasks[i].ticks))
    }

    ghost function Watch(): (w: Watched)
      reads this, tasks
      requires Valid()
      ensures Known(w)
    {
      hide Fair;
      Watched(View(), Records(), totalTicks)
    }

    ghost function Records(): (rs: seq<Record>)
      reads this, tasks
      requires count <= tasks.Length
      ensures |rs| == count && forall i :: 0 <= i < count ==> rs[i] == RecordOf(tasks[i])
    {
      seq(count, i reads this, tasks requires 0 <= i < count && count <= tasks.Length => RecordOf(tasks[i]))
    }

    /** clks_scheduler_init: the idle task, which runs */
    constructor ()
      ensures Valid() && fresh(tasks) && count == 1 && !dispatching
      ensures View() == Turns([1], 0, 1, [0])
    {
      tasks := new Task[MAX_TASKS](i => NO_TASK);
      count, current, totalTicks, switches, dispatching := 1, 0, 0, 0, false;
      new;
      tasks[0] := Task(Running, 1, 1, 0, 0, 0, 0, false);
    }

    /** clks_scheduler_add_kernel_task_ex */
    method Add(slice: nat, hasEntry: bool) returns (ok: bool)
      requires Valid()
      modifies this`count, tasks
      ensures Valid() && ok == (old(count) < MAX_TASKS) && count == old(count) + if ok then 1 else 0
      ensures !ok ==> tasks[..] == old(tasks[..])
      ensures ok ==> View() == old(View()).(slices := old(View()).slices + [if slice < MIN_SLICE then MIN_SLICE else slice],
                                            ticks := old(View()).ticks + [0])
    {
      if count >= MAX_TASKS {
        return false;
      }
      var given := if slice < MIN_SLICE then MIN_SLICE else slice;
      tasks[count] := Task(Ready, given, given, 0, 0, 0, 0, hasEntry);
      count := count + 1;
      return true;
    }

    /** clks_sched_next_ready_task */
    method NextReady(from: nat) returns (next: nat)
      requires tasks.Length == MAX_TASKS && count <= MAX_TASKS && from < count
      ensures next == Search(tasks[..count], from, 1)
    {
      var i := 1;
      while i <= count
        invariant 1 <= i <= count + 1 && Search(tasks[..count], from, 1) == Search(tasks[..count], from, i)
      {
        var index := (from + i) % count;
        var phase := tasks[index].phase;
        if phase == Ready || phase == Running {
          return index;
        }
        i := i + 1;
      }
      return from;
    }

    /** clks_scheduler_on_timer_tick; a tick during a dispatch is only noted. */
    method OnTimerTick(tick: nat)
      requires Valid()
      modifies this`totalTicks, this`current, this`switches, tasks
      ensures Valid() && totalTicks == tick && Records() == old(Records())
      ensures View() == if dispatching then old(View()) else Tick(old(View()))
    {
      hide Fair;
      ghost var s := View();
      totalTicks := tick;
      if dispatching {
        assert View() == s;
        return;
      }
      var at := current;
      var phase := tasks[at].phase;
      if phase == Running || phase == Ready {
        tasks[at] := tasks[at].(ticks := tasks[at].ticks + 1);
        if tasks[at].left > 0 {
          tasks[at] := tasks[at].(left := tasks[at].left - 1);
        }
      }
      if tasks[at].left == 0 {
        SwitchFrom(at, s);
      } else {
        assert View() == Tick(s);
      }
    }

    /** The end of a slice */
    method SwitchFrom(at: nat, ghost s: Turns)
      requires tasks.Length == MAX_TASKS && 0 < count <= MAX_TASKS && current == at < count
      requires forall i :: 0 <= i < count ==> tasks[i].slice >= MIN_SLICE
      requires forall i :: 0 <= i < count ==> tasks[i].phase == if i == current then Running else Ready
      requires forall i :: 0 <= i < count && i != current ==> tasks[i].left == tasks[i].slice
      requires tasks[at].left == 0
      requires Fair(s) && s.current == at && s.left == 1 && |s.slices| == count
      requires forall i :: 0 <= i < count ==> tasks[i].slice == s.slices[i]
      requires forall i :: 0 <= i < count ==> tasks[i].ticks == s.ticks[i] + if i == at then 1 else 0
      modifies this`current, this`switches, tasks
      ensures Valid() && View() == Tick(s) && Records() == old(Records())
    {
      hide Search, Tick, Fair;
      ghost var rs := Records();
      Bounds(s);
      tasks[at] := tasks[at].(left := tasks[at].slice);
      var next := NextReady(at);
      SearchNext(tasks[..count], at);
      if next != at {
        MoveOn(at, next);
      }
      TickSwitches(s);
      ViewIs(Tick(s));
      assert Records() == rs;
    }

    /** The part of clks_scheduler_on_timer_tick that makes another task the current one */
    method MoveOn(at: nat, next: nat)
      requires at < tasks.Length && next < tasks.Length && at != next
      modifies this`current, this`switches, tasks
      ensures current == next && switches == old(switches) + 1
      ensures tasks[at] == if old(tasks[at]).phase == Running then old(tasks[at]).(phase := Ready) else old(tasks[at])
      ensures tasks[next] == old(tasks[next]).(phase := Running, switches := old(tasks[next]).switches + 1, left := old(tasks[next]).slice)
      ensures forall i :: 0 <= i < tasks.Length && i != at && i != next ==> tasks[i] == old(tasks[i])
    {
      if tasks[at].phase == Running {
        tasks[at] := tasks[at].(phase := Ready);
      }
      current := next;
      tasks[next] := tasks[next].(phase := Running, switches := tasks[next].switches + 1, left := tasks[next].slice);
      switches := switches + 1;
    }

    lemma TickSwitches(s: Turns)
      requires Fair(s) && s.left == 1
      ensures var r, next := Tick(s), Next(s.current, |s.slices|);
              && r.slices == s.slices && r.current == next && r.left == s.slices[next] && |r.ticks| == |s.ticks| == |s.slices|
              && forall i :: 0 <= i < |r.ticks| ==> r.ticks[i] == s.ticks[i] + if i == s.current then 1 else 0
    {
    }

    /** The view, by its parts. */
    lemma ViewIs(r: Turns)
      requires Valid() && |r.slices| == |r.ticks| == count && r.current == current && r.left == tasks[current].left
      requires forall i :: 0 <= i < count ==> tasks[i].slice == r.slices[i] && tasks[i].ticks == r.ticks[i]
      ensures View() == r
    {
      assert View().slices == r.slices && View().ticks == r.ticks;
    }

    /** clks_scheduler_dispatch_current; `during` is what happens while the entry of the task runs. */
    method DispatchCurrent(tick: nat, during: Events)
      requires Valid()
      modifies this`totalTicks, this`current, this`switches, this`dispatching, tasks
      ensures Valid() && dispatching == old(dispatching) && count == old(count)
      ensures Watch() == Happens(old(Watch()), Dispatch(tick, during), old(dispatching))
      decreases during, 2
    {
      hide Fair, Tick, HappenAll, RunOnce;
      if dispatching {
        return;
      }
      var phase := tasks[current].phase;
      if phase != Running && phase != Ready {
        return;
      }
      ghost var w := Watch();
      RunOnceKeepsEntry(w, tick);
      CountRun(tick);
      if tasks[current].hasEntry {
        CallEntry(during);
      }
    }

    /** The call of the entry, with the flag that keeps ticks and dispatches off */
    method CallEntry(during: Events)
      requires Valid() && !dispatching
      modifies this`totalTicks, this`current, this`switches, this`dispatching, tasks
      ensures Valid() && !dispatching && count == old(count)
      ensures Watch() == HappenAll(old(Watch()), during, true)
      decreases during, 1
    {
      hide Fair, HappenAll;
      ghost var w := Watch();
      dispatching := true;
      assert Watch() == w;
      ServeAll(during);
      ghost var r := Watch();
      dispatching := false;
      assert Watch() == r;
    }

    lemma RunOnceKeepsEntry(w: Watched, at: nat)
      requires Known(w)
      ensures w.turns.current < |w.records| && RunOnce(w, at).turns == w.turns
      ensures RunOnce(w, at).records[w.turns.current].hasEntry == w.records[w.turns.current].hasEntry
    {
    }

    /** The part of clks_scheduler_dispatch_current that notes the run */
    method CountRun(tick: nat)
      requires Valid()
      modifies tasks
      ensures Valid() && Watch() == RunOnce(old(Watch()), tick)
    {
      ghost var s, rs := View(), Records();
      tasks[current] := tasks[current].(phase := Running, runs := tasks[current].runs + 1, lastRun := tick);
      assert View() == s;
      assert Records() == rs[current := Record(rs[current].runs + 1, tick, rs[current].hasEntry)];
    }

    /** All that happens, one after the other */
    method ServeAll(es: Events)
      requires Valid()
      modifies this`totalTicks, this`current, this`switches, this`dispatching, tasks
      ensures Valid() && dispatching == old(dispatching) && count == old(count)
      ensures Watch() == HappenAll(old(Watch()), es, old(dispatching))
      decreases es, 0
    {
      hide Fair, Tick;
      match es
      case Nothing =>
      case Then(first, rest) =>
        match first {
          case TimerTick(at) => OnTimerTick(at);
          case Dispatch(at, during) => DispatchCurrent(at, during);
        }
        ServeAll(rest);
    }
  }
}
