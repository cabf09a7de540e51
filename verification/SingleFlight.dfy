/**
 The single-flight guard as a protocol: callers swap a shared flag, the winner
 spawns a task, and the task's drop guard clears the flag. Callers, tasks and
 panics interleave freely.
 */
module SingleFlight {
  datatype TaskState =
    | Spawned    // handed to the runtime, not yet polled: the guard does not exist
    | Working    // the guard exists and the work is running
    | Ending     // the work has returned or panicked; the guard is about to drop
    | Gone

  /** `winner` is the caller between a winning swap and its spawn. */
  datatype State = State(flag: bool, winner: bool, tasks: seq<TaskState>, leaked: bool)

  const INITIAL := State(false, false, [], false)

  datatype Step =
    | SwapAndSkip               // the flag was set: this call is a no-op
    | SwapAndWin                // the flag was clear
    | Spawn
    | SpawnPanics               // there is no runtime to spawn on
    | FirstPoll(task: nat)
    | Finish(task: nat)         // the work returns or panics
    | Clear(task: nat)          // the guard drops and stores false
    | DropUnpolled(task: nat)   // the runtime is shut down before the task first runs

  predicate InState(s: State, task: nat, t: TaskState) {
    task < |s.tasks| && s.tasks[task] == t
  }

  predicate Enabled(s: State, step: Step) {
    match step
    case SwapAndSkip => s.flag
    case SwapAndWin => !s.flag
    case Spawn => s.winner
    case SpawnPanics => s.winner
    case FirstPoll(task) => InState(s, task, Spawned)
    case Finish(task) => InState(s, task, Working)
    case Clear(task) => InState(s, task, Ending)
    case DropUnpolled(task) => InState(s, task, Spawned)
  }

  function After(s: State, step: Step): State
    requires Enabled(s, step)
  {
    match step
    case SwapAndSkip => s.(flag := true)
    case SwapAndWin => s.(flag := true, winner := true)
    case Spawn => s.(winner := false, tasks := s.tasks + [Spawned])
    case SpawnPanics => s.(winner := false, leaked := true)
    case FirstPoll(task) => s.(tasks := s.tasks[task := Working])
    case Finish(task) => s.(tasks := s.tasks[task := Ending])
    case Clear(task) => s.(flag := false, tasks := s.tasks[task := Gone])
    case DropUnpolled(task) => s.(tasks := s.tasks[task := Gone], leaked := true)
  }

  ghost predicate Live(s: State, task: nat) {
    task < |s.tasks| && s.tasks[task] != Gone
  }

  /** The one holder of the flag: a winner about to spawn, a live task, or a guard never made. */
  ghost predicate Inv(s: State) {
    && (forall a, b :: Live(s, a) && Live(s, b) ==> a == b)
    && (s.winner ==> s.flag && !s.leaked && forall a :: !Live(s, a))
    && (forall a :: Live(s, a) ==> s.flag && !s.leaked)
    && (s.leaked ==> s.flag)
    && (s.flag ==> s.winner || s.leaked || exists a :: Live(s, a))
  }

  lemma InvStep(s: State, step: Step)
    requires Inv(s) && Enabled(s, step)
    ensures Inv(After(s, step))
  {
    var s' := After(s, step);
    match step
    case Spawn =>
      assert Live(s', |s.tasks|);
      assert forall a: nat :: Live(s', a) && a < |s.tasks| ==> Live(s, a);
    case FirstPoll(task) =>
      assert forall a :: Live(s', a) <==> Live(s, a);
    case Finish(task) =>
      assert forall a :: Live(s', a) <==> Live(s, a);
    case Clear(task) =>
      assert Live(s, task);
      assert forall a :: Live(s', a) <==> Live(s, a) && a != task;
    case DropUnpolled(task) =>
      assert Live(s, task);
      assert forall a :: Live(s', a) <==> Live(s, a) && a != task;
    case _ =>
      assert forall a :: Live(s', a) <==> Live(s, a);
  }

  ghost predicate Behaviour(b: seq<State>, steps: seq<Step>) {
    && |b| == |steps| + 1 && b[0] == INITIAL
    && forall i :: 0 <= i < |steps| ==> Enabled(b[i], steps[i]) && b[i + 1] == After(b[i], steps[i])
  }

  lemma {:induction false} InvAlways(b: seq<State>, steps: seq<Step>, i: nat)
    requires Behaviour(b, steps) && i < |b|
    ensures Inv(b[i])
    decreases i
  {
    if i > 0 {
      InvAlways(b, steps, i - 1);
      InvStep(b[i - 1], steps[i - 1]);
    }
  }

  /** In every interleaving at most one work future is alive. */
  lemma AtMostOneInFlight(b: seq<State>, steps: seq<Step>, i: nat, x: nat, y: nat)
    requires Behaviour(b, steps) && i < |b|
    requires Live(b[i], x) && Live(b[i], y)
    ensures x == y
  {
    InvAlways(b, steps, i);
  }

  ghost predicate Outstanding(s: State) {
    s.winner || exists a :: Live(s, a)
  }

  /** The steps after which the guard that would clear the flag will never exist. */
  predicate NeverGuards(step: Step) {
    step.DropUnpolled? || step.SpawnPanics?
  }

  lemma {:induction false} LeakedIffNeverGuarded(b: seq<State>, steps: seq<Step>, i: nat)
    requires Behaviour(b, steps) && i < |b|
    ensures b[i].leaked <==> exists k :: 0 <= k < i && NeverGuards(steps[k])
    decreases i
  {
    if i > 0 {
      LeakedIffNeverGuarded(b, steps, i - 1);
      assert NeverGuards(steps[i - 1]) || b[i].leaked == b[i - 1].leaked;
    }
  }

  /**
   The flag means "one is outstanding" at every moment, exactly as long as every
   winning call's task has reached its first poll or still can: the guard is made
   by that poll, so a task that never gets there leaves the flag set for nothing.
   */
  lemma FlagMeansOutstandingIff(b: seq<State>, steps: seq<Step>, i: nat)
    requires Behaviour(b, steps) && i < |b|
    ensures (b[i].flag <==> Outstanding(b[i])) <==> !exists k :: 0 <= k < i && NeverGuards(steps[k])
  {
    InvAlways(b, steps, i);
    LeakedIffNeverGuarded(b, steps, i);
  }

  /** A call wins exactly when nothing is outstanding; finished or panicked, the guard lets the next one in. */
  lemma ClearedLetsNextIn(b: seq<State>, steps: seq<Step>, i: nat)
    requires Behaviour(b, steps) && i < |steps|
    requires steps[i].Clear?
    ensures !Outstanding(b[i + 1]) && Enabled(b[i + 1], SwapAndWin)
  {
    InvAlways(b, steps, i);
    InvAlways(b, steps, i + 1);
  }

  /** Where a further run of steps leads, if each can be taken. */
  ghost predicate CanReach(s: State, steps: seq<Step>, s': State)
    decreases |steps|
  {
    if steps == [] then s == s'
    else Enabled(s, steps[0]) && CanReach(After(s, steps[0]), steps[1..], s')
  }

  /** A working task can finish and clear: the flag is never stuck behind a polled one. */
  lemma WorkingCanClear(s: State, task: nat) returns (steps: seq<Step>, s': State)
    requires Inv(s) && InState(s, task, Working)
    ensures CanReach(s, steps, s') && !s'.flag
  {
    steps := [Finish(task), Clear(task)];
    var s1 := After(s, Finish(task));
    s' := After(s1, Clear(task));
    assert steps[1..] == [Clear(task)] && steps[1..][1..] == [];
  }

  /** Whatever is outstanding, there is a way on to a state in which the next call wins. */
  lemma WayOn(s: State) returns (steps: seq<Step>, s': State)
    requires Inv(s) && !s.leaked
    ensures CanReach(s, steps, s') && !s'.flag
  {
    if !s.flag {
      return [], s;
    }
    if s.winner {
      InvStep(s, Spawn);
      var rest;
      rest, s' := PolledWayOn(After(s, Spawn), |s.tasks|);
      steps := [Spawn] + rest;
      assert steps[1..] == rest;
    } else {
      var task :| Live(s, task);
      steps, s' := PolledWayOn(s, task);
    }
  }

  lemma PolledWayOn(s: State, task: nat) returns (steps: seq<Step>, s': State)
    requires Inv(s) && Live(s, task)
    ensures CanReach(s, steps, s') && !s'.flag
  {
    match s.tasks[task]
    case Spawned =>
      InvStep(s, FirstPoll(task));
      steps, s' := WorkingCanClear(After(s, FirstPoll(task)), task);
      var rest := steps;
      steps := [FirstPoll(task)] + rest;
      assert steps[1..] == rest;
    case Working =>
      steps, s' := WorkingCanClear(s, task);
    case Ending =>
      steps, s' := [Clear(task)], After(s, Clear(task));
      assert steps[1..] == [];
  }

  lemma {:induction false} LeakedStaysSet(s: State, steps: seq<Step>, s': State)
    requires Inv(s) && s.leaked && CanReach(s, steps, s')
    ensures s'.flag
    decreases |steps|
  {
    if steps != [] {
      InvStep(s, steps[0]);
      LeakedStaysSet(After(s, steps[0]), steps[1..], s');
    }
  }

  /** Some way on leads to a state in which a call wins the swap. */
  ghost predicate CanWin(s: State) {
    exists more, s' :: CanReach(s, more, s') && Enabled(s', SwapAndWin)
  }

  lemma CanWinIffNotLeaked(s: State)
    requires Inv(s)
    ensures CanWin(s) <==> !s.leaked
  {
    if s.leaked && CanWin(s) {
      var more, s' :| CanReach(s, more, s') && Enabled(s', SwapAndWin);
      LeakedStaysSet(s, more, s');
      assert false;
    }
    if !s.leaked {
      var more, s' := WayOn(s);
    }
  }

  /** In every reachable state a later call can still win, exactly when no winning call's guard was lost. */
  lemma LaterCallCanWinIff(b: seq<State>, steps: seq<Step>, i: nat)
    requires Behaviour(b, steps) && i < |b|
    ensures CanWin(b[i]) <==> !exists k :: 0 <= k < i && NeverGuards(steps[k])
  {
    InvAlways(b, steps, i);
    LeakedIffNeverGuarded(b, steps, i);
    CanWinIffNotLeaked(b[i]);
  }

  /** A winning call whose task never reached its first poll disables every later call. */
  lemma {:induction false} LeakIsForever(b: seq<State>, steps: seq<Step>, i: nat, j: nat)
    requires Behaviour(b, steps) && i <= j < |b| && b[i].leaked
    ensures b[j].leaked && !Enabled(b[j], SwapAndWin)
    decreases j
  {
    InvAlways(b, steps, j);
    if i < j {
      LeakIsForever(b, steps, i, j - 1);
    }
  }
}
