/** Flings as concurrent tasks. A task checks the generation, reads the anchor and writes it
    back in three separate critical sections; anything may happen in between. */
module MomentumProtocol {
  import opened Wrappers
  import opened OverlayLayout
  import Fling

  /** Where a task is between its critical sections. */
  datatype Pc = Sleeping | Checked | Holding(candidate: Rect) | Returned

  datatype Task = Task(target: nat, vx: real, vy: real, elapsed: nat, pc: Pc)

  /** Tasks are numbered in the order in which they were spawned. */
  datatype State = State(generation: nat, inputs: Inputs, tasks: seq<Task>)

  datatype Step =
    | Release(vx: real, vy: real)
    | Cancel
    | Relayout(inputs: Inputs)
    | Check(task: nat)
    | Read(task: nat)
    | Write(task: nat, display: Rect)
    | GiveUp(task: nat)

  predicate ByTask(step: Step, i: nat) {
    match step
    case Release(_, _) => false
    case Cancel => false
    case Relayout(_) => false
    case Check(j) => i == j
    case Read(j) => i == j
    case Write(j, _) => i == j
    case GiveUp(j) => i == j
  }

  predicate Enabled(s: State, step: Step) {
    match step
    case Release(vx, vy) => vx != 0.0 || vy != 0.0
    case Cancel => true
    case Relayout(_) => true
    case Check(i) => i < |s.tasks| && s.tasks[i].pc.Sleeping?
    case Read(i) => i < |s.tasks| && s.tasks[i].pc.Checked?
    case Write(i, _) => i < |s.tasks| && s.tasks[i].pc.Holding?
    case GiveUp(i) => i < |s.tasks| && !s.tasks[i].pc.Returned?
  }

  function Next(s: State, step: Step): State
    requires Enabled(s, step)
  {
    match step
    case Release(vx, vy) =>
      State(s.generation + 1, s.inputs, s.tasks + [Task(s.generation + 1, vx, vy, 0, Sleeping)])
    case Cancel => s.(generation := s.generation + 1)
    case Relayout(inputs) => s.(inputs := inputs)
    case Check(i) =>
      var task := s.tasks[i];
      s.(tasks := s.tasks[i := if task.target != s.generation then task.(pc := Returned)
                               else task.(pc := Checked, elapsed := task.elapsed + Fling.TICK_MS)])
    case Read(i) =>
      var task := s.tasks[i];
      var candidate := Fling.Candidate(Fling.State(s.inputs, task.vx, task.vy, task.elapsed, true));
      s.(tasks := s.tasks[i := task.(pc := Holding(candidate))])
    case Write(i, display) =>
      var task := s.tasks[i];
      var candidate := task.pc.candidate;
      var inputs := InputsAfter(s.inputs.(anchor := candidate), display);
      var vx := Fling.Slowed(task.vx, inputs.anchor.x, candidate.x);
      var vy := Fling.Slowed(task.vy, inputs.anchor.y, candidate.y);
      var pc := if Fling.Expired(task.elapsed, vx, vy) then Returned else Sleeping;
      State(s.generation, inputs, s.tasks[i := Task(task.target, vx, vy, task.elapsed, pc)])
    case GiveUp(i) => s.(tasks := s.tasks[i := s.tasks[i].(pc := Returned)])
  }

  predicate CanRun(s: State, steps: seq<Step>)
    decreases |steps|
  {
    steps == [] || (Enabled(s, steps[0]) && CanRun(Next(s, steps[0]), steps[1..]))
  }

  function Run(s: State, steps: seq<Step>): State
    requires CanRun(s, steps)
    decreases |steps|
  {
    if steps == [] then s else Run(Next(s, steps[0]), steps[1..])
  }

  function Initial(inputs: Inputs): State { State(0, inputs, []) }

  function Writes(steps: seq<Step>, i: nat): nat {
    if steps == [] then 0
    else (if steps[0].Write? && steps[0].task == i then 1 else 0) + Writes(steps[1..], i)
  }

  function StepsOf(steps: seq<Step>, i: nat): nat {
    if steps == [] then 0 else (if ByTask(steps[0], i) then 1 else 0) + StepsOf(steps[1..], i)
  }

  // ---------- generations ----------

  /** Every task was spawned for its own, past or present, generation. */
  predicate Ordered(s: State) {
    && (forall i :: 0 <= i < |s.tasks| ==> s.tasks[i].target <= s.generation)
    && (forall i, j :: 0 <= i < j < |s.tasks| ==> s.tasks[i].target < s.tasks[j].target)
  }

  lemma {:induction false} RunOrdered(s: State, steps: seq<Step>)
    requires Ordered(s) && CanRun(s, steps)
    ensures Ordered(Run(s, steps)) && s.generation <= Run(s, steps).generation
    ensures |s.tasks| <= |Run(s, steps).tasks|
    ensures forall i :: 0 <= i < |s.tasks| ==> Run(s, steps).tasks[i].target == s.tasks[i].target
    decreases |steps|
  {
    hide Next, Enabled, Ordered;
    if steps != [] {
      StepOrdered(s, steps[0]);
      RunOrdered(Next(s, steps[0]), steps[1..]);
    }
  }

  lemma StepOrdered(s: State, step: Step)
    requires Ordered(s) && Enabled(s, step)
    ensures var next := Next(s, step);
            && Ordered(next) && s.generation <= next.generation && |s.tasks| <= |next.tasks|
            && forall i :: 0 <= i < |s.tasks| ==> next.tasks[i].target == s.tasks[i].target
  {
    hide InputsAfter, Fling.Candidate, Fling.Slowed, Fling.Expired;
  }

  /** In every reachable state the generation has only grown and at most one task, the most
      recently spawned one, still answers to it. */
  lemma CurrentTaskUnique(inputs: Inputs, before: seq<Step>, after: seq<Step>)
    requires CanRun(Initial(inputs), before) && CanRun(Run(Initial(inputs), before), after)
    ensures var mid := Run(Initial(inputs), before);
            var end := Run(mid, after);
            && mid.generation <= end.generation
            && forall i :: 0 <= i < |end.tasks| && end.tasks[i].target == end.generation ==> i == |end.tasks| - 1
  {
    RunOrdered(Initial(inputs), before);
    RunOrdered(Run(Initial(inputs), before), after);
    var tasks := Run(Run(Initial(inputs), before), after).tasks;
    forall i | 0 <= i < |tasks| && i != |tasks| - 1
      ensures tasks[i].target < tasks[|tasks| - 1].target
    {
    }
  }

  // ---------- superseded tasks ----------

  predicate Superseded(s: State, i: nat) {
    i < |s.tasks| && s.tasks[i].target < s.generation
  }

  /** A task past its check can still write once; one that sleeps will not. */
  function WritesLeft(pc: Pc): nat {
    if pc.Checked? || pc.Holding? then 1 else 0
  }

  function StepsLeft(pc: Pc): nat {
    match pc
    case Returned => 0
    case Sleeping => 1
    case Holding(_) => 2
    case Checked => 3
  }

  /** Once superseded, a task writes the anchor at most once more, and only if it had already
      passed its check; it takes at most three more steps of its own. */
  lemma {:induction false} SupersededWritesAtMostOnce(s: State, steps: seq<Step>, i: nat)
    requires Superseded(s, i) && CanRun(s, steps)
    ensures Superseded(Run(s, steps), i)
    ensures Writes(steps, i) + WritesLeft(Run(s, steps).tasks[i].pc) <= WritesLeft(s.tasks[i].pc) <= 1
    ensures StepsOf(steps, i) + StepsLeft(Run(s, steps).tasks[i].pc) <= StepsLeft(s.tasks[i].pc)
    decreases |steps|
  {
    if steps != [] {
      var next := Next(s, steps[0]);
      assert Superseded(next, i);
      SupersededWritesAtMostOnce(next, steps[1..], i);
    }
  }

  /** The bound is met: a cancelled task that had passed its check can overwrite the anchor
      that a later drag has set. */
  lemma CancelledTaskMayStillWrite(s: State, i: nat, dragged: Inputs, display: Rect)
    requires Superseded(s, i) && s.tasks[i].pc.Checked?
    ensures var steps := [Read(i), Relayout(dragged), Write(i, display)];
            && CanRun(s, steps) && Writes(steps, i) == 1
            && Run(s, steps).inputs
               == InputsAfter(dragged.(anchor := Fling.Candidate(Fling.State(s.inputs, s.tasks[i].vx, s.tasks[i].vy,
                                                                            s.tasks[i].elapsed, true))), display)
  {
    hide InputsAfter, Fling.Candidate, Fling.Slowed, Fling.Expired;
    var read := Next(s, Read(i));
    var moved := Next(read, Relayout(dragged));
    var written := Next(moved, Write(i, display));
    var steps := [Read(i), Relayout(dragged), Write(i, display)];
    assert steps[1..] == [Relayout(dragged), Write(i, display)];
    assert steps[1..][1..] == [Write(i, display)];
    assert CanRun(written, []);
    assert CanRun(moved, [Write(i, display)]) && Run(moved, [Write(i, display)]) == written;
    assert CanRun(read, steps[1..]) && Run(read, steps[1..]) == written;
    assert Writes([Write(i, display)], i) == 1;
    assert Writes(steps[1..], i) == 1;
  }

  /** A superseded task is silent in every continuation exactly when it is not past its check. */
  lemma SupersededSilentExactly(s: State, i: nat)
    requires Superseded(s, i)
    ensures (forall steps: seq<Step> :: CanRun(s, steps) ==> Writes(steps, i) == 0)
            <==> !(s.tasks[i].pc.Checked? || s.tasks[i].pc.Holding?)
  {
    hide CanRun, Writes, Next, Enabled;
    match s.tasks[i].pc
    case Checked =>
      CancelledTaskMayStillWrite(s, i, s.inputs, Rect(0.0, 0.0, 0.0, 0.0));
    case Holding(_) =>
      HoldingTaskMayWrite(s, i, Rect(0.0, 0.0, 0.0, 0.0));
    case _ =>
      forall steps: seq<Step> | CanRun(s, steps) ensures Writes(steps, i) == 0 {
        SupersededWritesAtMostOnce(s, steps, i);
      }
  }

  lemma HoldingTaskMayWrite(s: State, i: nat, display: Rect)
    requires i < |s.tasks| && s.tasks[i].pc.Holding?
    ensures CanRun(s, [Write(i, display)]) && Writes([Write(i, display)], i) == 1
  {
    assert CanRun(Next(s, Write(i, display)), []);
  }

  /** Cancelling right after the check leads to such a state, so the exception is a real one. */
  lemma CancelledPastCheckReachable(inputs: Inputs, vx: real, vy: real)
    requires vx != 0.0 || vy != 0.0
    ensures var steps := [Release(vx, vy), Check(0), Cancel];
            && CanRun(Initial(inputs), steps)
            && Superseded(Run(Initial(inputs), steps), 0)
            && Run(Initial(inputs), steps).tasks[0].pc.Checked?
  {
    var steps := [Release(vx, vy), Check(0), Cancel];
    var released := Next(Initial(inputs), Release(vx, vy));
    var checked := Next(released, Check(0));
    var cancelled := Next(checked, Cancel);
    assert steps[1..] == [Check(0), Cancel] && steps[1..][1..] == [Cancel];
    assert CanRun(cancelled, []);
    assert CanRun(checked, [Cancel]) && Run(checked, [Cancel]) == cancelled;
    assert CanRun(released, steps[1..]) && Run(released, steps[1..]) == cancelled;
  }

  // ---------- bounds under interference ----------

  /** Time is spent exactly by the writes, and by a check that is still to be followed up. */
  predicate TimeKept(task: Task, writes: nat) {
    && (!task.pc.Returned? ==> task.elapsed == Fling.TICK_MS * (writes + WritesLeft(task.pc)))
    && (!task.pc.Returned? && writes > 0 ==> Fling.TICK_MS * writes < Fling.MAX_DURATION_MS)
    && writes <= Fling.MAX_TICKS
  }

  /** Whatever else happens, no fling writes the anchor more than 57 times. */
  lemma {:induction false} FlingWritesBounded(s: State, steps: seq<Step>, i: nat, earlier: nat)
    requires CanRun(s, steps)
    requires i < |s.tasks| ==> TimeKept(s.tasks[i], earlier)
    requires i >= |s.tasks| ==> earlier == 0
    ensures earlier + Writes(steps, i) <= Fling.MAX_TICKS
    decreases |steps|
  {
    hide Next, Enabled;
    if steps != [] {
      var now := earlier + if steps[0].Write? && steps[0].task == i then 1 else 0;
      StepKeepsTime(s, steps[0], i, earlier);
      FlingWritesBounded(Next(s, steps[0]), steps[1..], i, now);
    }
  }

  lemma EveryFlingBounded(inputs: Inputs, steps: seq<Step>, i: nat)
    requires CanRun(Initial(inputs), steps)
    ensures Writes(steps, i) <= Fling.MAX_TICKS
  {
    FlingWritesBounded(Initial(inputs), steps, i, 0);
  }

  lemma StepKeepsTime(s: State, step: Step, i: nat, earlier: nat)
    requires Enabled(s, step)
    requires i < |s.tasks| ==> TimeKept(s.tasks[i], earlier)
    requires i >= |s.tasks| ==> earlier == 0
    ensures var next := Next(s, step);
            var now := earlier + if step.Write? && step.task == i then 1 else 0;
            && (i < |next.tasks| ==> TimeKept(next.tasks[i], now))
            && (i >= |next.tasks| ==> now == 0)
  {
    hide InputsAfter, Fling.Candidate, Fling.Slowed;
  }

  /** Left alone, the three critical sections together are one turn of the fling's loop. */
  lemma UninterruptedTick(s: State, i: nat, display: Rect)
    requires i < |s.tasks| && s.tasks[i].target == s.generation && s.tasks[i].pc.Sleeping?
    ensures var steps := [Check(i), Read(i), Write(i, display)];
            && CanRun(s, steps) && |Run(s, steps).tasks| == |s.tasks|
            && Run(s, steps).generation == s.generation && Run(s, steps).tasks[i].target == s.generation
            && var end := Run(s, steps);
               var task := s.tasks[i];
               var done := end.tasks[i];
               && (done.pc.Sleeping? || done.pc.Returned?)
               && Fling.Tick(Fling.State(s.inputs, task.vx, task.vy, task.elapsed, true), Fling.OneDisplay(display))
               == Fling.State(end.inputs, done.vx, done.vy, done.elapsed, !done.pc.Returned?)
  {
    hide InputsAfter, Fling.Slowed, Fling.Expired;
    var steps := [Check(i), Read(i), Write(i, display)];
    var checked := Next(s, Check(i));
    var read := Next(checked, Read(i));
    var written := Next(read, Write(i, display));
    assert steps[1..] == [Read(i), Write(i, display)];
    assert steps[1..][1..] == [Write(i, display)];
    assert CanRun(written, []);
    assert CanRun(read, [Write(i, display)]) && Run(read, [Write(i, display)]) == written;
    assert CanRun(checked, steps[1..]) && Run(checked, steps[1..]) == written;
  }

  function Turns(i: nat, display: Rect, n: nat): seq<Step> {
    if n == 0 then [] else Turns(i, display, n - 1) + [Check(i), Read(i), Write(i, display)]
  }

  lemma {:induction false} RunTwice(s: State, first: seq<Step>, rest: seq<Step>)
    requires CanRun(s, first) && CanRun(Run(s, first), rest)
    ensures CanRun(s, first + rest) && Run(s, first + rest) == Run(Run(s, first), rest)
    decreases |first|
  {
    hide Next, Enabled;
    if first == [] {
      assert first + rest == rest;
    } else {
      assert (first + rest)[0] == first[0] && (first + rest)[1..] == first[1..] + rest;
      RunTwice(Next(s, first[0]), first[1..], rest);
    }
  }

  /** The task of a fling, as the sequential fling sees it. */
  function FlingOf(s: State, i: nat): Fling.State
    requires i < |s.tasks|
  {
    Fling.State(s.inputs, s.tasks[i].vx, s.tasks[i].vy, s.tasks[i].elapsed, !s.tasks[i].pc.Returned?)
  }

  predicate Current(s: State, i: nat) { i < |s.tasks| && s.tasks[i].target == s.generation }

  lemma {:induction false} UninterruptedTurns(s: State, i: nat, display: Rect, n: nat)
    requires Current(s, i) && s.tasks[i].pc.Sleeping?
    requires n == 0 || Fling.After(FlingOf(s, i), Fling.OneDisplay(display), n - 1).running
    ensures CanRun(s, Turns(i, display, n))
    ensures var end := Run(s, Turns(i, display, n));
            && Current(end, i) && (end.tasks[i].pc.Sleeping? || end.tasks[i].pc.Returned?)
            && FlingOf(end, i) == Fling.After(FlingOf(s, i), Fling.OneDisplay(display), n)
  {
    hide Next, Enabled, Fling.Tick, CanRun, Run;
    if n == 0 {
      RunNothing(s);
    } else {
      UninterruptedTurns(s, i, display, n - 1);
      var before := Run(s, Turns(i, display, n - 1));
      UninterruptedTick(before, i, display);
      RunTwice(s, Turns(i, display, n - 1), [Check(i), Read(i), Write(i, display)]);
    }
  }

  lemma RunNothing(s: State)
    ensures CanRun(s, []) && Run(s, []) == s
  {
  }

  /** A release that nothing interferes with is the sequential fling, turn by turn. */
  lemma UninterruptedFling(s: State, vx: real, vy: real, display: Rect, n: nat)
    requires vx != 0.0 || vy != 0.0
    requires var start := Fling.State(s.inputs, vx, vy, 0, true);
             n == 0 || Fling.After(start, Fling.OneDisplay(display), n - 1).running
    ensures var i := |s.tasks|;
            var steps := [Release(vx, vy)] + Turns(i, display, n);
            && CanRun(s, steps) && i < |Run(s, steps).tasks|
            && FlingOf(Run(s, steps), i)
               == Fling.After(Fling.State(s.inputs, vx, vy, 0, true), Fling.OneDisplay(display), n)
  {
    hide Fling.Tick, Fling.After, Turns;
    var i := |s.tasks|;
    var released := Next(s, Release(vx, vy));
    UninterruptedTurns(released, i, display, n);
    var turns := Turns(i, display, n);
    assert ([Release(vx, vy)] + turns)[1..] == turns;
  }
}
