/**
 The worker loop of packages/db/task-queue-worker.ts and the calls of the `stop` function it returns.
 The loop, each call of `stop()` and whoever makes it take turns at their awaits.
 */
module WorkerLoop {
  import opened Wrappers

  /** Where the loop stands: at its condition, in a job, behind a job, waiting for work, or done. */
  datatype Pc = AtCondition | InJob | AfterJob | InWait | Exited

  /** Where a call of `stop()` stands: awaiting the loop, awaiting the waker's stop, or done. */
  datatype StopPc = AwaitingLoop | ClosingWaker | Returned

  /** A call of `stop()` and the number of the job that awaits it, if one does. */
  datatype StopCall = StopCall(pc: StopPc, awaitedBy: Option<nat>)

  /** `jobsStarted` counts the calls of tryClaimAndExecute; the job under way has that number. */
  datatype Loop = Loop(running: bool, pc: Pc, jobsStarted: nat, calls: seq<StopCall>)

  const START := Loop(true, AtCondition, 0, [])

  datatype LoopStep =
    | TestCondition
    | JobEnds
    | TestAgain
    | Woken
    | CallStop
    | JobAwaits(call: nat)
    | LoopAwaited(call: nat)
    | WakerStopped(call: nat)

  ghost predicate JobAwaitsCall(l: Loop, call: nat) {
    && l.pc == InJob && call < |l.calls|
    && l.calls[call].awaitedBy == Some(l.jobsStarted) && l.calls[call].pc != Returned
  }

  /** A job can end once every call of `stop()` it awaits has returned. */
  ghost predicate Free(l: Loop) {
    forall call: nat :: !JobAwaitsCall(l, call)
  }

  function SetCall(l: Loop, call: nat, c: StopCall): (r: Loop)
    requires call < |l.calls|
  {
    l.(calls := l.calls[call := c])
  }

  ghost predicate LoopNext(l: Loop, step: LoopStep, m: Loop) {
    match step
    case TestCondition =>
      l.pc == AtCondition &&
      m == if l.running then l.(pc := InJob, jobsStarted := l.jobsStarted + 1) else l.(pc := Exited)
    case JobEnds => l.pc == InJob && Free(l) && m == l.(pc := AfterJob)
    case TestAgain => l.pc == AfterJob && m == l.(pc := if l.running then InWait else Exited)
    case Woken => l.pc == InWait && m == l.(pc := AtCondition)
    case CallStop => m == l.(running := false, calls := l.calls + [StopCall(AwaitingLoop, None)])
    case JobAwaits(call) =>
      l.pc == InJob && call < |l.calls| && m == SetCall(l, call, l.calls[call].(awaitedBy := Some(l.jobsStarted)))
    case LoopAwaited(call) =>
      && call < |l.calls| && l.calls[call].pc == AwaitingLoop && l.pc == Exited
      && m == SetCall(l, call, l.calls[call].(pc := ClosingWaker))
    case WakerStopped(call) =>
      && call < |l.calls| && l.calls[call].pc == ClosingWaker
      && m == SetCall(l, call, l.calls[call].(pc := Returned))
  }

  ghost predicate LoopRun(loops: seq<Loop>, steps: seq<LoopStep>) {
    && |loops| == |steps| + 1
    && forall i :: 0 <= i < |steps| ==> LoopNext(loops[i], steps[i], loops[i + 1])
  }

  /** A call goes past the loop's promise only when the loop is done, and a called loop is stopped. */
  ghost predicate LoopInv(l: Loop) {
    && (l.calls != [] ==> !l.running)
    && (l.pc != Exited ==> forall c :: c in l.calls ==> c.pc == AwaitingLoop)
  }

  lemma LoopNextKeepsInv(l: Loop, step: LoopStep, m: Loop)
    requires LoopInv(l) && LoopNext(l, step, m)
    ensures LoopInv(m)
  {
    forall c | m.pc != Exited && c in m.calls
      ensures c.pc == AwaitingLoop
    {
      var k :| 0 <= k < |m.calls| && m.calls[k] == c;
      if k < |l.calls| {
        assert l.calls[k] in l.calls;
      }
    }
  }

  lemma {:induction false} LoopRunKeepsInv(loops: seq<Loop>, steps: seq<LoopStep>, n: nat)
    requires LoopRun(loops, steps) && LoopInv(loops[0]) && n < |loops|
    ensures LoopInv(loops[n])
  {
    if n == 0 {
    } else {
      LoopRunKeepsInv(loops, steps, n - 1);
      LoopNextKeepsInv(loops[n - 1], steps[n - 1], loops[n]);
    }
  }

  lemma {:induction false} StaysStopped(loops: seq<Loop>, steps: seq<LoopStep>, i: nat, n: nat)
    requires LoopRun(loops, steps) && i <= n < |loops| && !loops[i].running
    ensures loops[n].jobsStarted == loops[i].jobsStarted && !loops[n].running
    decreases n - i
  {
    if i == n {
    } else {
      assert LoopNext(loops[i], steps[i], loops[i + 1]);
      StaysStopped(loops, steps, i + 1, n);
    }
  }

  /**
   Once `stop()` has been called no further job starts, whatever happens, and the loop does not begin to
   wait for work again.
   */
  lemma NoJobAfterStop(loops: seq<Loop>, steps: seq<LoopStep>, i: nat, n: nat)
    requires LoopRun(loops, steps) && i < n < |loops| && steps[i] == CallStop
    ensures loops[n].jobsStarted == loops[i].jobsStarted
    ensures n < |steps| && loops[n].pc != InWait ==> loops[n + 1].pc != InWait
  {
    assert LoopNext(loops[i], steps[i], loops[i + 1]);
    StaysStopped(loops, steps, i + 1, n);
    if n < |steps| {
      assert LoopNext(loops[n], steps[n], loops[n + 1]);
    }
  }

  lemma {:induction false} HangingStaysHanging(loops: seq<Loop>, steps: seq<LoopStep>, call: nat, i: nat, n: nat)
    requires LoopRun(loops, steps) && LoopInv(loops[0])
    requires i <= n < |loops| && JobAwaitsCall(loops[i], call)
    ensures JobAwaitsCall(loops[n], call)
  {
    if n == i {
    } else {
      HangingStaysHanging(loops, steps, call, i, n - 1);
      LoopRunKeepsInv(loops, steps, n - 1);
      assert LoopNext(loops[n - 1], steps[n - 1], loops[n]);
      assert loops[n - 1].calls[call] in loops[n - 1].calls;
    }
  }

  /**
   A call of `stop()` that the job under way awaits never returns: the call waits for the loop, the loop
   for the job, and the job for the call. The job never ends.
   */
  lemma AwaitedInsideItsJobHangs(loops: seq<Loop>, steps: seq<LoopStep>, i: nat, call: nat, n: nat)
    requires LoopRun(loops, steps) && loops[0] == START
    requires i < |steps| && steps[i] == JobAwaits(call) && i < n < |loops|
    ensures loops[n].pc == InJob && call < |loops[n].calls| && loops[n].calls[call].pc == AwaitingLoop
  {
    LoopRunKeepsInv(loops, steps, i);
    assert LoopNext(loops[i], steps[i], loops[i + 1]);
    assert loops[i].calls[call] in loops[i].calls;
    HangingStaysHanging(loops, steps, call, i + 1, n);
    LoopRunKeepsInv(loops, steps, n);
    assert loops[n].calls[call] in loops[n].calls;
  }

  /** A call of `stop()` returns only once the loop has exited. */
  lemma ReturnsAfterExit(loops: seq<Loop>, steps: seq<LoopStep>, n: nat, call: nat)
    requires LoopRun(loops, steps) && loops[0] == START && n < |loops|
    requires call < |loops[n].calls| && loops[n].calls[call].pc == Returned
    ensures loops[n].pc == Exited && !loops[n].running
  {
    LoopRunKeepsInv(loops, steps, n);
    assert loops[n].calls[call] in loops[n].calls;
  }

  // ---------- When stop() returns ----------

  /** The loop is done and so is every call of `stop()`. */
  ghost predicate Finished(l: Loop) {
    l.pc == Exited && forall c :: c in l.calls ==> c.pc == Returned
  }

  /** Steps by which the loop and its calls get on, as opposed to new calls and awaits from outside. */
  predicate OwnStep(step: LoopStep) {
    !step.CallStop? && !step.JobAwaits?
  }

  function CallSteps(calls: seq<StopCall>): (n: nat) {
    if calls == [] then 0
    else (match calls[0].pc case AwaitingLoop => 2 case ClosingWaker => 1 case Returned => 0) + CallSteps(calls[1..])
  }

  /** Own steps that a stopped loop and its calls still make. */
  function Remaining(l: Loop): (n: nat) {
    (match l.pc case InWait => 2 case AtCondition => 1 case InJob => 2 case AfterJob => 1 case Exited => 0)
    + CallSteps(l.calls)
  }

  lemma {:induction false} CallGoesOn(calls: seq<StopCall>, call: nat, pc: StopPc)
    requires call < |calls|
    requires calls[call].pc == (if pc == ClosingWaker then AwaitingLoop else ClosingWaker) && pc != AwaitingLoop
    ensures CallSteps(calls[call := calls[call].(pc := pc)]) == CallSteps(calls) - 1
  {
    var updated := calls[call := calls[call].(pc := pc)];
    if call == 0 {
      assert updated[1..] == calls[1..];
    } else {
      assert updated[1..] == calls[1..][call - 1 := calls[call].(pc := pc)];
      CallGoesOn(calls[1..], call - 1, pc);
    }
  }

  /** Every own step of a stopped loop brings it closer to its end, whichever is taken. */
  lemma OwnStepsLowerRemaining(l: Loop, step: LoopStep, m: Loop)
    requires !l.running && LoopNext(l, step, m) && OwnStep(step)
    ensures !m.running && Remaining(m) < Remaining(l)
  {
    match step
    case LoopAwaited(call) => CallGoesOn(l.calls, call, ClosingWaker);
    case WakerStopped(call) => CallGoesOn(l.calls, call, Returned);
    case _ =>
  }

  lemma OwnStepsKeepFree(l: Loop, step: LoopStep, m: Loop)
    requires Free(l) && !l.running && LoopNext(l, step, m) && OwnStep(step)
    ensures Free(m)
  {
    forall call: nat
      ensures !JobAwaitsCall(m, call)
    {
      assert !JobAwaitsCall(l, call);
    }
  }

  /** A stopped loop whose job awaits no call of `stop()` has an own step until everything is finished. */
  lemma NextOwnStep(l: Loop) returns (step: LoopStep, m: Loop)
    requires !l.running && Free(l) && !Finished(l)
    ensures LoopNext(l, step, m) && OwnStep(step)
  {
    match l.pc {
      case AtCondition => step, m := TestCondition, l.(pc := Exited);
      case InJob => step, m := JobEnds, l.(pc := AfterJob);
      case AfterJob => step, m := TestAgain, l.(pc := Exited);
      case InWait => step, m := Woken, l.(pc := AtCondition);
      case Exited =>
        var c :| c in l.calls && c.pc != Returned;
        var call :| 0 <= call < |l.calls| && l.calls[call] == c;
        if c.pc == AwaitingLoop {
          step, m := LoopAwaited(call), SetCall(l, call, c.(pc := ClosingWaker));
        } else {
          step, m := WakerStopped(call), SetCall(l, call, c.(pc := Returned));
        }
    }
  }

  /**
   Whatever order they take, a stopped loop and its calls make at most `Remaining` own steps; and when
   none is left they are finished, unless the job under way awaits a call of `stop()`.
   */
  lemma {:induction false} StoppedRunsEnd(loops: seq<Loop>, steps: seq<LoopStep>)
    requires LoopRun(loops, steps) && !loops[0].running && forall step :: step in steps ==> OwnStep(step)
    ensures |steps| + Remaining(loops[|steps|]) <= Remaining(loops[0])
    ensures (forall step, m :: OwnStep(step) ==> !LoopNext(loops[|steps|], step, m)) ==>
              Finished(loops[|steps|]) || !Free(loops[|steps|])
  {
    var last := loops[|steps|];
    if steps == [] {
    } else {
      assert OwnStep(steps[0]) && LoopNext(loops[0], steps[0], loops[1]);
      OwnStepsLowerRemaining(loops[0], steps[0], loops[1]);
      forall i | 0 <= i < |steps| - 1
        ensures LoopNext(loops[1..][i], steps[1..][i], loops[1..][i + 1])
      {
        assert LoopNext(loops[i + 1], steps[i + 1], loops[i + 2]);
      }
      StoppedRunsEnd(loops[1..], steps[1..]);
    }
    StaysStopped(loops, steps, 0, |steps|);
    if Free(last) && !Finished(last) {
      var step, m := NextOwnStep(last);
    }
  }

  /** A stopped loop whose job awaits no call of `stop()` can finish, and every call returns. */
  lemma {:induction false} StopReturns(l: Loop) returns (loops: seq<Loop>, steps: seq<LoopStep>)
    requires !l.running && Free(l)
    ensures LoopRun(loops, steps) && loops[0] == l && Finished(loops[|steps|])
    ensures forall step :: step in steps ==> OwnStep(step)
    decreases Remaining(l)
  {
    if Finished(l) {
      loops, steps := [l], [];
    } else {
      var step, m := NextOwnStep(l);
      OwnStepsLowerRemaining(l, step, m);
      OwnStepsKeepFree(l, step, m);
      var loops', steps' := StopReturns(m);
      loops, steps := [l] + loops', [step] + steps';
    }
  }

  ghost predicate CanFinish(l: Loop) {
    exists loops, steps :: LoopRun(loops, steps) && loops[0] == l && Finished(loops[|steps|])
  }

  /**
   In every reachable state after a call of `stop()`, the loop can still exit and all the calls return if
   and only if the job under way awaits none of them.
   */
  lemma StopReturnsExactly(past: seq<Loop>, pastSteps: seq<LoopStep>, call: nat)
    requires LoopRun(past, pastSteps) && past[0] == START && call < |pastSteps| && pastSteps[call] == CallStop
    ensures var l := past[|pastSteps|]; CanFinish(l) <==> Free(l)
  {
    var l := past[|pastSteps|];
    LoopRunKeepsInv(past, pastSteps, |pastSteps|);
    assert LoopNext(past[call], pastSteps[call], past[call + 1]);
    StaysStopped(past, pastSteps, call + 1, |pastSteps|);
    if Free(l) {
      var loops, steps := StopReturns(l);
    }
    if CanFinish(l) && !Free(l) {
      var loops, steps :| LoopRun(loops, steps) && loops[0] == l && Finished(loops[|steps|]);
      var awaited: nat :| JobAwaitsCall(l, awaited);
      HangingStaysHanging(loops, steps, awaited, 0, |steps|);
    }
  }
}
