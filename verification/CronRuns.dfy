/**
 Overlapping calls of the cron worker of apps/server/src/jobs/scheduler.ts. The polling timer calls
 `processOneCronTask` whether or not an earlier call has come to its end; at each await of a call
 other callbacks and other clients of the queue may take their turns.
 */
module CronRuns {
  import opened Wrappers
  import opened TaskQueue
  import opened TaskQueueRuns
  import opened CronWorker

  /** Where a call that got past the flag stands. */
  datatype Pc =
    | Claiming
    | Executing(id: Id, jobType: string)
    | Finishing(id: Id, writes: seq<Write>)
    | Ended

  /** `running` is the flag; `calls` are the calls that got past it, in order. */
  datatype State = State(running: bool, calls: seq<Pc>, tasks: Table)

  datatype CronStep =
    | Tick
    | ClaimFails(call: nat)
    | Claims(call: nat, now: int, claimed: Option<Id>)
    | JobEnds(call: nat, outcome: Outcome, at: Times, faults: Faults)
    | Writes(call: nat)
    | CallEnds(call: nat)
    | Other(event: Event)

  function Moved(s: State, call: nat, pc: Pc): (r: State)
    requires call < |s.calls|
  {
    s.(calls := s.calls[call := pc])
  }

  /** The `finally` block of a call. */
  function Done(s: State, call: nat): (r: State)
    requires call < |s.calls|
  {
    Moved(s, call, Ended).(running := false)
  }

  ghost predicate Next(s: State, step: CronStep, t: State) {
    match step
    case Tick => t == if s.running then s else s.(running := true, calls := s.calls + [Claiming])
    case ClaimFails(k) => k < |s.calls| && s.calls[k] == Claiming && t == Done(s, k)
    case Claims(k, now, claimed) =>
      && k < |s.calls| && s.calls[k] == Claiming && Step(s.tasks, Claim(CronClaim(now), claimed), t.tasks)
      && t == (if claimed.None? then Done(s, k) else Moved(s, k, Executing(claimed.value, s.tasks[claimed.value].jobType))).(tasks := t.tasks)
    case JobEnds(k, outcome, at, faults) =>
      && k < |s.calls| && s.calls[k].Executing?
      && t == Moved(s, k, Finishing(s.calls[k].id, FinishWrites(outcome, s.calls[k].jobType, at, faults)))
    case Writes(k) =>
      && k < |s.calls| && s.calls[k].Finishing? && s.calls[k].writes != []
      && t == Moved(s, k, s.calls[k].(writes := s.calls[k].writes[1..]))
              .(tasks := Written(s.tasks, s.calls[k].id, s.calls[k].writes[0]))
    case CallEnds(k) => k < |s.calls| && s.calls[k].Finishing? && s.calls[k].writes == [] && t == Done(s, k)
    case Other(e) => Step(s.tasks, e, t.tasks) && t == s.(tasks := t.tasks)
  }

  ghost predicate CronRun(states: seq<State>, steps: seq<CronStep>) {
    && |states| == |steps| + 1
    && forall i :: 0 <= i < |steps| ==> Next(states[i], steps[i], states[i + 1])
  }

  /** At most the latest call is under way, and then the flag is set. */
  ghost predicate NoOverlap(s: State) {
    && (forall k :: 0 <= k < |s.calls| - 1 ==> s.calls[k] == Ended)
    && (s.running <==> s.calls != [] && s.calls[|s.calls| - 1] != Ended)
  }

  /** The writes still to be made settle their tasks. */
  ghost predicate WritesSettle(s: State) {
    forall k, i :: 0 <= k < |s.calls| && s.calls[k].Finishing? && 0 <= i < |s.calls[k].writes| ==>
      Settles(Finish(s.calls[k].id, s.calls[k].writes[i]))
  }

  lemma NextKeepsNoOverlap(s: State, step: CronStep, t: State)
    requires NoOverlap(s) && Next(s, step, t)
    ensures NoOverlap(t)
  {
  }

  lemma NextKeepsSettling(s: State, step: CronStep, t: State)
    requires WritesSettle(s) && Next(s, step, t)
    ensures WritesSettle(t)
  {
    if step.JobEnds? {
      var call := s.calls[step.call];
      CronWritesSettle(step.outcome, call.jobType, step.at, step.faults, call.id);
    }
  }

  /** However calls, their awaits and other clients interleave, calls of the worker do not overlap. */
  lemma {:induction false} CallsDoNotOverlap(states: seq<State>, steps: seq<CronStep>, n: nat)
    requires CronRun(states, steps) && NoOverlap(states[0]) && WritesSettle(states[0]) && n < |states|
    ensures NoOverlap(states[n]) && WritesSettle(states[n])
  {
    if n == 0 {
    } else {
      CallsDoNotOverlap(states, steps, n - 1);
      NextKeepsNoOverlap(states[n - 1], steps[n - 1], states[n]);
      NextKeepsSettling(states[n - 1], steps[n - 1], states[n]);
    }
  }

  /** The statement a step makes, if any. */
  function Statement(s: State, step: CronStep): (r: seq<Event>) {
    match step
    case Claims(_, now, claimed) => [Claim(CronClaim(now), claimed)]
    case Writes(k) =>
      if k < |s.calls| && s.calls[k].Finishing? && s.calls[k].writes != [] then
        [Finish(s.calls[k].id, s.calls[k].writes[0])]
      else []
    case Other(e) => [e]
    case _ => []
  }

  lemma StatementIsStep(s: State, step: CronStep, t: State)
    requires Next(s, step, t) && WritesSettle(s) && (step.Other? ==> Settles(step.event))
    ensures Statement(s, step) == [] ==> t.tasks == s.tasks
    ensures |Statement(s, step)| <= 1
    ensures Statement(s, step) != [] ==>
              Step(s.tasks, Statement(s, step)[0], t.tasks) && Settles(Statement(s, step)[0])
  {
  }

  lemma RunMore(tables: seq<Table>, events: seq<Event>, e: Event, t: Table)
    requires Run(tables, events) && AllSettle(events) && Step(tables[|events|], e, t) && Settles(e)
    ensures Run(tables + [t], events + [e]) && AllSettle(events + [e])
  {
  }

  /**
   The whole system, cron worker and other clients together, is a run of the queue whose finish writes
   settle their tasks, so the bounds on claims and recoveries hold of it.
   */
  lemma {:induction false} CronRunsAreQueueRuns(states: seq<State>, steps: seq<CronStep>)
    returns (tables: seq<Table>, events: seq<Event>)
    requires CronRun(states, steps) && NoOverlap(states[0]) && WritesSettle(states[0])
    requires forall i :: 0 <= i < |steps| && steps[i].Other? ==> Settles(steps[i].event)
    ensures Run(tables, events) && AllSettle(events)
    ensures tables[0] == states[0].tasks && tables[|events|] == states[|steps|].tasks
  {
    if steps == [] {
      tables, events := [states[0].tasks], [];
    } else {
      var n := |steps| - 1;
      tables, events := CronRunsAreQueueRuns(states[..n + 1], steps[..n]);
      CallsDoNotOverlap(states, steps, n);
      assert Next(states[n], steps[n], states[n + 1]);
      StatementIsStep(states[n], steps[n], states[n + 1]);
      var statement := Statement(states[n], steps[n]);
      if statement != [] {
        RunMore(tables, events, statement[0], states[n + 1].tasks);
        tables, events := tables + [states[n + 1].tasks], events + [statement[0]];
      }
    }
  }

  /** In every such run a task keeps to its cap, whatever the cron worker and the others do. */
  lemma CronSystemKeepsGood(states: seq<State>, steps: seq<CronStep>)
    requires CronRun(states, steps) && NoOverlap(states[0]) && WritesSettle(states[0]) && AllGood(states[0].tasks)
    requires forall i :: 0 <= i < |steps| && steps[i].Other? ==> Settles(steps[i].event)
    ensures AllGood(states[|steps|].tasks)
  {
    var tables, events := CronRunsAreQueueRuns(states, steps);
    RunKeepsGood(tables, events);
  }
}
