/**
 Claims as PostgreSQL runs them concurrently: a claim first locks the row it selects, skipping rows
 that other claims hold (`FOR UPDATE SKIP LOCKED`), and only its commit makes the update visible.
 Enqueues, recoveries and finish writes may come in between; a finish write waits for a locked row.
 No claim rolls back.

 The proof shows when such a run is a sequential run of the same statements with every claim at
 the moment of its lock.
 */
module TaskQueueLocks {
  import opened Wrappers
  import opened TaskQueue
  import Json

  /** The committed table, and the claims in flight by the row each one has locked. */
  datatype State = State(tasks: Table, inFlight: map<Id, ClaimOptions>)

  datatype LockStep =
    | Lock(claim: ClaimOptions, id: Id)
    | FindNothing(claim: ClaimOptions)
    | Commit(id: Id)
    | EnqueueNow(id: Id, options: EnqueueOptions, now: int)
    | RecoverNow(now: int)
    | FinishNow(id: Id, write: Write)

  ghost predicate Next(s: State, step: LockStep, s': State) {
    match step
    case Lock(c, id) => IsNext(s.tasks, s.inFlight.Keys, c, id) && s' == s.(inFlight := s.inFlight[id := c])
    case FindNothing(c) => NothingToClaim(s.tasks, s.inFlight.Keys, c) && s' == s
    case Commit(id) =>
      && id in s.inFlight && id in s.tasks
      && s' == State(s.tasks[id := ClaimRow(s.tasks[id], s.inFlight[id])], s.inFlight - {id})
    case EnqueueNow(id, o, now) => id !in s.tasks && s' == s.(tasks := Enqueued(s.tasks, id, o, now))
    case RecoverNow(now) => s' == s.(tasks := Recovered(s.tasks, now))
    case FinishNow(id, w) => id !in s.inFlight && s' == s.(tasks := Written(s.tasks, id, w))
  }

  /** `states[i]` is the state before step `i`. */
  ghost predicate LockRun(states: seq<State>, steps: seq<LockStep>) {
    && |states| == |steps| + 1
    && forall i :: 0 <= i < |steps| ==> Next(states[i], steps[i], states[i + 1])
  }

  /** Every locked row is still the eligible row its claim selected. */
  ghost predicate Inv(s: State) {
    forall id :: id in s.inFlight ==>
      id in s.tasks && Eligible(s.tasks[id], s.inFlight[id].agentType, s.inFlight[id].now)
  }

  /** The table as if every claim in flight had already committed. */
  function Settled(s: State): (t: Table) {
    map id | id in s.tasks :: if id in s.inFlight then ClaimRow(s.tasks[id], s.inFlight[id]) else s.tasks[id]
  }

  predicate LeaseLive(s: State, id: Id, now: int) {
    id in s.inFlight ==> s.inFlight[id].now + s.inFlight[id].ttl >= now
  }

  /** No claim in flight has a lease that a recovery at `now` would already find expired. */
  ghost predicate LeasesLive(s: State, now: int) {
    forall id :: id in s.tasks ==> LeaseLive(s, id, now)
  }

  /** The atomic statement a step stands for; commits stand for none. */
  function Events(step: LockStep): (r: seq<Event>) {
    match step
    case Lock(c, id) => [Claim(c, Some(id))]
    case FindNothing(c) => [Claim(c, None)]
    case Commit(_) => []
    case EnqueueNow(id, o, now) => [Enqueue(id, o, now)]
    case RecoverNow(now) => [Recover(now)]
    case FinishNow(id, w) => [Finish(id, w)]
  }

  function AllEvents(steps: seq<LockStep>): (r: seq<Event>) {
    if steps == [] then [] else AllEvents(steps[..|steps| - 1]) + Events(steps[|steps| - 1])
  }

  // ---------- One step ----------

  lemma NextKeepsInv(s: State, step: LockStep, s': State)
    requires Inv(s) && Next(s, step, s')
    ensures Inv(s')
  {
  }

  lemma LockIsClaim(s: State, c: ClaimOptions, id: Id, s': State)
    requires Inv(s) && Next(s, Lock(c, id), s')
    ensures Step(Settled(s), Claim(c, Some(id)), Settled(s'))
  {
  }

  lemma FindNothingIsClaim(s: State, c: ClaimOptions, s': State)
    requires Inv(s) && Next(s, FindNothing(c), s')
    ensures Step(Settled(s), Claim(c, None), Settled(s'))
  {
  }

  lemma CommitIsSilent(s: State, id: Id, s': State)
    requires Inv(s) && Next(s, Commit(id), s')
    ensures Settled(s') == Settled(s)
  {
  }

  lemma SettledKeys(s: State, key: string)
    ensures HasKey(Settled(s), key) <==> HasKey(s.tasks, key)
  {
    if HasKey(s.tasks, key) {
      var id :| id in s.tasks && s.tasks[id].idempotencyKey == key;
      assert Settled(s)[id].idempotencyKey == key;
    }
    if HasKey(Settled(s), key) {
      var id :| id in Settled(s) && Settled(s)[id].idempotencyKey == key;
      assert s.tasks[id].idempotencyKey == key;
    }
  }

  lemma EnqueueIsEnqueue(s: State, id: Id, o: EnqueueOptions, now: int, s': State)
    requires Inv(s) && Next(s, EnqueueNow(id, o, now), s')
    ensures Step(Settled(s), Enqueue(id, o, now), Settled(s'))
  {
    SettledKeys(s, o.idempotencyKey);
    assert Settled(s') == Enqueued(Settled(s), id, o, now);
  }

  lemma FinishIsFinish(s: State, id: Id, w: Write, s': State)
    requires Inv(s) && Next(s, FinishNow(id, w), s')
    ensures Step(Settled(s), Finish(id, w), Settled(s'))
  {
  }

  lemma RecoveredRow(s: State, now: int, s': State, id: Id)
    requires Inv(s) && Next(s, RecoverNow(now), s') && id in s.tasks
    ensures id in Recovered(Settled(s), now) && id in Settled(s')
    ensures Recovered(Settled(s), now)[id] == Settled(s')[id] <==> LeaseLive(s, id, now)
  {
    if id in s.inFlight {
      assert !Stale(s.tasks[id], now);
      assert RecoverRow(Settled(s)[id], now).status != Claimed;
    }
  }

  /** A recovery fits the sequential order exactly when no claim in flight has outlived its lease. */
  lemma RecoverIsRecover(s: State, now: int, s': State)
    requires Inv(s) && Next(s, RecoverNow(now), s')
    ensures Step(Settled(s), Recover(now), Settled(s')) <==> LeasesLive(s, now)
  {
    forall id | id in s.tasks
      ensures id in Recovered(Settled(s), now) && id in Settled(s')
      ensures Recovered(Settled(s), now)[id] == Settled(s')[id] <==> LeaseLive(s, id, now)
    {
      RecoveredRow(s, now, s', id);
    }
    if LeasesLive(s, now) {
      assert forall id :: id in s.tasks ==> LeaseLive(s, id, now);
      assert Recovered(Settled(s), now) == Settled(s');
    }
    if Recovered(Settled(s), now) == Settled(s') {
      assert forall id :: id in s.tasks ==> LeaseLive(s, id, now);
    }
  }

  // ---------- Whole runs ----------

  /** Every recovery of the run comes while all leases in flight are live. */
  ghost predicate RecoversLive(states: seq<State>, steps: seq<LockStep>)
    requires |states| == |steps| + 1
  {
    forall i :: 0 <= i < |steps| && steps[i].RecoverNow? ==> LeasesLive(states[i], steps[i].now)
  }

  lemma {:induction false} RunKeepsInv(states: seq<State>, steps: seq<LockStep>)
    requires LockRun(states, steps) && Inv(states[0])
    ensures forall i :: 0 <= i < |states| ==> Inv(states[i])
  {
    if steps == [] {
    } else {
      var n := |steps| - 1;
      RunKeepsInv(states[..n + 1], steps[..n]);
      assert Inv(states[..n + 1][n]);
      NextKeepsInv(states[n], steps[n], states[n + 1]);
      forall i | 0 <= i < |states|
        ensures Inv(states[i])
      {
        assert i <= n ==> states[i] == states[..n + 1][i];
      }
    }
  }

  /** A step other than a commit is its atomic statement, unless it is a recovery that finds a dead lease. */
  lemma StepRefines(s: State, step: LockStep, s': State)
    requires Inv(s) && Next(s, step, s') && !step.Commit?
    ensures |Events(step)| == 1
    ensures Step(Settled(s), Events(step)[0], Settled(s')) <==> (step.RecoverNow? ==> LeasesLive(s, step.now))
  {
    match step
    case Lock(c, id) => LockIsClaim(s, c, id, s');
    case FindNothing(c) => FindNothingIsClaim(s, c, s');
    case EnqueueNow(id, o, now) => EnqueueIsEnqueue(s, id, o, now, s');
    case RecoverNow(now) => RecoverIsRecover(s, now, s');
    case FinishNow(id, w) => FinishIsFinish(s, id, w, s');
  }

  /** The settled table at the start and after each step that is not a commit. */
  function SettledTables(states: seq<State>, steps: seq<LockStep>): (r: seq<Table>)
    requires |states| == |steps| + 1
    ensures |r| == |AllEvents(steps)| + 1
  {
    if steps == [] then [Settled(states[0])]
    else
      var n := |steps| - 1;
      SettledTables(states[..n + 1], steps[..n]) + if steps[n].Commit? then [] else [Settled(states[n + 1])]
  }

  lemma {:induction false} SettledEnds(states: seq<State>, steps: seq<LockStep>)
    requires LockRun(states, steps) && Inv(states[0])
    ensures var tables := SettledTables(states, steps);
            tables[0] == Settled(states[0]) && tables[|tables| - 1] == Settled(states[|steps|])
  {
    if steps == [] {
    } else {
      var n := |steps| - 1;
      SettledEnds(states[..n + 1], steps[..n]);
      RunKeepsInv(states, steps);
      assert Next(states[n], steps[n], states[n + 1]);
      if steps[n].Commit? {
        CommitIsSilent(states[n], steps[n].id, states[n + 1]);
      }
    }
  }

  lemma RunSnoc(tables: seq<Table>, events: seq<Event>, e: Event, t: Table)
    requires |tables| == |events| + 1
    ensures Run(tables + [t], events + [e]) <==> Run(tables, events) && Step(tables[|events|], e, t)
  {
    var tables', events' := tables + [t], events + [e];
    if Run(tables', events') {
      forall i | 0 <= i < |events|
        ensures Step(tables[i], events[i], tables[i + 1])
      {
        assert Step(tables'[i], events'[i], tables'[i + 1]);
      }
      assert Step(tables'[|events|], events'[|events|], tables'[|events| + 1]);
    }
  }

  lemma LivePrefix(states: seq<State>, steps: seq<LockStep>)
    requires |states| == |steps| + 1 && steps != []
    ensures var n := |steps| - 1;
            RecoversLive(states, steps) <==>
            RecoversLive(states[..n + 1], steps[..n]) && (steps[n].RecoverNow? ==> LeasesLive(states[n], steps[n].now))
  {
    var n := |steps| - 1;
    if RecoversLive(states, steps) {
      forall i | 0 <= i < n && steps[..n][i].RecoverNow?
        ensures LeasesLive(states[..n + 1][i], steps[..n][i].now)
      {
        assert steps[i].RecoverNow?;
      }
    }
    if RecoversLive(states[..n + 1], steps[..n]) && (steps[n].RecoverNow? ==> LeasesLive(states[n], steps[n].now)) {
      forall i | 0 <= i < |steps| && steps[i].RecoverNow?
        ensures LeasesLive(states[i], steps[i].now)
      {
        assert i < n ==> steps[..n][i] == steps[i] && states[..n + 1][i] == states[i];
      }
    }
  }

  lemma LastStepRefines(states: seq<State>, steps: seq<LockStep>)
    requires LockRun(states, steps) && Inv(states[0]) && steps != [] && !steps[|steps| - 1].Commit?
    ensures var n := |steps| - 1;
            && |Events(steps[n])| == 1
            && (Step(Settled(states[n]), Events(steps[n])[0], Settled(states[n + 1])) <==>
                  (steps[n].RecoverNow? ==> LeasesLive(states[n], steps[n].now)))
  {
    var n := |steps| - 1;
    RunKeepsInv(states, steps);
    StepRefines(states[n], steps[n], states[n + 1]);
  }

  lemma SettledTablesLast(states: seq<State>, steps: seq<LockStep>)
    requires |states| == |steps| + 1 && steps != []
    ensures var n := |steps| - 1;
            var tables, events := SettledTables(states[..n + 1], steps[..n]), AllEvents(steps[..n]);
            if steps[n].Commit? then SettledTables(states, steps) == tables && AllEvents(steps) == events
            else
              && |Events(steps[n])| == 1
              && SettledTables(states, steps) == tables + [Settled(states[n + 1])]
              && AllEvents(steps) == events + [Events(steps[n])[0]]
  {
  }

  lemma LockRunPrefix(states: seq<State>, steps: seq<LockStep>)
    requires LockRun(states, steps) && steps != []
    ensures LockRun(states[..|steps|], steps[..|steps| - 1])
  {
  }

  lemma LastStepLinearizes(states: seq<State>, steps: seq<LockStep>)
    requires LockRun(states, steps) && Inv(states[0]) && steps != []
    ensures var n := |steps| - 1;
            Run(SettledTables(states, steps), AllEvents(steps)) <==>
            Run(SettledTables(states[..n + 1], steps[..n]), AllEvents(steps[..n])) &&
            (steps[n].RecoverNow? ==> LeasesLive(states[n], steps[n].now))
  {
    var n := |steps| - 1;
    SettledTablesLast(states, steps);
    if !steps[n].Commit? {
      LockRunPrefix(states, steps);
      SettledEnds(states[..n + 1], steps[..n]);
      LastStepRefines(states, steps);
      RunSnoc(SettledTables(states[..n + 1], steps[..n]), AllEvents(steps[..n]), Events(steps[n])[0],
              Settled(states[n + 1]));
    }
  }

  /**
   Linearization: the settled tables of a run and its statements, each claim at its lock, are a run of
   the sequential queue if and only if every recovery comes while all leases in flight are live.
   */
  lemma {:induction false} Linearizes(states: seq<State>, steps: seq<LockStep>)
    requires LockRun(states, steps) && Inv(states[0])
    ensures Run(SettledTables(states, steps), AllEvents(steps)) <==> RecoversLive(states, steps)
  {
    if steps == [] {
    } else {
      var n := |steps| - 1;
      LockRunPrefix(states, steps);
      Linearizes(states[..n + 1], steps[..n]);
      LivePrefix(states, steps);
      LastStepLinearizes(states, steps);
    }
  }

  /**
   From an idle queue to an idle queue, that run starts and ends in the committed tables; it is a
   sequential run exactly under the same condition.
   */
  lemma QuiescentRunsAreSequential(states: seq<State>, steps: seq<LockStep>)
    requires LockRun(states, steps)
    requires states[0].inFlight == map[] && states[|steps|].inFlight == map[]
    ensures var tables := SettledTables(states, steps);
            && tables[0] == states[0].tasks && tables[|tables| - 1] == states[|steps|].tasks
            && (Run(tables, AllEvents(steps)) <==> RecoversLive(states, steps))
  {
    Linearizes(states, steps);
    SettledEnds(states, steps);
    IdleIsSettled(states[0]);
    IdleIsSettled(states[|steps|]);
  }

  lemma IdleIsSettled(s: State)
    requires s.inFlight == map[]
    ensures Settled(s) == s.tasks
  {
  }

  /** No step touches a row while a claim holds it, and no second claim gets it. */
  lemma LockedRowFrozen(s: State, step: LockStep, s': State, id: Id)
    requires Inv(s) && Next(s, step, s') && id in s.inFlight && step != Commit(id)
    ensures id in s'.inFlight && s'.inFlight[id] == s.inFlight[id]
    ensures id in s.tasks && id in s'.tasks && s'.tasks[id] == s.tasks[id]
  {
  }

  /**
   The row a claim returns at its commit is the row the sequential claim returns at the moment of
   the lock, whatever happened in between.
   */
  lemma {:induction false} CommitReturnsLockedRow(states: seq<State>, steps: seq<LockStep>, i: nat, j: nat)
    requires LockRun(states, steps) && Inv(states[0])
    requires i < j < |steps| && steps[i].Lock? && steps[j] == Commit(steps[i].id)
    requires forall m :: i < m < j ==> steps[m] != Commit(steps[i].id)
    ensures steps[i].id in Settled(states[i]) && steps[i].id in states[j + 1].tasks
    ensures states[j + 1].tasks[steps[i].id] == ClaimRow(Settled(states[i])[steps[i].id], steps[i].claim)
  {
    var id, c := steps[i].id, steps[i].claim;
    RunKeepsInv(states, steps);
    assert Next(states[i], steps[i], states[i + 1]);
    var m := i + 1;
    while m < j
      invariant i < m <= j
      invariant id in states[m].inFlight && states[m].inFlight[id] == c
      invariant id in states[m].tasks && states[m].tasks[id] == states[i].tasks[id]
    {
      assert Next(states[m], steps[m], states[m + 1]);
      LockedRowFrozen(states[m], steps[m], states[m + 1], id);
      m := m + 1;
    }
    assert Next(states[j], steps[j], states[j + 1]);
  }
}
