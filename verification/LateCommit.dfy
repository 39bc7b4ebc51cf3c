/**
 Why the linearization of claims needs live leases: a run of the concurrent queue, in which a recovery
 comes while a claim in flight has outlived its lease, whose statements have no sequential order.
 */
module LateCommit {
  import opened Wrappers
  import opened TaskQueue
  import opened TaskQueueLocks
  import Json
  import Sorting

  const FIRST: Row := NewTask(EnqueueOptions("k0", "cron", "job", Json.Null, None, "u"), 0)

  const SECOND_TASK: Row := NewTask(EnqueueOptions("k1", "cron", "job", Json.Null, None, "u"), 1)

  const IDLE: Table := map[0 := FIRST, 1 := SECOND_TASK]

  /** A claim at 1 with an empty lease. */
  const CLAIM: ClaimOptions := ClaimOptions("cron", "w", None, 1, 0)

  /** A claim at the moment at which a task taken back at 2, after one attempt, may be tried again. */
  const RETRY: ClaimOptions := ClaimOptions("cron", "w", None, 2 + 2 * SECOND)

  const CLAIMED: Row := ClaimRow(SECOND_TASK, CLAIM)

  const TAKEN_BACK: Row := RecoverRow(CLAIMED, 2)

  const RETRIED: Row := ClaimRow(TAKEN_BACK, RETRY)

  const IN_FLIGHT: map<Id, ClaimOptions> := map[0 := CLAIM]

  /** While the first claim is in flight, the second task is claimed, taken back and claimed again. */
  const LATE_STEPS: seq<LockStep> :=
    [Lock(CLAIM, 0), Lock(CLAIM, 1), Commit(1), RecoverNow(2), Lock(RETRY, 1), Commit(1), Commit(0)]

  const LATE_STATES: seq<State> :=
    [State(IDLE, map[]),
     State(IDLE, IN_FLIGHT),
     State(IDLE, IN_FLIGHT[1 := CLAIM]),
     State(IDLE[1 := CLAIMED], IN_FLIGHT),
     State(IDLE[1 := TAKEN_BACK], IN_FLIGHT),
     State(IDLE[1 := TAKEN_BACK], IN_FLIGHT[1 := RETRY]),
     State(IDLE[1 := RETRIED], IN_FLIGHT),
     State(IDLE[1 := RETRIED][0 := ClaimRow(FIRST, CLAIM)], map[])]

  lemma BothLocked()
    ensures Next(LATE_STATES[0], Lock(CLAIM, 0), LATE_STATES[1])
    ensures Next(LATE_STATES[1], Lock(CLAIM, 1), LATE_STATES[2])
  {
  }

  lemma SecondTakenBack()
    ensures Next(LATE_STATES[2], Commit(1), LATE_STATES[3])
    ensures Next(LATE_STATES[3], RecoverNow(2), LATE_STATES[4])
  {
    assert IN_FLIGHT[1 := CLAIM] - {1} == IN_FLIGHT;
    assert Recovered(IDLE[1 := CLAIMED], 2) == IDLE[1 := TAKEN_BACK];
  }

  lemma SecondRetried()
    ensures Next(LATE_STATES[4], Lock(RETRY, 1), LATE_STATES[5])
    ensures Next(LATE_STATES[5], Commit(1), LATE_STATES[6])
  {
    assert Pow2(1) == 2;
    assert IN_FLIGHT[1 := RETRY] - {1} == IN_FLIGHT;
  }

  lemma FirstCommits()
    ensures Next(LATE_STATES[6], Commit(0), LATE_STATES[7])
  {
    assert IN_FLIGHT - {0} == map[];
  }

  lemma LateRunIsARun()
    ensures LockRun(LATE_STATES, LATE_STEPS)
    ensures LATE_STATES[0].inFlight == map[] && LATE_STATES[|LATE_STEPS|].inFlight == map[]
  {
    BothLocked();
    SecondTakenBack();
    SecondRetried();
    FirstCommits();
  }

  // ---------- No sequential order ----------

  const CLAIM_FIRST: Event := Claim(CLAIM, Some(0))
  const CLAIM_SECOND: Event := Claim(CLAIM, Some(1))
  const RECOVER: Event := Recover(2)
  const RETRY_SECOND: Event := Claim(RETRY, Some(1))

  lemma AllEventsSnoc(steps: seq<LockStep>, step: LockStep)
    ensures AllEvents(steps + [step]) == AllEvents(steps) + Events(step)
  {
    assert (steps + [step])[..|steps|] == steps;
  }

  const LOCKED: seq<LockStep> := [Lock(CLAIM, 0)] + [Lock(CLAIM, 1)]

  const RECOVERED: seq<LockStep> := LOCKED + [Commit(1)] + [RecoverNow(2)]

  const RETRIED_TOO: seq<LockStep> := RECOVERED + [Lock(RETRY, 1)] + [Commit(1)] + [Commit(0)]

  lemma LockedEvents()
    ensures AllEvents(LOCKED) == [CLAIM_FIRST, CLAIM_SECOND]
  {
    AllEventsSnoc([], Lock(CLAIM, 0));
    assert [] + [Lock(CLAIM, 0)] == [Lock(CLAIM, 0)];
    AllEventsSnoc([Lock(CLAIM, 0)], Lock(CLAIM, 1));
  }

  lemma RecoveredEvents()
    ensures AllEvents(RECOVERED) == [CLAIM_FIRST, CLAIM_SECOND, RECOVER]
  {
    LockedEvents();
    AllEventsSnoc(LOCKED, Commit(1));
    AllEventsSnoc(LOCKED + [Commit(1)], RecoverNow(2));
  }

  lemma RetriedEvents()
    ensures AllEvents(RETRIED_TOO) == [CLAIM_FIRST, CLAIM_SECOND, RECOVER, RETRY_SECOND]
  {
    RecoveredEvents();
    AllEventsSnoc(RECOVERED, Lock(RETRY, 1));
    AllEventsSnoc(RECOVERED + [Lock(RETRY, 1)], Commit(1));
    AllEventsSnoc(RECOVERED + [Lock(RETRY, 1)] + [Commit(1)], Commit(0));
  }

  lemma LateEvents()
    ensures AllEvents(LATE_STEPS) == [CLAIM_FIRST, CLAIM_SECOND, RECOVER, RETRY_SECOND]
  {
    RetriedEvents();
    assert LATE_STEPS == RETRIED_TOO;
  }

  /** What may have become of a task: nothing, claimed at 1, taken back at 2, or claimed by the retry. */
  datatype Phase = New | Held | Back | Retried

  predicate Looks(row: Row, task: Row, phase: Phase) {
    match phase
    case New => row == task
    case Held => row == ClaimRow(task, CLAIM)
    case Back => row == RecoverRow(ClaimRow(task, CLAIM), 2)
    case Retried => row.status == Claimed && row.claimExpiresAt == Some(RETRY.now + RETRY.ttl)
  }

  /** Two tasks of one kind, of which the first one goes first. */
  ghost predicate TwoTasks(t: Table) {
    && t.Keys == {0, 1} && t[0].agentType == t[1].agentType == "cron"
    && t[0].priority == t[1].priority && t[0].createdAt < t[1].createdAt
  }

  ghost predicate InPhases(t: Table, first: Phase, second: Phase) {
    TwoTasks(t) && Looks(t[0], FIRST, first) && Looks(t[1], SECOND_TASK, second)
  }

  predicate IsLateEvent(e: Event) {
    e == CLAIM_FIRST || e == CLAIM_SECOND || e == RECOVER || e == RETRY_SECOND
  }

  function AfterRecovery(phase: Phase): (r: Phase) {
    if phase == Held then Back else phase
  }

  /** What the statements can do: the second task is claimed only while the first one cannot be. */
  predicate PhaseStep(first: Phase, second: Phase, e: Event, first': Phase, second': Phase) {
    if e == CLAIM_FIRST then first == New && first' == Held && second' == second
    else if e == CLAIM_SECOND then first != New && second == New && first' == first && second' == Held
    else if e == RETRY_SECOND then
      (first == Held || first == Retried) && (second == New || second == Back) && first' == first && second' == Retried
    else first' == AfterRecovery(first) && second' == AfterRecovery(second)
  }

  /** No claim gets the second task while the first one can be claimed. */
  lemma SecondClaimed(s: Table, c: ClaimOptions, t: Table)
    requires TwoTasks(s) && Step(s, Claim(c, Some(1)), t) && c.agentType == "cron"
    ensures Eligible(s[1], "cron", c.now) && !Eligible(s[0], "cron", c.now)
    ensures TwoTasks(t) && t[0] == s[0] && t[1] == ClaimRow(s[1], c)
  {
  }

  lemma RecoveredTasks(s: Table, t: Table)
    requires TwoTasks(s) && Step(s, RECOVER, t)
    ensures TwoTasks(t)
    ensures t[0] == if Stale(s[0], 2) then RecoverRow(s[0], 2) else s[0]
    ensures t[1] == if Stale(s[1], 2) then RecoverRow(s[1], 2) else s[1]
  {
  }

  lemma RecoveredPhase(row: Row, task: Row, phase: Phase)
    requires Looks(row, task, phase) && task.status == Pending
    ensures Looks(if Stale(row, 2) then RecoverRow(row, 2) else row, task, AfterRecovery(phase))
  {
  }

  lemma LateStep(s: Table, first: Phase, second: Phase, e: Event, t: Table) returns (first': Phase, second': Phase)
    requires InPhases(s, first, second) && IsLateEvent(e) && Step(s, e, t)
    ensures InPhases(t, first', second') && PhaseStep(first, second, e, first', second')
  {
    if e == CLAIM_FIRST {
      first', second' := Held, second;
    } else if e == RECOVER {
      first', second' := AfterRecovery(first), AfterRecovery(second);
      RecoveredTasks(s, t);
      RecoveredPhase(s[0], FIRST, first);
      RecoveredPhase(s[1], SECOND_TASK, second);
    } else {
      assert Pow2(1) == 2;
      first', second' := first, if e == CLAIM_SECOND then Held else Retried;
      SecondClaimed(s, e.claim, t);
    }
  }

  ghost predicate HasAll(events: seq<Event>) {
    |events| == 4 && CLAIM_FIRST in events && CLAIM_SECOND in events && RECOVER in events && RETRY_SECOND in events
  }

  lemma NoPhaseOrder(events: seq<Event>, a1: Phase, b1: Phase, a2: Phase, b2: Phase,
                     a3: Phase, b3: Phase, a4: Phase, b4: Phase)
    requires |events| == 4
    requires PhaseStep(New, New, events[0], a1, b1) && PhaseStep(a1, b1, events[1], a2, b2)
    requires PhaseStep(a2, b2, events[2], a3, b3) && PhaseStep(a3, b3, events[3], a4, b4)
    ensures !HasAll(events)
  {
  }

  lemma NoOrder(tables: seq<Table>, events: seq<Event>)
    requires Run(tables, events) && tables[0] == IDLE
    requires |events| == 4 && forall e :: e in events ==> IsLateEvent(e)
    ensures !HasAll(events)
  {
    var a1, b1 := LateStep(tables[0], New, New, events[0], tables[1]);
    var a2, b2 := LateStep(tables[1], a1, b1, events[1], tables[2]);
    var a3, b3 := LateStep(tables[2], a2, b2, events[2], tables[3]);
    var a4, b4 := LateStep(tables[3], a3, b3, events[3], tables[4]);
    NoPhaseOrder(events, a1, b1, a2, b2, a3, b3, a4, b4);
  }

  lemma SameStatements(events: seq<Event>)
    requires multiset(events) == multiset([CLAIM_FIRST, CLAIM_SECOND, RECOVER, RETRY_SECOND])
    ensures HasAll(events) && forall e :: e in events ==> IsLateEvent(e)
  {
    var all := [CLAIM_FIRST, CLAIM_SECOND, RECOVER, RETRY_SECOND];
    Sorting.SameElements(events, all);
    assert all[0] in all && all[1] in all && all[2] in all && all[3] in all;
  }

  /**
   No sequential run consists of the statements of that run, in whatever order: the claims that the
   workers got cannot have been got one after the other.
   */
  lemma LateCommitHasNoSequentialOrder(tables: seq<Table>, events: seq<Event>)
    requires Run(tables, events) && tables[0] == LATE_STATES[0].tasks
    ensures multiset(events) != multiset(AllEvents(LATE_STEPS))
  {
    LateEvents();
    if multiset(events) == multiset(AllEvents(LATE_STEPS)) {
      SameStatements(events);
      NoOrder(tables, events);
    }
  }
}
