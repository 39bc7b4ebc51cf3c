/**
 Whole runs of the task queue: how far apart the claims of one task lie, how many there can be, and
 that a task which is not finished always has a step ahead of it.
 */
module TaskQueueRuns {
  import opened Wrappers
  import opened TaskQueue

  // ---------- The claims of one task ----------

  predicate IsClaimOf(e: Event, id: Id) {
    e.Claim? && e.claimed == Some(id)
  }

  /** The times at which a run claims the task, in order. */
  function ClaimTimes(events: seq<Event>, id: Id): (r: seq<int>) {
    if events == [] then []
    else
      var n := |events| - 1;
      ClaimTimes(events[..n], id) + if IsClaimOf(events[n], id) then [events[n].claim.now] else []
  }

  /** Nobody but claims and recoveries touches the task. */
  ghost predicate OnlyClaimsAndRecoveries(events: seq<Event>, id: Id) {
    forall i :: 0 <= i < |events| ==> !(events[i].Finish? && events[i].id == id)
  }

  ghost predicate LeasesAtLeast(events: seq<Event>, id: Id, ttl: int) {
    forall i :: 0 <= i < |events| && IsClaimOf(events[i], id) ==> events[i].claim.ttl >= ttl
  }

  lemma RunPrefix(tables: seq<Table>, events: seq<Event>)
    requires Run(tables, events) && events != []
    ensures Run(tables[..|events|], events[..|events| - 1])
    ensures Step(tables[|events| - 1], events[|events| - 1], tables[|events|])
  {
  }

  // ---------- Backoff ----------

  /** Earliest allowed distance of the `n`-th claim from the first one. */
  function Distance(n: nat, ttl: int): (r: int)
    requires n >= 1
  {
    (n - 1) * ttl + (Pow2(n) - 2) * SECOND
  }

  lemma DistanceStep(n: nat, ttl: int)
    requires n >= 1
    ensures Distance(n + 1, ttl) == Distance(n, ttl) + ttl + Pow2(n) * SECOND
  {
  }

  /** What a row says about the claims made so far. */
  ghost predicate BackoffInv(row: Row, times: seq<int>, ttl: int) {
    var n := |times|;
    && row.attempt == n
    && (row.status == Pending || row.status == Claimed || row.status == Dead)
    && (n >= 2 ==> times[n - 1] > times[0] + Distance(n, ttl))
    && (row.status == Claimed ==> n >= 1 && row.claimExpiresAt.Some? && row.claimExpiresAt.value >= times[n - 1] + ttl)
    && (row.status == Pending && n >= 1 ==>
          row.nextRetryAt.Some? && row.nextRetryAt.value > times[n - 1] + ttl + Pow2(n) * SECOND)
  }

  lemma BackoffStep(t: Table, e: Event, t': Table, id: Id, times: seq<int>, ttl: int)
    requires id in t && Step(t, e, t') && BackoffInv(t[id], times, ttl)
    requires !(e.Finish? && e.id == id) && (IsClaimOf(e, id) ==> e.claim.ttl >= ttl)
    ensures id in t'
    ensures BackoffInv(t'[id], times + if IsClaimOf(e, id) then [e.claim.now] else [], ttl)
  {
    var n := |times|;
    if IsClaimOf(e, id) {
      assert Eligible(t[id], e.claim.agentType, e.claim.now);
      if n >= 1 {
        DistanceStep(n, ttl);
        assert n == 1 ==> Distance(n, ttl) == 0;
      }
      assert t'[id] == ClaimRow(t[id], e.claim);
    } else {
      assert times + [] == times;
      if e.Recover? && Stale(t[id], e.now) {
        assert t'[id] == RecoverRow(t[id], e.now);
      } else {
        assert t'[id] == t[id];
      }
    }
  }

  lemma {:induction false} BackoffInvariant(tables: seq<Table>, events: seq<Event>, id: Id, ttl: int)
    requires Run(tables, events) && id in tables[0]
    requires tables[0][id].status == Pending && tables[0][id].attempt == 0
    requires OnlyClaimsAndRecoveries(events, id) && LeasesAtLeast(events, id, ttl)
    ensures id in tables[|events|] && BackoffInv(tables[|events|][id], ClaimTimes(events, id), ttl)
  {
    if events == [] {
    } else {
      var n := |events| - 1;
      RunPrefix(tables, events);
      BackoffInvariant(tables[..n + 1], events[..n], id, ttl);
      BackoffStep(tables[n], events[n], tables[n + 1], id, ClaimTimes(events[..n], id), ttl);
    }
  }

  lemma ClaimTimesPrefix(events: seq<Event>, n: nat, id: Id)
    requires n <= |events|
    ensures ClaimTimes(events[..n], id) <= ClaimTimes(events, id)
  {
    if n < |events| {
      ClaimTimesPrefix(events[..|events| - 1], n, id);
      assert events[..|events| - 1][..n] == events[..n];
    } else {
      assert events[..n] == events;
    }
  }

  /**
   Exponential backoff over a whole run: a new task that only claims and recoveries touch is
   claimed for the k-th time strictly later than its first claim plus k - 1 leases plus
   2^k - 2 seconds.
   */
  lemma {:induction false} BackoffBound(tables: seq<Table>, events: seq<Event>, id: Id, ttl: int, k: nat)
    requires Run(tables, events) && id in tables[0]
    requires tables[0][id].status == Pending && tables[0][id].attempt == 0
    requires OnlyClaimsAndRecoveries(events, id) && LeasesAtLeast(events, id, ttl)
    requires 2 <= k <= |ClaimTimes(events, id)|
    ensures var times := ClaimTimes(events, id);
            times[k - 1] > times[0] + (k - 1) * ttl + (Pow2(k) - 2) * SECOND
  {
    var n := |events| - 1;
    if |ClaimTimes(events, id)| == k {
      BackoffInvariant(tables, events, id, ttl);
    } else {
      RunPrefix(tables, events);
      ClaimTimesPrefix(events, n, id);
      BackoffBound(tables[..n + 1], events[..n], id, ttl, k);
    }
  }

  // ---------- Termination ----------

  function Cap(row: Row): (r: nat)
    ensures r >= 1
  {
    if row.maxAttempts > 1 then row.maxAttempts else 1
  }

  /** What the statements keep of every row, as long as nobody else writes `pending` or `claimed`. */
  ghost predicate Good(row: Row) {
    && (row.status == Pending ==> row.attempt < Cap(row))
    && (row.status == Claimed ==> 1 <= row.attempt <= Cap(row) && row.claimExpiresAt.Some?)
  }

  ghost predicate AllGood(t: Table) {
    forall id :: id in t ==> Good(t[id])
  }

  /** A finish write as the workers make it: not back to `pending` or `claimed`. */
  predicate Settles(e: Event) {
    e.Finish? && e.write.StatusWrite? ==> e.write.status != Pending && e.write.status != Claimed
  }

  ghost predicate AllSettle(events: seq<Event>) {
    forall i :: 0 <= i < |events| ==> Settles(events[i])
  }

  lemma StepKeepsGood(t: Table, e: Event, t': Table)
    requires AllGood(t) && Step(t, e, t') && Settles(e)
    ensures AllGood(t') && t.Keys <= t'.Keys
  {
  }

  lemma {:induction false} RunKeepsGood(tables: seq<Table>, events: seq<Event>)
    requires Run(tables, events) && AllGood(tables[0]) && AllSettle(events)
    ensures AllGood(tables[|events|]) && tables[0].Keys <= tables[|events|].Keys
  {
    if events == [] {
    } else {
      var n := |events| - 1;
      RunPrefix(tables, events);
      RunKeepsGood(tables[..n + 1], events[..n]);
      StepKeepsGood(tables[n], events[n], tables[n + 1]);
    }
  }

  /** Claims and recoveries a task may still see. */
  function Measure(row: Row): (r: nat)
    requires Good(row)
  {
    if row.status == Pending then 2 * (Cap(row) - row.attempt)
    else if row.status == Claimed then 2 * (Cap(row) - row.attempt) + 1
    else 0
  }

  /** A claim of the task or a recovery that takes it back. */
  predicate Consumes(t: Table, e: Event, id: Id)
    requires id in t
  {
    IsClaimOf(e, id) || (e.Recover? && Stale(t[id], e.now))
  }

  /** Every claim and every recovery of a task lowers its measure; nothing ever raises it. */
  lemma StepLowersMeasure(t: Table, e: Event, t': Table, id: Id)
    requires AllGood(t) && Step(t, e, t') && Settles(e) && id in t
    ensures id in t' && Good(t'[id])
    ensures Measure(t'[id]) <= Measure(t[id])
    ensures Consumes(t, e, id) ==> Measure(t'[id]) < Measure(t[id])
    ensures Cap(t'[id]) == Cap(t[id])
  {
  }

  /** How many events of the run claim the task or take it back. */
  ghost function Consumptions(tables: seq<Table>, events: seq<Event>, id: Id): (r: nat)
    requires |tables| == |events| + 1 && forall i :: 0 <= i < |tables| ==> id in tables[i]
  {
    if events == [] then 0
    else
      var n := |events| - 1;
      Consumptions(tables[..n + 1], events[..n], id) + if Consumes(tables[n], events[n], id) then 1 else 0
  }

  lemma {:induction false} RunKeepsIds(tables: seq<Table>, events: seq<Event>, id: Id)
    requires Run(tables, events) && id in tables[0]
    ensures forall i :: 0 <= i < |tables| ==> id in tables[i]
  {
    if events == [] {
    } else {
      var n := |events| - 1;
      RunPrefix(tables, events);
      RunKeepsIds(tables[..n + 1], events[..n], id);
      assert id in tables[..n + 1][n];
      forall i | 0 <= i < |tables|
        ensures id in tables[i]
      {
        assert i <= n ==> tables[i] == tables[..n + 1][i];
      }
    }
  }

  /** Whatever the interleaving, a task is claimed and taken back no more often than its measure. */
  lemma {:induction false} ConsumptionsBounded(tables: seq<Table>, events: seq<Event>, id: Id)
    requires Run(tables, events) && AllGood(tables[0]) && AllSettle(events) && id in tables[0]
    ensures forall i :: 0 <= i < |tables| ==> id in tables[i]
    ensures Good(tables[|events|][id])
    ensures Consumptions(tables, events, id) + Measure(tables[|events|][id]) <= Measure(tables[0][id])
  {
    RunKeepsIds(tables, events, id);
    RunKeepsGood(tables, events);
    if events == [] {
    } else {
      var n := |events| - 1;
      RunPrefix(tables, events);
      ConsumptionsBounded(tables[..n + 1], events[..n], id);
      RunKeepsGood(tables[..n + 1], events[..n]);
      StepLowersMeasure(tables[n], events[n], tables[n + 1], id);
    }
  }

  // ---------- Exactly as many claims as allowed ----------

  /** What a row that only claims and recoveries touch says about the number of its claims. */
  ghost predicate CountInv(row: Row, cap: nat, claims: nat) {
    && Cap(row) == cap && Good(row) && row.attempt == claims
    && (row.status == Pending || row.status == Claimed || (row.status == Dead && claims == cap))
  }

  lemma CountStep(t: Table, e: Event, t': Table, id: Id, cap: nat, claims: nat)
    requires id in t && Step(t, e, t') && CountInv(t[id], cap, claims)
    requires !(e.Finish? && e.id == id)
    ensures id in t' && CountInv(t'[id], cap, claims + if IsClaimOf(e, id) then 1 else 0)
  {
  }

  /**
   A new task that only claims and recoveries touch is claimed at most max(1, max_attempts) times,
   and it is dead only after exactly that many claims.
   */
  lemma {:induction false} DiesAfterExactlyCapClaims(tables: seq<Table>, events: seq<Event>, id: Id)
    requires Run(tables, events) && id in tables[0]
    requires tables[0][id].status == Pending && tables[0][id].attempt == 0
    requires OnlyClaimsAndRecoveries(events, id)
    ensures id in tables[|events|]
    ensures CountInv(tables[|events|][id], Cap(tables[0][id]), |ClaimTimes(events, id)|)
    ensures |ClaimTimes(events, id)| <= Cap(tables[0][id])
    ensures tables[|events|][id].status == Dead ==> |ClaimTimes(events, id)| == Cap(tables[0][id])
  {
    if events == [] {
    } else {
      var n := |events| - 1;
      RunPrefix(tables, events);
      DiesAfterExactlyCapClaims(tables[..n + 1], events[..n], id);
      CountStep(tables[n], events[n], tables[n + 1], id, Cap(tables[0][id]), |ClaimTimes(events[..n], id)|);
    }
  }

  // ---------- Progress ----------

  /**
   A pending task is claimable by its agents from its retry time on: no such claim comes back empty,
   and the task itself is the one claimed as soon as no eligible task comes before it.
   */
  lemma PendingIsClaimable(t: Table, id: Id, c: ClaimOptions)
    requires id in t && t[id].status == Pending && c.agentType == t[id].agentType
    requires t[id].nextRetryAt.Some? ==> c.now >= t[id].nextRetryAt.value
    ensures !NothingToClaim(t, {}, c)
    ensures exists first :: IsNext(t, {}, c, first) && !Before(t[id], t[first])
    ensures IsNext(t, {}, c, id) <==> Better(t, {}, c, id) == {}
  {
    assert Eligible(t[id], c.agentType, c.now);
    var first := SomethingToClaim(t, {}, c, id);
    if Better(t, {}, c, id) == {} {
      forall other | other in t && Eligible(t[other], c.agentType, c.now)
        ensures !Before(t[other], t[id])
      {
        assert other !in Better(t, {}, c, id);
      }
    }
    if IsNext(t, {}, c, id) {
      forall other
        ensures other !in Better(t, {}, c, id)
      {
      }
    }
  }

  /** A claimed task is taken back or buried by any recovery after its lease. */
  lemma ClaimedIsRecovered(t: Table, id: Id, now: int)
    requires AllGood(t) && id in t && t[id].status == Claimed && now > t[id].claimExpiresAt.value
    ensures id in Recovered(t, now)
    ensures Recovered(t, now)[id].status == if t[id].attempt == Cap(t[id]) then Dead else Pending
  {
  }

  /** The measures of all rows together. */
  ghost function Total(t: Table): (r: nat)
    requires AllGood(t)
    decreases |t|
  {
    if t == map[] then 0
    else
      var id :| id in t;
      RemoveSmaller(t, id);
      Measure(t[id]) + Total(t - {id})
  }

  lemma RemoveSmaller(t: Table, id: Id)
    requires id in t
    ensures |t - {id}| < |t|
  {
  }

  lemma {:induction false} TotalSplit(t: Table, id: Id)
    requires AllGood(t) && id in t
    ensures Total(t) == Measure(t[id]) + Total(t - {id})
    decreases |t|
  {
    var first :| id in t && first in t && Total(t) == Measure(t[first]) + Total(t - {first});
    if first != id {
      RemoveSmaller(t, first);
      RemoveSmaller(t, id);
      TotalSplit(t - {first}, id);
      TotalSplit(t - {id}, first);
      assert t - {first} - {id} == t - {id} - {first};
    }
  }

  lemma {:induction false} TotalMonotone(t: Table, t': Table)
    requires AllGood(t) && AllGood(t') && t.Keys == t'.Keys
    requires forall id :: id in t ==> Measure(t'[id]) <= Measure(t[id])
    ensures Total(t') <= Total(t)
    decreases |t|
  {
    if t == map[] {
      assert t' == map[];
    } else {
      var id :| id in t;
      TotalSplit(t, id);
      TotalSplit(t', id);
      RemoveSmaller(t, id);
      TotalMonotone(t - {id}, t' - {id});
    }
  }

  lemma TotalLess(t: Table, t': Table, id: Id)
    requires AllGood(t) && AllGood(t') && t.Keys == t'.Keys && id in t
    requires forall i :: i in t ==> Measure(t'[i]) <= Measure(t[i])
    requires Measure(t'[id]) < Measure(t[id])
    ensures Total(t') < Total(t)
  {
    TotalSplit(t, id);
    TotalSplit(t', id);
    TotalMonotone(t - {id}, t' - {id});
  }

  ghost predicate Unfinished(row: Row) {
    row.status == Pending || row.status == Claimed
  }

  predicate Effective(e: Event) {
    e.Recover? || (e.Claim? && e.claimed.Some?)
  }

  /** The NOW() of an effective event. */
  function TimeOf(e: Event): (r: int)
    requires Effective(e)
  {
    if e.Claim? then e.claim.now else e.now
  }

  /** From any time on, a table with an unfinished task has a claim or recovery that lowers the total. */
  lemma NextEffectiveStep(t: Table, id: Id, clock: int) returns (e: Event, t': Table)
    requires AllGood(t) && id in t && Unfinished(t[id])
    ensures Effective(e) && TimeOf(e) >= clock
    ensures Step(t, e, t') && t'.Keys == t.Keys && AllGood(t') && Total(t') < Total(t)
  {
    var hit := id;
    if t[id].status == Pending {
      var retry := if t[id].nextRetryAt.Some? then t[id].nextRetryAt.value else clock;
      var c := ClaimOptions(t[id].agentType, "worker", None, if retry > clock then retry else clock);
      PendingIsClaimable(t, id, c);
      var first :| IsNext(t, {}, c, first);
      hit := first;
      e := Claim(c, Some(first));
      t' := t[first := ClaimRow(t[first], c)];
    } else {
      var over := t[id].claimExpiresAt.value + 1;
      var now := if over > clock then over else clock;
      e := Recover(now);
      t' := Recovered(t, now);
    }
    StepKeepsGood(t, e, t');
    forall i | i in t
      ensures Measure(t'[i]) <= Measure(t[i])
    {
      StepLowersMeasure(t, e, t', i);
    }
    StepLowersMeasure(t, e, t', hit);
    TotalLess(t, t', hit);
  }

  /** Effective events from `clock` on, at times that do not decrease. */
  ghost predicate Schedule(events: seq<Event>, clock: int) {
    events != [] ==> Effective(events[0]) && TimeOf(events[0]) >= clock && Schedule(events[1..], TimeOf(events[0]))
  }

  /** A run of effective events from `clock` on that leaves no task of `t` pending or claimed. */
  ghost predicate DrainingRun(t: Table, clock: int, tables: seq<Table>, events: seq<Event>) {
    && Run(tables, events) && tables[0] == t && Schedule(events, clock)
    && tables[|events|].Keys == t.Keys
    && forall id :: id in t ==> !Unfinished(tables[|events|][id])
  }

  lemma DrainingRunCons(t: Table, clock: int, e: Event, t': Table, tables: seq<Table>, events: seq<Event>)
    requires Step(t, e, t') && t'.Keys == t.Keys && Effective(e) && TimeOf(e) >= clock
    requires DrainingRun(t', TimeOf(e), tables, events)
    ensures DrainingRun(t, clock, [t] + tables, [e] + events)
  {
  }

  /**
   Claims and recoveries alone finish every queue: from any good table and any time there is a run of
   them, on a clock that does not go back, after which no task is pending or claimed. It takes no more
   steps than the total measure.
   */
  lemma {:induction false} Drains(t: Table, clock: int) returns (tables: seq<Table>, events: seq<Event>)
    requires AllGood(t)
    ensures DrainingRun(t, clock, tables, events) && |events| <= Total(t)
    decreases Total(t)
  {
    if id :| id in t && Unfinished(t[id]) {
      var e, t' := NextEffectiveStep(t, id, clock);
      var moreTables, moreEvents := Drains(t', TimeOf(e));
      tables, events := [t] + moreTables, [e] + moreEvents;
      DrainingRunCons(t, clock, e, t', moreTables, moreEvents);
    } else {
      tables, events := [t], [];
    }
  }

  lemma {:induction false} ScheduleIsEffective(events: seq<Event>, clock: int)
    requires Schedule(events, clock)
    ensures forall i :: 0 <= i < |events| ==> Effective(events[i])
  {
    if events == [] {
    } else {
      ScheduleIsEffective(events[1..], TimeOf(events[0]));
      forall i | 0 <= i < |events|
        ensures Effective(events[i])
      {
        assert i > 0 ==> events[i] == events[1..][i - 1];
      }
    }
  }

  /** In a run of claims and recoveries that finishes everything, a new task dies after exactly as many claims as allowed. */
  lemma DrainedTaskDies(t: Table, clock: int, tables: seq<Table>, events: seq<Event>, id: Id)
    requires DrainingRun(t, clock, tables, events)
    requires id in t && t[id].status == Pending && t[id].attempt == 0
    ensures tables[|events|][id].status == Dead
    ensures |ClaimTimes(events, id)| == Cap(t[id])
  {
    ScheduleIsEffective(events, clock);
    DiesAfterExactlyCapClaims(tables, events, id);
  }

  // ---------- From the enqueue on ----------

  lemma {:induction false} ClaimTimesConcat(a: seq<Event>, b: seq<Event>, id: Id)
    ensures ClaimTimes(a + b, id) == ClaimTimes(a, id) + ClaimTimes(b, id)
    decreases |b|
  {
    if b == [] {
      assert a + b == a;
    } else {
      var n := |b| - 1;
      ClaimTimesConcat(a, b[..n], id);
      assert (a + b)[..|a + b| - 1] == a + b[..n];
    }
  }

  /** A task that is not there has not been claimed. */
  lemma {:induction false} NoClaimOfAbsent(tables: seq<Table>, events: seq<Event>, id: Id)
    requires Run(tables, events) && id !in tables[|events|]
    ensures ClaimTimes(events, id) == []
  {
    if events == [] {
    } else {
      var n := |events| - 1;
      RunPrefix(tables, events);
      assert id !in tables[n];
      NoClaimOfAbsent(tables[..n + 1], events[..n], id);
    }
  }

  lemma RunParts(tables: seq<Table>, events: seq<Event>, i: nat)
    requires Run(tables, events) && i <= |events|
    ensures Run(tables[..i + 1], events[..i]) && Run(tables[i..], events[i..])
  {
    forall j | 0 <= j < |events| - i
      ensures Step(tables[i..][j], events[i..][j], tables[i..][j + 1])
    {
      assert Step(tables[i + j], events[i + j], tables[i + j + 1]);
    }
  }

  /** Event `i` enqueues a task with a new key, and later only claims and recoveries touch it. */
  ghost predicate EnqueuedAt(tables: seq<Table>, events: seq<Event>, i: nat, id: Id, o: EnqueueOptions) {
    && Run(tables, events) && i < |events|
    && events[i].Enqueue? && events[i].id == id && events[i].options == o && !HasKey(tables[i], o.idempotencyKey)
    && OnlyClaimsAndRecoveries(events[i + 1..], id)
  }

  lemma EnqueuedIsNew(tables: seq<Table>, events: seq<Event>, i: nat, id: Id, o: EnqueueOptions)
    requires EnqueuedAt(tables, events, i, id, o)
    ensures Run(tables[i + 1..], events[i + 1..]) && id in tables[i + 1]
    ensures tables[i + 1][id].status == Pending && tables[i + 1][id].attempt == 0
    ensures Cap(tables[i + 1][id]) == if o.maxAttempts > 1 then o.maxAttempts else 1
    ensures ClaimTimes(events, id) == ClaimTimes(events[i + 1..], id)
  {
    assert Step(tables[i], events[i], tables[i + 1]);
    RunParts(tables, events, i);
    RunParts(tables, events, i + 1);
    NoClaimOfAbsent(tables[..i + 1], events[..i], id);
    assert events == events[..i] + [events[i]] + events[i + 1..];
    ClaimTimesConcat(events[..i] + [events[i]], events[i + 1..], id);
    ClaimTimesConcat(events[..i], [events[i]], id);
    assert [events[i]][..0] == [];
  }

  /**
   A task that is enqueued and then touched only by claims and recoveries is claimed at most
   max(1, max_attempts) times, with the max_attempts of its enqueue, and if it ends dead, exactly so often.
   */
  lemma EnqueuedTaskDies(tables: seq<Table>, events: seq<Event>, i: nat, id: Id, o: EnqueueOptions)
    requires EnqueuedAt(tables, events, i, id, o)
    ensures var cap := if o.maxAttempts > 1 then o.maxAttempts else 1;
            && id in tables[|events|] && |ClaimTimes(events, id)| <= cap
            && (tables[|events|][id].status == Dead ==> |ClaimTimes(events, id)| == cap)
            && tables[|events|][id].attempt == |ClaimTimes(events, id)|
  {
    EnqueuedIsNew(tables, events, i, id, o);
    DiesAfterExactlyCapClaims(tables[i + 1..], events[i + 1..], id);
  }

  /** And its k-th claim comes strictly later than its first plus k - 1 leases plus 2^k - 2 seconds. */
  lemma EnqueuedTaskBacksOff(tables: seq<Table>, events: seq<Event>, i: nat, id: Id, o: EnqueueOptions, ttl: int, k: nat)
    requires EnqueuedAt(tables, events, i, id, o) && LeasesAtLeast(events, id, ttl)
    requires 2 <= k <= |ClaimTimes(events, id)|
    ensures var times := ClaimTimes(events, id);
            times[k - 1] > times[0] + (k - 1) * ttl + 1_000_000 * (Pow2(k) - 2)
  {
    EnqueuedIsNew(tables, events, i, id, o);
    var later := events[i + 1..];
    forall j | 0 <= j < |later| && IsClaimOf(later[j], id)
      ensures later[j].claim.ttl >= ttl
    {
      assert later[j] == events[i + 1 + j];
    }
    BackoffBound(tables[i + 1..], later, id, ttl, k);
  }

  lemma PendingStep(t: Table, e: Event, t': Table, id: Id)
    requires id in t && Step(t, e, t') && id in t' && t'[id].status == Pending && !(e.Finish? && e.id == id)
    ensures !IsClaimOf(e, id)
    ensures if e.Recover? && Stale(t[id], e.now) then t'[id].nextRetryAt == Some(e.now + 1_000_000 * Pow2(t[id].attempt))
            else t'[id] == t[id]
  {
  }

  ghost predicate NoClaimFrom(events: seq<Event>, j: nat, id: Id) {
    forall i :: j <= i < |events| ==> !IsClaimOf(events[i], id)
  }

  lemma NoClaimLast(events: seq<Event>, id: Id)
    requires events != [] && !IsClaimOf(events[|events| - 1], id)
    ensures ClaimTimes(events, id) == ClaimTimes(events[..|events| - 1], id)
    ensures NoClaimFrom(events, |events| - 1, id)
    ensures forall j: nat :: NoClaimFrom(events[..|events| - 1], j, id) ==> NoClaimFrom(events, j, id)
  {
    var before := events[..|events| - 1];
    forall j: nat | NoClaimFrom(before, j, id)
      ensures NoClaimFrom(events, j, id)
    {
      forall i | j <= i < |events|
        ensures !IsClaimOf(events[i], id)
      {
        assert i < |before| ==> before[i] == events[i];
      }
    }
  }

  /** In such a run the last event took the task back, or it is as it was. */
  lemma PendingLast(tables: seq<Table>, events: seq<Event>, id: Id)
    requires Run(tables, events) && id in tables[0] && events != []
    requires tables[0][id].status == Pending && tables[0][id].attempt == 0
    requires OnlyClaimsAndRecoveries(events, id) && id in tables[|events|] && tables[|events|][id].status == Pending
    ensures var n := |events| - 1;
            && id in tables[n] && !IsClaimOf(events[n], id)
            && ((events[n].Recover? &&
                   tables[n + 1][id].nextRetryAt == Some(events[n].now + 1_000_000 * Pow2(|ClaimTimes(events[..n], id)|)))
                || tables[n + 1][id] == tables[n][id])
  {
    var n := |events| - 1;
    RunPrefix(tables, events);
    DiesAfterExactlyCapClaims(tables[..n + 1], events[..n], id);
    PendingStep(tables[n], events[n], tables[n + 1], id);
  }

  /**
   The retry time of a task taken back: 2^n seconds after the recovery that took it back from its n-th
   claim, neither earlier nor later.
   */
  lemma {:induction false} RetryTimeExact(tables: seq<Table>, events: seq<Event>, id: Id) returns (j: nat)
    requires Run(tables, events) && id in tables[0]
    requires tables[0][id].status == Pending && tables[0][id].attempt == 0
    requires OnlyClaimsAndRecoveries(events, id) && ClaimTimes(events, id) != []
    requires id in tables[|events|] && tables[|events|][id].status == Pending
    ensures j < |events| && events[j].Recover? && NoClaimFrom(events, j, id)
    ensures tables[|events|][id].nextRetryAt == Some(events[j].now + 1_000_000 * Pow2(|ClaimTimes(events, id)|))
  {
    var n := |events| - 1;
    PendingLast(tables, events, id);
    NoClaimLast(events, id);
    if tables[n + 1][id] != tables[n][id] {
      j := n;
    } else {
      RunPrefix(tables, events);
      j := RetryTimeExact(tables[..n + 1], events[..n], id);
    }
  }
}
