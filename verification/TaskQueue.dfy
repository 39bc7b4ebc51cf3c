/**
 The task_queue table and the statements of packages/db/task-queue.ts, each one atomic step. Times
 are in PostgreSQL's microseconds and `now` is the statement's NOW(). Ties in
 `ORDER BY priority, created_at` may be broken either way.
 */
module TaskQueue {
  import opened Wrappers
  import opened Json

  type Id = nat

  const SECOND: int := 1_000_000

  datatype Status = Pending | Claimed | Running | Submitting | Completed | Failed | Dead

  datatype Row = Row(
    idempotencyKey: string, agentType: string, jobType: string, payload: Json, correlationId: Option<string>,
    createdBy: string, status: Status,
    claimedBy: Option<string>, claimedAt: Option<int>, claimExpiresAt: Option<int>, delegatedToken: Option<string>,
    result: Option<Json>, errorMessage: Option<string>,
    attempt: nat, maxAttempts: int, nextRetryAt: Option<int>, priority: int, createdAt: int, updatedAt: int)

  type Table = map<Id, Row>

  datatype EnqueueOptions = EnqueueOptions(
    idempotencyKey: string, agentType: string, jobType: string, payload: Json, correlationId: Option<string>,
    createdBy: string, priority: int := 5, maxAttempts: int := 3)

  /** A claim statement and its NOW(); `ttl` is the lease in microseconds, 300 seconds by default. */
  datatype ClaimOptions = ClaimOptions(
    agentType: string, claimedBy: string, delegatedToken: Option<string>, now: int, ttl: int := 300 * SECOND)

  function Pow2(n: nat): (r: nat)
    ensures r >= 1
  {
    if n == 0 then 1 else 2 * Pow2(n - 1)
  }

  /** What a caller gets who leaves out the optional arguments: priority 5, 3 attempts, a lease of 300 seconds. */
  lemma Defaults(key: string, agentType: string, jobType: string, payload: Json, creator: string, now: int)
    ensures var o := EnqueueOptions(key, agentType, jobType, payload, None, creator); o.priority == 5 && o.maxAttempts == 3
    ensures ClaimOptions(agentType, creator, None, now).ttl == 300_000_000
  {
  }

  // ---------- What each statement writes ----------

  function NewTask(o: EnqueueOptions, now: int): (r: Row) {
    Row(o.idempotencyKey, o.agentType, o.jobType, o.payload, o.correlationId, o.createdBy, Pending,
        None, None, None, None, None, None, 0, o.maxAttempts, None, o.priority, now, now)
  }

  predicate HasKey(t: Table, key: string) {
    exists id :: id in t && t[id].idempotencyKey == key
  }

  /** `INSERT ... ON CONFLICT (idempotency_key) DO UPDATE SET updated_at = task_queue.updated_at` */
  function Enqueued(t: Table, id: Id, o: EnqueueOptions, now: int): (r: Table) {
    if HasKey(t, o.idempotencyKey) then t else t[id := NewTask(o, now)]
  }

  predicate Eligible(row: Row, agentType: string, now: int) {
    && row.agentType == agentType && row.status == Pending
    && (row.nextRetryAt.None? || row.nextRetryAt.value <= now)
  }

  predicate Before(a: Row, b: Row) {
    a.priority < b.priority || (a.priority == b.priority && a.createdAt < b.createdAt)
  }

  /** `id` may be the row a claim selects when the rows in `locked` are skipped. */
  predicate IsNext(t: Table, locked: set<Id>, c: ClaimOptions, id: Id) {
    && id in t && id !in locked && Eligible(t[id], c.agentType, c.now)
    && forall other :: other in t && other !in locked && Eligible(t[other], c.agentType, c.now) ==>
         !Before(t[other], t[id])
  }

  predicate NothingToClaim(t: Table, locked: set<Id>, c: ClaimOptions) {
    forall id :: id in t && id !in locked ==> !Eligible(t[id], c.agentType, c.now)
  }

  function ClaimRow(row: Row, c: ClaimOptions): (r: Row) {
    row.(status := Claimed, claimedBy := Some(c.claimedBy), claimedAt := Some(c.now),
         claimExpiresAt := Some(c.now + c.ttl), delegatedToken := c.delegatedToken,
         attempt := row.attempt + 1, updatedAt := c.now)
  }

  predicate Stale(row: Row, now: int) {
    row.status == Claimed && row.claimExpiresAt.Some? && row.claimExpiresAt.value < now
  }

  function RecoverRow(row: Row, now: int): (r: Row) {
    var exhausted := row.attempt >= row.maxAttempts;
    row.(status := if exhausted then Dead else Pending,
         claimedBy := None, claimedAt := None, claimExpiresAt := None, delegatedToken := None,
         nextRetryAt := if exhausted then None else Some(now + Pow2(row.attempt) * SECOND),
         updatedAt := now)
  }

  function Recovered(t: Table, now: int): (r: Table) {
    map id | id in t :: if Stale(t[id], now) then RecoverRow(t[id], now) else t[id]
  }

  /**
   The unguarded writes of workers: `updateTaskStatus`, `submitTaskResult`, and the cron worker's own
   update of the result column.
   */
  datatype Write =
    | StatusWrite(status: Status, errorMessage: Option<string>, nextRetryAt: Option<int>, now: int)
    | ResultWrite(result: Json, now: int)
    | ResultColumnWrite(result: Json, now: int)

  function WriteRow(row: Row, w: Write): (r: Row) {
    match w
    case StatusWrite(status, errorMessage, nextRetryAt, now) =>
      row.(status := status, errorMessage := errorMessage, nextRetryAt := nextRetryAt, updatedAt := now)
    case ResultWrite(result, now) =>
      row.(status := Completed, result := Some(result), updatedAt := now)
    case ResultColumnWrite(result, now) =>
      row.(result := Some(result), updatedAt := now)
  }

  function Written(t: Table, id: Id, w: Write): (r: Table) {
    if id in t then t[id := WriteRow(t[id], w)] else t
  }

  // ---------- The table as an object ----------

  /** Pending, for these agents, and past its retry time if it has one. */
  predicate Claimable(row: Row, agentType: string, now: int) {
    && row.status == Pending && row.agentType == agentType
    && match row.nextRetryAt
       case None => true
       case Some(retry) => retry <= now
  }

  /** The columns that only an enqueue writes. */
  predicate SameRequest(a: Row, b: Row) {
    && a.idempotencyKey == b.idempotencyKey && a.agentType == b.agentType && a.jobType == b.jobType
    && a.payload == b.payload && a.correlationId == b.correlationId && a.createdBy == b.createdBy
    && a.maxAttempts == b.maxAttempts && a.priority == b.priority && a.createdAt == b.createdAt
  }

  /** The columns that claims and recoveries write, and finish writes leave alone. */
  predicate SameClaim(a: Row, b: Row) {
    && a.claimedBy == b.claimedBy && a.claimedAt == b.claimedAt && a.claimExpiresAt == b.claimExpiresAt
    && a.delegatedToken == b.delegatedToken && a.attempt == b.attempt
  }

  /**
   What taking a claim back at `now` leaves: a dead task if it has no attempt left, else a pending one
   that may be retried 2 to the power of its attempts seconds later, and no trace of the claim.
   */
  predicate TakenBack(before: Row, after: Row, now: int) {
    && SameRequest(after, before) && after.attempt == before.attempt
    && after.result == before.result && after.errorMessage == before.errorMessage
    && after.claimedBy == None && after.claimedAt == None && after.claimExpiresAt == None && after.delegatedToken == None
    && after.updatedAt == now
    && if before.attempt < before.maxAttempts then
         after.status == Pending && after.nextRetryAt == Some(now + 1_000_000 * Pow2(before.attempt))
       else
         after.status == Dead && after.nextRetryAt == None
  }

  /** Doubling from 1. */
  lemma {:induction false} PowersOfTwo(n: nat)
    ensures Pow2(0) == 1 && Pow2(1) == 2 && Pow2(2) == 4 && Pow2(3) == 8 && Pow2(n + 1) == Pow2(n) + Pow2(n)
  {
    assert Pow2(2) == 2 * Pow2(1) && Pow2(3) == 2 * Pow2(2);
  }

  ghost predicate UniqueKeys(t: Table) {
    forall i, j :: i in t && j in t && t[i].idempotencyKey == t[j].idempotencyKey ==> i == j
  }

  /** The unlocked eligible rows that come strictly before `id`. */
  ghost function Better(t: Table, locked: set<Id>, c: ClaimOptions, id: Id): (r: set<Id>)
    requires id in t
  {
    set other | other in t && other !in locked && Eligible(t[other], c.agentType, c.now) && Before(t[other], t[id])
  }

  /** If any unlocked row is eligible, some row is first among them. */
  lemma {:induction false} SomethingToClaim(t: Table, locked: set<Id>, c: ClaimOptions, id: Id) returns (first: Id)
    requires id in t && id !in locked && Eligible(t[id], c.agentType, c.now)
    ensures IsNext(t, locked, c, first)
    decreases |Better(t, locked, c, id)|
  {
    var better := Better(t, locked, c, id);
    if better == {} {
      first := id;
      forall other | other in t && other !in locked && Eligible(t[other], c.agentType, c.now)
        ensures !Before(t[other], t[id])
      {
        assert other !in better;
      }
    } else {
      var other :| other in better;
      SmallerSet(Better(t, locked, c, other), better, other);
      first := SomethingToClaim(t, locked, c, other);
    }
  }

  lemma SmallerSet(a: set<Id>, b: set<Id>, x: Id)
    requires a <= b - {x} && x in b
    ensures |a| < |b|
  {
    SubsetSize(a, b - {x});
  }

  lemma {:induction false} SubsetSize(a: set<Id>, b: set<Id>)
    requires a <= b
    ensures |a| <= |b|
  {
    if a != {} {
      var x :| x in a;
      SubsetSize(a - {x}, b - {x});
    }
  }

  class TaskQueueTable {
    var tasks: Table

    /** `enqueueTask`: idempotent on the key; an existing row is returned unchanged. */
    method EnqueueTask(freshId: Id, options: EnqueueOptions, now: int) returns (id: Id)
      requires freshId !in tasks && UniqueKeys(tasks)
      modifies this
      ensures tasks == Enqueued(old(tasks), freshId, options, now)
      ensures UniqueKeys(tasks) && id in tasks && tasks[id].idempotencyKey == options.idempotencyKey
      ensures HasKey(old(tasks), options.idempotencyKey) ==> tasks == old(tasks)
      ensures !HasKey(old(tasks), options.idempotencyKey) ==>
                && id == freshId && tasks.Keys == old(tasks).Keys + {id}
                && forall other :: other in old(tasks) ==> tasks[other] == old(tasks)[other]
      ensures !HasKey(old(tasks), options.idempotencyKey) ==>
                var row := tasks[id];
                && row.agentType == options.agentType && row.jobType == options.jobType
                && row.payload == options.payload && row.correlationId == options.correlationId
                && row.createdBy == options.createdBy
                && row.priority == options.priority && row.maxAttempts == options.maxAttempts
                && row.status == Pending && row.attempt == 0 && row.nextRetryAt == None
                && row.claimedBy == None && row.claimedAt == None && row.claimExpiresAt == None
                && row.delegatedToken == None && row.result == None && row.errorMessage == None
                && row.createdAt == now && row.updatedAt == now
    {
      if HasKey(tasks, options.idempotencyKey) {
        id :| id in tasks && tasks[id].idempotencyKey == options.idempotencyKey;
      } else {
        id := freshId;
        var row := Row(
          options.idempotencyKey, options.agentType, options.jobType, options.payload, options.correlationId,
          options.createdBy, Pending, None, None, None, None, None, None, 0, options.maxAttempts, None,
          options.priority, now, now);
        tasks := tasks[freshId := row];
      }
    }

    /** `claimNextTask` run alone: claims a first eligible row, or returns null when there is none. */
    method ClaimNextTask(options: ClaimOptions) returns (claimed: Option<Id>)
      modifies this
      ensures claimed.None? <==> NothingToClaim(old(tasks), {}, options)
      ensures claimed.None? ==> tasks == old(tasks)
      ensures claimed.Some? ==>
                && IsNext(old(tasks), {}, options, claimed.value)
                && tasks == old(tasks)[claimed.value := ClaimRow(old(tasks)[claimed.value], options)]
      ensures claimed.None? <==>
                forall id :: id in old(tasks) ==> !Claimable(old(tasks)[id], options.agentType, options.now)
      ensures claimed.Some? ==>
                && claimed.value in old(tasks)
                && var before := old(tasks)[claimed.value];
                && Claimable(before, options.agentType, options.now)
                && (forall id :: id in old(tasks) && Claimable(old(tasks)[id], options.agentType, options.now) ==>
                      || before.priority < old(tasks)[id].priority
                      || (before.priority == old(tasks)[id].priority && before.createdAt <= old(tasks)[id].createdAt))
      ensures claimed.Some? ==>
                && tasks.Keys == old(tasks).Keys && claimed.value in tasks
                && (forall id :: id in old(tasks) && id != claimed.value ==> tasks[id] == old(tasks)[id])
                && var before, after := old(tasks)[claimed.value], tasks[claimed.value];
                && after.status == Claimed && after.attempt == before.attempt + 1
                && after.claimedBy == Some(options.claimedBy) && after.delegatedToken == options.delegatedToken
                && after.claimedAt == Some(options.now) && after.claimExpiresAt == Some(options.now + options.ttl)
                && after.updatedAt == options.now && after.nextRetryAt == before.nextRetryAt
                && SameRequest(after, before) && after.result == before.result && after.errorMessage == before.errorMessage
    {
      if exists id :: id in tasks && IsNext(tasks, {}, options, id) {
        var id :| id in tasks && IsNext(tasks, {}, options, id);
        tasks := tasks[id := tasks[id].(
          status := Claimed,
          claimedBy := Some(options.claimedBy),
          claimedAt := Some(options.now),
          claimExpiresAt := Some(options.now + options.ttl),
          delegatedToken := options.delegatedToken,
          attempt := tasks[id].attempt + 1,
          updatedAt := options.now)];
        return Some(id);
      }
      forall id | id in tasks
        ensures !Eligible(tasks[id], options.agentType, options.now)
      {
        if Eligible(tasks[id], options.agentType, options.now) {
          var first := SomethingToClaim(tasks, {}, options, id);
        }
      }
      return None;
    }

    /** `updateTaskStatus` */
    method UpdateTaskStatus(id: Id, status: Status, errorMessage: Option<string>, nextRetryAt: Option<int>, now: int)
      returns (found: bool)
      modifies this
      ensures found == (id in old(tasks))
      ensures tasks == Written(old(tasks), id, StatusWrite(status, errorMessage, nextRetryAt, now))
      ensures tasks.Keys == old(tasks).Keys && forall other :: other in tasks && other != id ==> tasks[other] == old(tasks)[other]
      ensures found ==>
                && tasks[id].status == status && tasks[id].errorMessage == errorMessage
                && tasks[id].nextRetryAt == nextRetryAt && tasks[id].updatedAt == now
                && SameRequest(tasks[id], old(tasks)[id]) && SameClaim(tasks[id], old(tasks)[id])
                && tasks[id].result == old(tasks)[id].result
    {
      found := id in tasks;
      if found {
        tasks := tasks[id := tasks[id].(status := status, errorMessage := errorMessage,
                                        nextRetryAt := nextRetryAt, updatedAt := now)];
      }
    }

    /** `submitTaskResult` */
    method SubmitTaskResult(id: Id, result: Json, now: int) returns (found: bool)
      modifies this
      ensures found == (id in old(tasks))
      ensures tasks == Written(old(tasks), id, ResultWrite(result, now))
      ensures tasks.Keys == old(tasks).Keys && forall other :: other in tasks && other != id ==> tasks[other] == old(tasks)[other]
      ensures found ==>
                && tasks[id].status == Completed && tasks[id].result == Some(result) && tasks[id].updatedAt == now
                && SameRequest(tasks[id], old(tasks)[id]) && SameClaim(tasks[id], old(tasks)[id])
                && tasks[id].errorMessage == old(tasks)[id].errorMessage
                && tasks[id].nextRetryAt == old(tasks)[id].nextRetryAt
    {
      found := id in tasks;
      if found {
        tasks := tasks[id := tasks[id].(status := Completed, result := Some(result), updatedAt := now)];
      }
    }

    /** `UPDATE task_queue SET result = ..., updated_at = NOW() WHERE id = ...` */
    method StoreResult(id: Id, result: Json, now: int)
      modifies this
      ensures tasks == Written(old(tasks), id, ResultColumnWrite(result, now))
      ensures id in tasks ==>
                && id in old(tasks) && tasks[id].result == Some(result) && tasks[id].updatedAt == now
                && SameRequest(tasks[id], old(tasks)[id]) && SameClaim(tasks[id], old(tasks)[id])
                && tasks[id].status == old(tasks)[id].status && tasks[id].errorMessage == old(tasks)[id].errorMessage
                && tasks[id].nextRetryAt == old(tasks)[id].nextRetryAt
    {
      if id in tasks {
        tasks := tasks[id := tasks[id].(result := Some(result), updatedAt := now)];
      }
    }

    /** `recoverStaleClaims`: returns the ids it resets or buries. */
    method RecoverStaleClaims(now: int) returns (recovered: set<Id>)
      modifies this
      ensures tasks == Recovered(old(tasks), now)
      ensures recovered == set id | id in old(tasks) && Stale(old(tasks)[id], now)
      ensures tasks.Keys == old(tasks).Keys
      ensures forall id :: id in tasks ==>
                (id in recovered <==>
                   && old(tasks)[id].status == Claimed && old(tasks)[id].claimExpiresAt.Some?
                   && old(tasks)[id].claimExpiresAt.value < now)
      ensures forall id :: id in tasks && id !in recovered ==> tasks[id] == old(tasks)[id]
      ensures forall id :: id in recovered ==> id in tasks && TakenBack(old(tasks)[id], tasks[id], now)
    {
      recovered := set id | id in tasks && Stale(tasks[id], now);
      tasks := map id | id in tasks ::
        if id !in recovered then tasks[id]
        else
          tasks[id].(
            status := if tasks[id].attempt >= tasks[id].maxAttempts then Dead else Pending,
            claimedBy := None, claimedAt := None, claimExpiresAt := None, delegatedToken := None,
            nextRetryAt := if tasks[id].attempt >= tasks[id].maxAttempts then None
                           else Some(now + Pow2(tasks[id].attempt) * SECOND),
            updatedAt := now);
    }
  }

  // ---------- Runs of atomic statements ----------

  datatype Event =
    | Enqueue(id: Id, options: EnqueueOptions, now: int)
    | Claim(claim: ClaimOptions, claimed: Option<Id>)
    | Recover(now: int)
    | Finish(id: Id, write: Write)

  ghost predicate Step(t: Table, e: Event, t': Table) {
    match e
    case Enqueue(id, options, now) => id !in t && t' == Enqueued(t, id, options, now)
    case Claim(c, None) => NothingToClaim(t, {}, c) && t' == t
    case Claim(c, Some(id)) => IsNext(t, {}, c, id) && t' == t[id := ClaimRow(t[id], c)]
    case Recover(now) => t' == Recovered(t, now)
    case Finish(id, w) => t' == Written(t, id, w)
  }

  /** `tables[i]` is the table before event `i`. */
  ghost predicate Run(tables: seq<Table>, events: seq<Event>) {
    && |tables| == |events| + 1
    && forall i :: 0 <= i < |events| ==> Step(tables[i], events[i], tables[i + 1])
  }
}
