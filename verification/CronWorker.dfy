/**
 The in-process cron worker of apps/server/src/jobs/scheduler.ts as a client of the task queue: the
 writes that follow a claim, and what is left when some of them fail. Here each statement of a run
 follows the last; `CronRuns` lets other runs and other clients come in between.
 */
module CronWorker {
  import opened Wrappers
  import opened Json
  import opened TaskQueue
  import opened TaskQueueRuns

  /** What executing the claimed job comes to; storing its result may itself throw. */
  datatype Outcome =
    | NoExecutor
    | Finished(result: Json, storeError: Option<string>)
    | Threw(message: string)

  /** Database time at the four statements of a run. */
  datatype Times = Times(claim: int, status: int, result: int, failure: int)

  /** The statements of a run that fail: its claim, or the status writes, whose errors are swallowed. */
  datatype Faults = Faults(claim: bool, status: bool, failure: bool)

  function Truncated(message: string): (r: string)
    ensures r <= message && |r| == if |message| < 1000 then |message| else 1000
  {
    if |message| <= 1000 then message else message[..1000]
  }

  function Unless(lost: bool, write: Write): (r: seq<Write>) {
    if lost then [] else [write]
  }

  function StatusFor(outcome: Outcome, jobType: string, now: int): (r: Write) {
    match outcome
    case NoExecutor =>
      StatusWrite(Failed, Some("No in-process executor registered for job_type '" + jobType + "'"), None, now)
    case _ => StatusWrite(Completed, None, None, now)
  }

  function FailureFor(message: string, now: int): (r: Write) {
    StatusWrite(Failed, Some(Truncated(message)), None, now)
  }

  /** The finish writes of a run that reach the table, in order. */
  function FinishWrites(outcome: Outcome, jobType: string, at: Times, faults: Faults): (r: seq<Write>) {
    match outcome
    case NoExecutor => Unless(faults.status, StatusFor(outcome, jobType, at.status))
    case Threw(message) => Unless(faults.failure, FailureFor(message, at.failure))
    case Finished(result, storeError) =>
      Unless(faults.status, StatusFor(outcome, jobType, at.status)) +
      if storeError.None? then [ResultColumnWrite(result, at.result)]
      else Unless(faults.failure, FailureFor(storeError.value, at.failure))
  }

  function AfterWrites(row: Row, writes: seq<Write>): (r: Row) {
    if writes == [] then row
    else WriteRow(AfterWrites(row, writes[..|writes| - 1]), writes[|writes| - 1])
  }

  lemma AfterMore(row: Row, writes: seq<Write>, write: Write)
    ensures AfterWrites(row, writes + [write]) == WriteRow(AfterWrites(row, writes), write)
  {
    assert (writes + [write])[..|writes|] == writes;
  }

  function WrittenUnless(row: Row, lost: bool, write: Write): (r: Row) {
    if lost then row else WriteRow(row, write)
  }

  lemma AfterUnless(row: Row, writes: seq<Write>, lost: bool, write: Write)
    ensures AfterWrites(row, writes + Unless(lost, write)) == WrittenUnless(AfterWrites(row, writes), lost, write)
    ensures AfterWrites(row, Unless(lost, write)) == WrittenUnless(row, lost, write)
  {
    AfterMore(row, writes, write);
    AfterMore(row, [], write);
    assert writes + [] == writes && [] + [write] == [write];
  }

  /** The row after a run, write by write. */
  lemma AfterRun(row: Row, outcome: Outcome, jobType: string, at: Times, faults: Faults)
    ensures var done := AfterWrites(row, FinishWrites(outcome, jobType, at, faults));
            var first := WrittenUnless(row, faults.status, StatusFor(outcome, jobType, at.status));
            done ==
              if outcome.NoExecutor? then first
              else if outcome.Threw? then WrittenUnless(row, faults.failure, FailureFor(outcome.message, at.failure))
              else if outcome.storeError.None? then WriteRow(first, ResultColumnWrite(outcome.result, at.result))
              else WrittenUnless(first, faults.failure, FailureFor(outcome.storeError.value, at.failure))
  {
    var first := StatusFor(outcome, jobType, at.status);
    AfterUnless(row, [], faults.status, first);
    match outcome
    case NoExecutor =>
    case Threw(message) => AfterUnless(row, [], faults.failure, FailureFor(message, at.failure));
    case Finished(result, storeError) =>
      if storeError.None? {
        AfterMore(row, Unless(faults.status, first), ResultColumnWrite(result, at.result));
      } else {
        AfterUnless(row, Unless(faults.status, first), faults.failure, FailureFor(storeError.value, at.failure));
      }
  }

  /** The claim `processOneCronTask` makes, with its lease of 60 seconds. */
  function CronClaim(now: int): (c: ClaimOptions) {
    ClaimOptions("cron", "system:cron-worker", None, now, 60 * SECOND)
  }

  /** The columns that a run writes. */
  predicate StatusLeftBy(row: Row, outcome: Outcome, jobType: string, faults: Faults) {
    match outcome
    case NoExecutor =>
      !faults.status ==>
        row.status == Failed &&
        row.errorMessage == Some("No in-process executor registered for job_type '" + jobType + "'")
    case Threw(message) =>
      !faults.failure ==> row.status == Failed && row.errorMessage == Some(Truncated(message))
    case Finished(result, storeError) =>
      if storeError.None? then
        row.result == Some(result) && (!faults.status ==> row.status == Completed && row.errorMessage == None)
      else
        !faults.failure ==> row.status == Failed && row.errorMessage == Some(Truncated(storeError.value))
  }

  /**
   What a run that claimed at `now` leaves on the row: the worker's name and a lease of a minute, the
   result if the job gave one, and, unless the write failed, the status with its message.
   */
  predicate LeftBy(row: Row, now: int, outcome: Outcome, jobType: string, faults: Faults) {
    && row.claimedBy == Some("system:cron-worker") && row.delegatedToken == None
    && row.claimedAt == Some(now) && row.claimExpiresAt == Some(now + 60_000_000)
    && StatusLeftBy(row, outcome, jobType, faults)
  }

  /** Finish writes leave the request and the claim alone. */
  lemma {:induction false} WritesKeep(row: Row, writes: seq<Write>)
    ensures SameRequest(AfterWrites(row, writes), row) && SameClaim(AfterWrites(row, writes), row)
  {
    if writes == [] {
    } else {
      WritesKeep(row, writes[..|writes| - 1]);
    }
  }

  lemma RunWrites(row: Row, outcome: Outcome, jobType: string, at: Times, faults: Faults)
    ensures StatusLeftBy(AfterWrites(row, FinishWrites(outcome, jobType, at, faults)), outcome, jobType, faults)
  {
    AfterRun(row, outcome, jobType, at, faults);
  }

  lemma CronRunLeaves(claimed: Row, row: Row, outcome: Outcome, at: Times, faults: Faults)
    requires claimed == ClaimRow(row, CronClaim(at.claim))
    ensures var done := AfterWrites(claimed, FinishWrites(outcome, claimed.jobType, at, faults));
            LeftBy(done, at.claim, outcome, row.jobType, faults) && done.attempt == row.attempt + 1 && SameRequest(done, row)
  {
    WritesKeep(claimed, FinishWrites(outcome, claimed.jobType, at, faults));
    RunWrites(claimed, outcome, claimed.jobType, at, faults);
  }

  class Scheduler {
    const queue: TaskQueueTable
    var workerRunning: bool

    constructor (queue: TaskQueueTable)
      ensures this.queue == queue && !workerRunning
    {
      this.queue := queue;
      workerRunning := false;
    }

    /**
     `processOneCronTask`: does nothing while another run is under way, when its claim fails, or when no
     cron task is eligible; otherwise it claims a first eligible task, which then gets the finish writes
     that do not fail. The flag is reset in every case.
     */
    method ProcessOneCronTask(outcome: Outcome, at: Times, faults: Faults) returns (thrown: bool)
      modifies this, queue
      ensures workerRunning == old(workerRunning)
      ensures thrown <==> !old(workerRunning) && faults.claim
      ensures old(workerRunning) || faults.claim || NothingToClaim(old(queue.tasks), {}, CronClaim(at.claim)) ==>
                queue.tasks == old(queue.tasks)
      ensures !old(workerRunning) && !faults.claim && !NothingToClaim(old(queue.tasks), {}, CronClaim(at.claim)) ==>
                exists id ::
                  && IsNext(old(queue.tasks), {}, CronClaim(at.claim), id)
                  && queue.tasks == old(queue.tasks)[id :=
                       AfterWrites(ClaimRow(old(queue.tasks)[id], CronClaim(at.claim)),
                                   FinishWrites(outcome, old(queue.tasks)[id].jobType, at, faults))]
      ensures queue.tasks.Keys == old(queue.tasks).Keys
      ensures forall id :: id in queue.tasks && queue.tasks[id] != old(queue.tasks)[id] ==>
                && old(queue.tasks)[id].agentType == "cron" && old(queue.tasks)[id].status == Pending
                && queue.tasks[id].attempt == old(queue.tasks)[id].attempt + 1
                && LeftBy(queue.tasks[id], at.claim, outcome, old(queue.tasks)[id].jobType, faults)
    {
      if workerRunning {
        return false;
      }
      workerRunning := true;
      if faults.claim {
        workerRunning := false;
        return true;
      }
      var claimed := queue.ClaimNextTask(CronClaim(at.claim));
      if claimed.Some? {
        CronRunLeaves(queue.tasks[claimed.value], old(queue.tasks)[claimed.value], outcome, at, faults);
        FinishTask(claimed.value, queue.tasks[claimed.value].jobType, outcome, at, faults);
        assert IsNext(old(queue.tasks), {}, CronClaim(at.claim), claimed.value);
      }
      workerRunning := false;
      return false;
    }

    /** What follows a successful claim. */
    method FinishTask(id: Id, jobType: string, outcome: Outcome, at: Times, faults: Faults)
      requires id in queue.tasks
      modifies queue
      ensures queue.tasks ==
              old(queue.tasks)[id := AfterWrites(old(queue.tasks)[id], FinishWrites(outcome, jobType, at, faults))]
    {
      AfterRun(queue.tasks[id], outcome, jobType, at, faults);
      match outcome {
        case NoExecutor =>
          TryStatus(faults.status, id, Failed, Some("No in-process executor registered for job_type '" + jobType + "'"),
                    at.status);
        case Finished(result, storeError) =>
          TryStatus(faults.status, id, Completed, None, at.status);
          if storeError.None? {
            queue.StoreResult(id, result, at.result);
          } else {
            TryStatus(faults.failure, id, Failed, Some(Truncated(storeError.value)), at.failure);
          }
        case Threw(message) =>
          TryStatus(faults.failure, id, Failed, Some(Truncated(message)), at.failure);
      }
    }

    /** `updateTaskStatus(...).catch(() => {})` */
    method TryStatus(lost: bool, id: Id, status: Status, message: Option<string>, now: int)
      modifies queue
      ensures queue.tasks ==
              if lost then old(queue.tasks) else Written(old(queue.tasks), id, StatusWrite(status, message, None, now))
    {
      if !lost {
        var found := queue.UpdateTaskStatus(id, status, message, None, now);
      }
    }
  }

  /** No finish write of a cron run is back to `pending` or `claimed`, as the bounds on claims ask of workers. */
  lemma CronWritesSettle(outcome: Outcome, jobType: string, at: Times, faults: Faults, id: Id)
    ensures var writes := FinishWrites(outcome, jobType, at, faults);
            forall i :: 0 <= i < |writes| ==> Settles(Finish(id, writes[i]))
  {
  }

  /**
   A run that claims a task leaves it completed or failed, with nothing left to claim, unless every status
   write fails: then, and only then, the task stays claimed until a recovery finds its lease over. Either
   way the run uses up at least one of the claims the task has left.
   */
  lemma CronRunsSettle(row: Row, now: int, outcome: Outcome, jobType: string, at: Times, faults: Faults)
    requires Good(row) && row.status == Pending
    ensures var writes := FinishWrites(outcome, jobType, at, faults);
            var done := AfterWrites(ClaimRow(row, CronClaim(now)), writes);
            && Good(done) && Measure(done) < Measure(row) && done.attempt == row.attempt + 1
            && (done.status == Claimed <==> forall i :: 0 <= i < |writes| ==> !writes[i].StatusWrite?)
            && (done.status == Claimed ==> done.claimExpiresAt == Some(now + 60 * SECOND))
            && (done.status != Claimed ==> Measure(done) == 0 && (done.status == Completed || done.status == Failed))
            && (done.status == Completed <==>
                  outcome.Finished? && !faults.status && (outcome.storeError.None? || faults.failure))
  {
    AfterRun(ClaimRow(row, CronClaim(now)), outcome, jobType, at, faults);
    var writes := FinishWrites(outcome, jobType, at, faults);
  }
}
