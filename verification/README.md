# Verification of the tea-tax product's core logic

This project models, in Dafny, the parts of the repository whose correctness is not visible from
reading one function, and proves what they promise:

- **The audit log.** The canonical JSON printer, the preimage of a row's hash, the writer that appends
  rows and the verifier that walks them. A parser written apart from the printer inverts it, which gives
  "same text exactly when equal up to key order", which makes preimages uniquely decodable, which makes
  the last hash of a verifying log fix the log.
- **The task queue.** The table as an object whose methods are the SQL statements; claims split into
  lock and commit steps, and exactly when such a run is a sequential one; the backoff bound, the bound on
  claims and progress over whole runs; the cron worker as a client, also when its calls overlap.
- **The form resolver.** The path walker, the trigger rules and the dependency worklist, shown to return
  the least closed set on every taxonomy, and exactly which rules keep firing when the situation grows.
- **The rate limiter.** The pruned store against the full history, the bound on every window, and when a
  denied key is allowed again.
- **Smaller loops.** The SQL statement splitter, base64url, single-use delegated tokens, the worker
  waker and loop, and the tier matcher with its five tables.

`dafny verify dfyconfig.toml` checks everything.

## How the model is laid out

| file | contents |
|---|---|
| Wrappers, Sorting, JsStrings | optional values; sorting by any order; JavaScript strings as UTF-16 code units in code unit order |
| Json, CanonicalJson, JsonParser, JsonText | JSON values, the canonical printer and normal forms, the parser and its inversion proof, the exact text |
| HashChain, AuditLog, AuditPreimage, AuditTimestamps | chains of rows over any contents and hash; the audit table, writer and verifier; what is hashed; an event that breaks the log |
| TaskQueue, TaskQueueLocks, LateCommit, TaskQueueRuns | statements and table; concurrent claims; a run of them without a sequential order; whole runs |
| CronWorker, CronRuns | one client of the queue: a single call, and overlapping calls |
| FieldPaths, PathChoices, NumberValues, GrowingSituations | path walker and rules; what a path finds, without a walk; what a number denotes; which rules keep firing |
| FormTaxonomy, FormTable, ShippedForms | worklist and its specification; the shipped form table; which forms it requires |
| RateLimiting | the limiter class and runs of it |
| SqlStatements, SqlText, Base64Url, Base64Text | the splitter and the codec, and their laws in terms of characters and numbers |
| DelegatedTokens, WorkerWaker, WorkerLoop | one component each |
| TierMapping, TierTables | the matcher; the provider tables |

Code that changes state is a class with methods, each proved against a function or relation on values;
the contracts also name every column or field that is written. Where a loop is proved equal to a function,
another lemma says what that function gives without mentioning it. The theorems about runs are lemmas about
those functions and relations. Statements inside one SQL command are not modelled
step by step: each command is one atomic step, except that `TaskQueueLocks` splits a claim in two.

## Hypotheses

- SHA-256 is an abstract function from text to text (it includes the UTF-8 encoding and the hexadecimal
  printing). `Sound` asks that its results and the genesis hash contain no `{`, which hexadecimal text
  meets, and that JSONB gives a value back up to key order. Uniqueness results ask that the preimages of
  the rows at hand do not collide and that the genesis hash is no row's hash. No injectivity is assumed.
- A number is the decimal text JavaScript prints for it, so 0 and -0 are one number here. `undefined`
  is not a value.
- `NOW()`, `Date.now()`, row ids and the outcome of jobs and key checks are parameters. Server and
  database share one clock in `DelegatedTokens`; its unit is PostgreSQL's microsecond.
- A claim lease is given in microseconds, the resolution of PostgreSQL's timestamps.
- Of JavaScript's timers `WorkerWaker` asks that each fires once, not before it is due, and at most
  `lateMs` after that (`TimersOnTime`). Everything else about waits is proved.
- An array may have any length.
- Workers do not write `pending` or `claimed`: `AllSettle` in `TaskQueueRuns`. The workers in this
  repository keep to it (`CronWritesSettle`; the runner only writes `failed`), the PATCH route of the task
  API need not.

## Where the code and its comments part

- The verifier hashes the stored timestamp as `toISOString` prints it, the writer the text it was given.
  `AuditLog.AppendVerdict` therefore needs the text to survive that trip; the header of
  packages/core/audit.ts does not say so. `AuditTimestamps.MissingMillisecondsBreakTheLog` gives a
  timestamp that does not. The callers in the repository pass `new Date().toISOString()`, which survives
  (apps/server/src/api/admin.ts:244, apps/server/src/policies/task-write-service.ts:66,
  apps/server/src/policies/stale-claim-recovery-service.ts:19, packages/db/governance.ts:440).
- A revoked delegated token is refused by `verifyJwt` already; the check that the comments call step 2
  only ever catches an empty jti (`DelegatedTokens.RevokedTokens.VerifyDelegatedToken`).
- Single use fails in the second that starts at `exp`: the cleanup drops the row while the expiry check,
  which compares whole seconds, still accepts the token (`GraceSecondReplay`). `PassesAgainExactly` says when,
  for all inputs.
- Concurrent claims are not always a sequential run: when a recovery comes while a claim in flight has
  outlived its lease, the claims obtained may have no sequential order at all
  (`LateCommit.LateCommitHasNoSequentialOrder`). `TaskQueueLocks.Linearizes` says exactly when a run is the
  sequential run in lock order.
- `stop()` awaited inside `tryClaimAndExecute`, as a test of the worker loop does
  (packages/db/task-queue-worker.test.ts:124), never returns (`WorkerLoop.AwaitedInsideItsJobHangs`). In
  every other state the loop exits and the calls return (`WorkerLoop.StopReturnsExactly`).
- That more income streams or deductions only add forms holds of the shipped table, but not of every
  taxonomy: a rule that tests an array's length for equality or with `lt` can stop firing
  (`GrowingSituations.KeepsFiringExactly`).
- A cron run whose status write fails silently leaves its task claimed until a recovery
  (`CronWorker.CronRunsSettle`), although the header of apps/server/src/jobs/scheduler.ts says that the
  worker marks tasks completed.
- Income type 1099-INT counts as complex income in every table although the informational `value` lists
  of some conditions omit it; the tables here follow the predicates.

## Model

| member | source | states |
|---|---|---|
| `CanonicalJson.CanonicalIsPrintedNormalForm` | packages/core/audit.ts:39-51 | the canonical text of any JSON value is the plain text of the value with every object's keys sorted |
| `CanonicalJson.EquivalentSameNormalForm` | packages/core/audit.ts:32-51 | values equal up to key order at every depth have one normal form |
| `CanonicalJson.SameNormalFormEquivalent` | packages/core/audit.ts:39-51 | values with one normal form are equal up to key order |
| `JsonParser.ParseEscaped` | packages/core/audit.ts:41 | reading the body of a stringified string gives the string back, for all code units including lone surrogates, whatever follows |
| `JsonParser.ParsePrinted` | packages/core/audit.ts:39-51 | the parser inverts the printer on every value followed by a legal delimiter |
| `JsonParser.ParseCanonical` | packages/core/audit.ts:39-51 | parsing a canonical text gives the value with sorted keys and leaves what follows |
| `JsonParser.CanonicalIffEquivalent` | packages/core/audit.ts:32-51 | two values print to the same canonical text if and only if they are equal up to recursive key order |
| `JsonParser.CanonicalPrefixFree` | packages/core/audit.ts:39-51 | a canonical text before a delimiter determines its value and where it ends |
| `JsonParser.QuotePrefixFree` | packages/core/audit.ts:71 | a quoted string determines its contents and where it ends, whatever follows |
| `JsonText.CanonicalReadsBack` | packages/core/audit.ts:39-51 | before any delimiter the canonical text of a value reads back as that value but for key order, with the keys of every object ascending |
| `JsonText.LeIsInOrder` | packages/core/audit.ts:46-47 | strings sort in code unit order: a prefix first, else by the first unit that differs |
| `JsonText.QuoteIsStringified` | packages/core/audit.ts:41 | the exact text of a stringified string: quotation marks, the seven short escapes, lower-case `\u` escapes for other controls and lone surrogates, and all else as it is |
| `JsonText.EscapeUnitIsStringified` | packages/core/audit.ts:41 | which unit is escaped and to what text, unit by unit |
| `AuditLog.BodyDecodable` | packages/core/audit.ts:69-71 | equal hand-built objects have equal payload fields, before and after up to key order |
| `AuditLog.PreimageDecodable` | packages/core/audit.ts:60-71 | two preimages are equal if and only if previous hash and payload agree up to key order |
| `AuditPreimage.BodyReadsBack` | packages/core/audit.ts:69-71 | the hashed object parses to exactly the members actor_id, action, entity_type, entity_id, before, after and ts, in this order, each with its own value |
| `AuditPreimage.PreimageReadsBack` | packages/core/audit.ts:60-78 | what is hashed is the previous hash followed by that object |
| `AuditLog.AuditTable.EmitAuditEvent` | apps/server/src/policies/audit-service.ts:32-85 | appends exactly the row with the event's columns, the stored before, after and instant, the hash of the row last in (ts, id) order or the genesis hash, and its own hash; a rejected insert changes nothing |
| `AuditLog.AuditTable.Verify` | apps/server/src/api/audit.ts:66-100 | answers intact exactly when every row in (ts, id) order continues the one before and carries its own hash, else names the first row that does not |
| `AuditLog.CollisionFreeBinds` | packages/core/audit.ts:60-78 | without collisions a row's hash fixes its previous hash and its hashed columns |
| `HashChain.LastHashFixesChain` | apps/server/src/api/audit.ts:76-98 | chains from one genesis that end in one hash have the same length and the same rows |
| `HashChain.HashesDistinct` | apps/server/src/api/audit.ts:76-98 | no hash occurs twice in a verifying chain |
| `HashChain.OrderedAppend` | apps/server/src/api/audit.ts:66-70 | in (ts, id) order a new row stands between the rows below and above it |
| `HashChain.OrderedAscends` | apps/server/src/api/audit.ts:66-70 | the log is read by ascending time, and by ascending id at one time, every row once |
| `HashChain.AppendVerdict` | apps/server/src/policies/audit-service.ts:40-45 | a row continuing the last hash keeps the chain exactly when it comes last and carries its own hash; otherwise it is the first broken row |
| `AuditLog.LastHashFixesLog` | apps/server/src/api/audit.ts:76-98 | under the collision hypotheses two verifying logs with one genesis and one last hash agree row by row up to key order |
| `AuditLog.NewRowHash` | apps/server/src/api/audit.ts:83-91 | the new row's own hash verifies exactly when its timestamp text survives storage |
| `AuditLog.AppendVerdict` | apps/server/src/policies/audit-service.ts:40-45 | an append keeps a verifying log verifying exactly when the new (ts, id) exceeds all others and the timestamp survives; otherwise verify names the new row |
| `AuditLog.GrowingWriterVerifies` | apps/server/src/policies/audit-service.ts:32-85 | every run of a writer with growing keys leaves a verifying log, without collision hypotheses |
| `AuditTimestamps.MissingMillisecondsBreakTheLog` | apps/server/src/api/audit.ts:83-91 | on a sound platform, one accepted event whose ISO 8601 timestamp has no milliseconds makes an empty log unverifiable, and its row the first invalid one |
| `TaskQueue.TaskQueueTable.EnqueueTask` | packages/db/task-queue.ts:61-85 | inserts a pending task with attempt 0, no claim and no retry time, and every option of the request in its own column, or returns the row that has the key and changes nothing; keys stay unique |
| `TaskQueue.TaskQueueTable.ClaimNextTask` | packages/db/task-queue.ts:102-127 | null exactly when no pending task of that agent type is past its retry time; otherwise one of least priority and then least creation time gets the claimant, token, lease and one more attempt, and nothing else changes |
| `TaskQueue.TaskQueueTable.UpdateTaskStatus` | packages/db/task-queue.ts:140-154 | writes status, error and retry time of the row with that id, in whatever state it is, and no other column or row |
| `TaskQueue.TaskQueueTable.SubmitTaskResult` | packages/db/task-queue.ts:164-177 | completes the row with that id, in whatever state it is, with the result, and no other column or row |
| `TaskQueue.TaskQueueTable.RecoverStaleClaims` | packages/db/task-queue.ts:211-233 | exactly the claimed rows whose lease is over lose their claim: dead without attempts left, else pending with a retry time of 2^attempt seconds from now |
| `TaskQueue.SomethingToClaim` | packages/db/task-queue.ts:115-123 | if any unlocked row is eligible, one of them is first in (priority, created_at) order |
| `TaskQueueLocks.LockIsClaim` | packages/db/task-queue.ts:115-123 | locking a first unlocked row is an atomic claim on the table in which all claims in flight have committed |
| `TaskQueueLocks.CommitIsSilent` | packages/db/task-queue.ts:105-125 | committing a claim changes nothing of that table |
| `TaskQueueLocks.RecoverIsRecover` | packages/db/task-queue.ts:211-230 | a recovery is the atomic recovery of that table if and only if no claim in flight has an expired lease |
| `TaskQueueLocks.SettledEnds` | packages/db/task-queue.ts:105-125 | the settled tables of a run start and end with the tables in which all claims in flight have committed |
| `TaskQueueLocks.Linearizes` | packages/db/task-queue.ts:95-127 | the settled tables of a rollback-free interleaving and its statements, each claim at its lock, are a sequential run if and only if every recovery finds live leases |
| `TaskQueueLocks.QuiescentRunsAreSequential` | packages/db/task-queue.ts:95-127 | from idle to idle that run starts and ends in the committed tables, and is sequential under the same condition, both ways |
| `TaskQueueLocks.LockedRowFrozen` | packages/db/task-queue.ts:99-122 | while a claim holds a row no other step changes it or claims it |
| `TaskQueueLocks.CommitReturnsLockedRow` | packages/db/task-queue.ts:105-126 | the row a claim returns at its commit is the row the sequential claim returns at the lock |
| `LateCommit.LateRunIsARun` | packages/db/task-queue.ts:102-127 | a run from idle to idle in which a task is claimed, taken back and claimed again while an earlier claim is in flight with its lease over |
| `LateCommit.LateCommitHasNoSequentialOrder` | packages/db/task-queue.ts:211-230 | no sequential run from the same table consists of the statements of that run, in whatever order |
| `TaskQueueRuns.BackoffInvariant` | packages/db/task-queue.ts:111-119 | what a row's attempt, lease and retry time say about the claims made so far |
| `TaskQueueRuns.BackoffBound` | packages/db/task-queue.ts:215-229 | a task touched only by claims with leases of at least ttl and recoveries is claimed for the k-th time strictly later than first + (k-1)*ttl + 2^k - 2 seconds |
| `TaskQueueRuns.RunKeepsGood` | packages/db/task-queue.ts:102-127 | pending implies attempt below max(1, max_attempts) and claimed implies at most that many, in every run without outside pending or claimed writes |
| `TaskQueueRuns.StepLowersMeasure` | packages/db/task-queue.ts:211-233 | every claim and every recovery of a task lowers its measure and no step raises it |
| `TaskQueueRuns.ConsumptionsBounded` | packages/db/task-queue.ts:102-127 | in every run a task is claimed and taken back at most as often as its measure says |
| `TaskQueueRuns.DiesAfterExactlyCapClaims` | packages/db/task-queue.ts:211-233 | a new task touched only by claims and recoveries has as many claims as its attempt says, at most max(1, max_attempts), and is dead only after exactly that many |
| `TaskQueueRuns.PendingIsClaimable` | packages/db/task-queue.ts:115-121 | from its retry time on a pending task makes every claim for its agent type find something, and is the one claimed when nothing eligible comes before it |
| `TaskQueueRuns.ClaimedIsRecovered` | packages/db/task-queue.ts:215-229 | any recovery after the lease buries a claimed task at its cap and resets it below |
| `TaskQueueRuns.NextEffectiveStep` | packages/db/task-queue.ts:102-233 | while some task is pending or claimed, a claim or recovery is enabled that lowers the total measure |
| `TaskQueueRuns.Drains` | packages/db/task-queue.ts:102-233 | from every good table and any time on, claims and recoveries alone, on a clock that does not go back, finish all tasks in at most the total measure of steps |
| `TaskQueueRuns.DrainedTaskDies` | packages/db/task-queue.ts:211-233 | in every such run a new task ends dead, after exactly max(1, max_attempts) claims |
| `TaskQueueRuns.EnqueuedTaskDies` | packages/db/task-queue.ts:61-85 | a task enqueued under a new key and then touched only by claims and recoveries has at most max(1, max_attempts of that enqueue) claims, and exactly so many if it ends dead |
| `TaskQueueRuns.EnqueuedTaskBacksOff` | packages/db/task-queue.ts:215-229 | from its enqueue on, its k-th claim comes strictly later than first + (k-1)*ttl + 2^k - 2 seconds |
| `TaskQueueRuns.RetryTimeExact` | packages/db/task-queue.ts:221-225 | a task taken back after its n-th claim may be retried exactly 2^n seconds after the recovery that did so |
| `CronWorker.Scheduler.ProcessOneCronTask` | apps/server/src/jobs/scheduler.ts:57-111 | nothing while a run is under way, when the claim throws, or without an eligible cron task; otherwise one first eligible task of agent type cron gets the worker's name, a lease of a minute, and the status, message and result of the outcome whose writes do not fail; the flag is reset |
| `CronWorker.Scheduler.FinishTask` | apps/server/src/jobs/scheduler.ts:72-107 | makes just the finish writes of the outcome, on the claimed row only |
| `CronWorker.CronRunsSettle` | apps/server/src/jobs/scheduler.ts:75-106 | a claimed task ends completed or failed with nothing left to claim, unless every status write fails: exactly then it stays claimed until its lease is over |
| `CronWorker.CronWritesSettle` | apps/server/src/jobs/scheduler.ts:75-106 | no finish write is pending or claimed |
| `CronRuns.CallsDoNotOverlap` | apps/server/src/jobs/scheduler.ts:57-59 | in every interleaving of polls, awaits and other clients at most the latest call is under way, and the flag is set exactly then |
| `CronRuns.CronRunsAreQueueRuns` | apps/server/src/jobs/scheduler.ts:57-111 | every such interleaving is a run of the queue's statements whose finish writes settle their tasks |
| `CronRuns.CronSystemKeepsGood` | apps/server/src/jobs/scheduler.ts:57-111 | so every task keeps to its cap of claims, whatever the cron worker and the other clients do |
| `FieldPaths.ResolveField` | packages/core/knowledge-base/form-taxonomy.ts:325-347 | the level-by-level loop returns what the recursive depth-first walk returns, order included |
| `PathChoices.FindsOneList` | packages/core/knowledge-base/form-taxonomy.ts:325-347 | what that walk returns, without a walk: each value to which some choice of an element at every `[]` segment leads, in the order of the choices, and no other list |
| `PathChoices.SplitIsJoined` | packages/core/knowledge-base/form-taxonomy.ts:326 | the segments hold no dot and give the path when joined with dots |
| `PathChoices.PropertyIsGet` | packages/core/knowledge-base/form-taxonomy.ts:336 | a property read is the first field with that key, the element with that index, or the length |
| `ShippedForms.RuleFires` | packages/core/knowledge-base/form-taxonomy.ts:354-382 | a rule fires exactly when some choice of elements leads its path to a value that passes its operator's test |
| `NumberValues.NumberTextValue` | packages/core/knowledge-base/form-taxonomy.ts:373-377 | the number that `gt` and `lt` compare: sign, digits in base ten, point and exponent of its text |
| `FieldPaths.LevelStep` | packages/core/knowledge-base/form-taxonomy.ts:329-344 | descending one level for all nodes first leaves the walk's result and order alone |
| `FieldPaths.DecimalIsNumber` | packages/core/knowledge-base/form-taxonomy.ts:336 | the length a path reads from an array is a number of that value |
| `GrowingSituations.ResolveGrows` | packages/core/knowledge-base/form-taxonomy.ts:325-347 | when arrays of the situation grow, every value found on any path is still found, possibly grown, or as a length no smaller if the path ends in `length` |
| `GrowingSituations.KeepsFiringExactly` | packages/core/knowledge-base/form-taxonomy.ts:354-382 | a rule that fires keeps firing on every grown situation, for all situations, if and only if it is not length-sensitive: a path ending in `length` with `equals` or `contains` a natural number, or `lt` a positive one |
| `FormTaxonomy.BuildFormIndex` | packages/core/knowledge-base/form-taxonomy.ts:398-404 | the index holds exactly the defined ids, each with its last definition |
| `FormTaxonomy.Seed` | packages/core/knowledge-base/form-taxonomy.ts:426-437 | the first loop collects every triggered form once and nothing that is not forced |
| `FormTaxonomy.Expand` | packages/core/knowledge-base/form-taxonomy.ts:441-450 | one turn takes the first queued form and queues exactly the new dependencies, keeping everything forced and only queued forms unexpanded |
| `FormTaxonomy.GetRequiredForms` | packages/core/knowledge-base/form-taxonomy.ts:421-454 | terminates on every taxonomy and returns the sorted, duplicate-free least set with the triggered forms that is closed under dependencies |
| `FormTaxonomy.RequiredFormsUnique` | packages/core/knowledge-base/form-taxonomy.ts:415 | there is only one such list |
| `FormTaxonomy.RequiredBecause` | packages/core/knowledge-base/form-taxonomy.ts:415 | a form is required exactly when it is triggered or a dependency of a required form |
| `FormTaxonomy.LastDefinitionIsLast` | packages/core/knowledge-base/form-taxonomy.ts:398-404 | of several definitions of an id the last one counts |
| `FormTaxonomy.OrderDoesNotMatter` | packages/core/knowledge-base/form-taxonomy.ts:398-454 | with unique ids the taxonomy may be in any order |
| `FormTaxonomy.GrowingKeepsForms` | packages/core/knowledge-base/form-taxonomy.ts:421-454 | growing the situation never removes a required form if no rule of the taxonomy is length-sensitive |
| `FormTaxonomy.LengthSensitiveRuleLosesItsForm` | packages/core/knowledge-base/form-taxonomy.ts:421-454 | every length-sensitive rule loses the form that it alone triggers, on some situation that grows |
| `FormTable.TableReadsNoLength` | packages/core/knowledge-base/form-taxonomy.ts:92-310 | no path of the shipped table ends in `length`, so no rule of it is length-sensitive |
| `FormTable.MoreStreamsOrDeductionsKeepForms` | packages/core/knowledge-base/form-taxonomy.ts:421-454 | with the shipped table, appending income streams or deductions never removes a form |
| `FormTable.AnyFormRequires1040` | packages/core/knowledge-base/form-taxonomy.ts:92-310 | with the shipped table, Form 1040 is required whenever any form is |
| `ShippedForms.ShippedFormsExactly` | packages/core/knowledge-base/form-taxonomy.ts:92-454 | for every situation, which of the twelve forms the shipped table requires, each by what the types of streams and deductions, the filing status and the state say, and no other form |
| `ShippedForms.TablePathTexts` | packages/core/knowledge-base/form-taxonomy.ts:92-310 | the four paths of the shipped rules as they are written |
| `FormTable.LengthRulesCanRemoveForms` | packages/core/knowledge-base/form-taxonomy.ts:334-341 | a taxonomy with a rule on an array's length, and a situation in which appending one element removes its form |
| `RateLimiting.RateLimiter.Check` | apps/server/src/security/rate-limiter.ts:59-76 | unconditional when disabled; else allowed exactly below the limit of active times, with the remaining capacity or 0, and resetAt the first whole second not before the oldest of them, or now, plus the window |
| `RateLimiting.RateLimiter.Consume` | apps/server/src/security/rate-limiter.ts:81-89 | prunes the key's times and appends the request, leaving other keys alone |
| `RateLimiting.RateLimiter.Cleanup` | apps/server/src/security/rate-limiter.ts:95-106 | leaves each key its active times and drops the keys that have none |
| `RateLimiting.RateLimiter.Reset` | apps/server/src/security/rate-limiter.ts:109-111 | forgets every request |
| `RateLimiting.PrunedStoreAgrees` | apps/server/src/security/rate-limiter.ts:59-106 | after any run of consumes and cleanups under a nondecreasing clock, check on the pruned store equals check on the full history |
| `RateLimiting.NoWindowOverflows` | apps/server/src/security/rate-limiter.ts:59-89 | when each consume follows an allowed check, every interval (t - windowMs, t] holds at most maxRequests requests of a key |
| `RateLimiting.RemainingIsCapacityLeft` | apps/server/src/security/rate-limiter.ts:68-70 | `remaining` of an allowed check is the capacity left after the consume, or a lower bound if the clock moves in between |
| `RateLimiting.DeniedUntilOldestLeaves` | apps/server/src/security/rate-limiter.ts:68-75 | a denied key without further consumes is allowed again exactly from oldest + windowMs on; resetAt is the first whole second at which it is, and the Retry-After seconds of line 163 are enough and not one too many |
| `RateLimiting.CeilSeconds` | apps/server/src/security/rate-limiter.ts:73 | resetAt is the least whole second not before the instant |
| `SqlStatements.SplitSqlStatements` | packages/db/index.ts:111-146 | the loop computes the recursive splitter about which the following rows speak |
| `SqlStatements.SplitUndoesJoin` | packages/db/index.ts:111-146 | splitting undoes joining with `;` for any trimmed, non-empty statements without top-level semicolons of which only the last may leave `$$` open |
| `SqlStatements.SplitGivesStatements` | packages/db/index.ts:111-146 | every output is such a list |
| `SqlStatements.ResplitStatement` | packages/db/index.ts:111-146 | splitting an output statement again gives just that statement |
| `SqlStatements.ResplitScript` | packages/db/index.ts:111-146 | joining the outputs of any script and splitting again gives the same statements |
| `SqlStatements.SplitKeepsCharacters` | packages/db/index.ts:111-146 | on every input the statements hold in order exactly the characters other than white space and top-level semicolons |
| `SqlText.SplitMeans` | packages/db/index.ts:111-146 | every statement begins and ends with a visible character and holds no semicolon behind an even number of `$$`; all but the last close their quotes; nothing but white space and such semicolons is lost |
| `SqlText.StatementMeans` | packages/db/index.ts:111-146 | that is what a statement is |
| `SqlText.TrimTrims` | packages/db/index.ts:128 | trimming drops white space at both ends and nothing else |
| `SqlText.SpacesAre` | packages/db/index.ts:128 | white space by code point |
| `Base64Url.EncodingIsUrlSafe` | apps/server/src/auth/jwt.ts:36-42 | exactly byte strings are encoded, in the URL-safe alphabet, without padding, with the expected length |
| `Base64Url.RoundTrip` | apps/server/src/auth/jwt.ts:36-53 | decoding an encoded byte string gives it back |
| `Base64Url.Base64UrlDecode` | apps/server/src/auth/jwt.ts:47-53 | the padding loop adds what `padEnd` with the closed formula adds |
| `Base64Url.Base64UrlDecodeBytes` | apps/server/src/auth/jwt.ts:58-66 | the filled buffer holds exactly the decoded bytes |
| `Base64Url.LogoutDecodesAlike` | apps/server/src/api/auth.ts:413-418 | logout's inline decoding agrees with base64UrlDecode on every text, good or bad |
| `Base64Text.EncodedStands` | apps/server/src/auth/jwt.ts:36-42 | each three bytes as a number in base 256 are four letters of the alphabet as the same number in base 64, a shorter last group being filled up with zero bits |
| `Base64Text.DecodedRounds` | apps/server/src/auth/jwt.ts:47-53 | text in the alphabet is decoded to the bytes it stands for, bits left over dropped, unless one letter is left over |
| `DelegatedTokens.RevokedTokens.RevokeToken` | packages/db/revocation.ts:10-16 | inserts the jti unless it is there |
| `DelegatedTokens.RevokedTokens.CleanupExpiredRevocations` | packages/db/revocation.ts:35-37 | drops exactly the rows whose expiry is past |
| `DelegatedTokens.RevokedTokens.VerifySignature` | apps/server/src/auth/jwt.ts:217-234 | some active key accepts, keys that throw being skipped |
| `DelegatedTokens.RevokedTokens.VerifyJwt` | apps/server/src/auth/jwt.ts:203-252 | accepts exactly signed, decodable, unexpired, unrevoked tokens, and each refusal has its cause, a bad signature being reported before a bad payload |
| `DelegatedTokens.RevokedTokens.VerifyDelegatedToken` | apps/server/src/auth/delegated-token.ts:77-121 | passes exactly tokens with an accepting key, unexpired, unrevoked, with the expected task, agent type and creator and scope task_result, and stores their jti with their expiry; a refusal changes nothing and reports the first mismatch |
| `DelegatedTokens.PassesAtMostOnce` | apps/server/src/auth/delegated-token.ts:77-121 | in every run on a forward clock a jti passes at most once unless it is presented in the second that starts at exp |
| `DelegatedTokens.SingleUseOnWholeSeconds` | apps/server/src/auth/jwt.ts:243-249 | on a whole-second clock a jti passes at most once |
| `DelegatedTokens.PassesAgainExactly` | packages/db/revocation.ts:35-37 | a token that passed passes again if and only if a cleanup ran later than its expiry and the other checks still accept it |
| `DelegatedTokens.PassesAgainOnlyInGraceSecond` | apps/server/src/auth/jwt.ts:243-245 | so only inside the second that starts at exp |
| `DelegatedTokens.GraceSecondReplay` | packages/db/revocation.ts:35-37 | there is a run in which a jti passes twice within that second |
| `WorkerWaker.Waker.WaitForWork` | packages/db/task-queue-worker.ts:71-100 | registers one unresolved waiter at the end of `pending`, its timer set at the call, and leaves the others alone |
| `WorkerWaker.Waker.Notify` | packages/db/task-queue-worker.ts:65-69 | empties `pending` and resolves every unresolved waiter once, now |
| `WorkerWaker.Waker.TimerFires` | packages/db/task-queue-worker.ts:85-93 | when it is due, and once, removes and resolves its waiter, unless that is done, in which case nobody is resolved or removed |
| `WorkerWaker.EveryRun` | packages/db/task-queue-worker.ts:62-100 | after every interleaving `pending` is exactly the unresolved waiters in order, each promise has been resolved at most once, and each unresolved waiter still has its timer |
| `WorkerWaker.WaitStartsAtItsCall` | packages/db/task-queue-worker.ts:71-85 | in every later state the timer of a wait runs from the moment of its call |
| `WorkerWaker.NotificationWakesAll` | packages/db/task-queue-worker.ts:65-69 | after a notification no wait is unresolved |
| `WorkerWaker.WhatEndedIt` | packages/db/task-queue-worker.ts:65-93 | a wait that has ended was ended after its call, by a notification or by its own timer no earlier than the call plus the interval, and no later than that plus the timer's lateness |
| `WorkerWaker.ResolvedOnceByDeadline` | packages/db/task-queue-worker.ts:71-100 | before anything happens later than a wait's call plus the interval and the timer's lateness, its promise has been resolved, exactly once and in time |
| `WorkerWaker.EndedWaitsStay` | packages/db/task-queue-worker.ts:76-81 | in every interleaving a wait that has ended is never resolved again |
| `WorkerLoop.NoJobAfterStop` | packages/db/task-queue-worker.ts:156-171 | after a call of stop no further tryClaimAndExecute starts and the loop does not begin to wait, whatever happens |
| `WorkerLoop.ReturnsAfterExit` | packages/db/task-queue-worker.ts:167-171 | a call of stop returns only once the loop has exited |
| `WorkerLoop.StoppedRunsEnd` | packages/db/task-queue-worker.ts:159-171 | in whatever order, a stopped loop and its stop calls make boundedly many steps, and when none is left all are finished or the job under way awaits a stop call |
| `WorkerLoop.StopReturnsExactly` | packages/db/task-queue-worker.ts:159-171 | in every reachable state after a call of stop the loop can still exit and all stop calls return if and only if the job under way awaits none of them |
| `WorkerLoop.AwaitedInsideItsJobHangs` | packages/db/task-queue-worker.ts:167-171 | a stop call that the job under way awaits never gets past the loop's promise, in any continuation, and the job never ends |
| `TierMapping.EvaluateProvider` | packages/core/knowledge-base/tier-mapping.ts:737-786 | name, prices and conditions of the first eligible tier, and one entry for each disqualified tier before it |
| `TierMapping.EvaluateTierPlacement` | packages/core/knowledge-base/tier-mapping.ts:733-789 | one such evaluation for each provider, in order |
| `TierMapping.EntryCount` | packages/core/knowledge-base/tier-mapping.ts:746-752 | there are exactly as many entries as disqualified tiers |
| `TierMapping.EntriesInOrder` | packages/core/knowledge-base/tier-mapping.ts:744-752 | the entries stand in the order of the tiers |
| `TierMapping.EntryText` | packages/core/knowledge-base/tier-mapping.ts:746-752 | an entry names the tier and the first of its disqualifying conditions that holds |
| `TierMapping.EligibleMeans` | packages/core/knowledge-base/tier-mapping.ts:744-757 | a tier matches when all its qualifying conditions hold and none of its disqualifying ones |
| `TierMapping.OrderDoesNotMatter` | packages/core/knowledge-base/tier-mapping.ts:744-775 | mutually exclusive tiers may stand in any order |
| `TierTables.TiersAreExclusive` | packages/core/knowledge-base/tier-mapping.ts:178-580 | the tiers of TurboTax, H&R Block and TaxAct are mutually exclusive |
| `TierTables.AlwaysMatches` | packages/core/knowledge-base/tier-mapping.ts:316-580 | H&R Block and TaxAct match every situation, at the tier its income and deductions call for |
| `TierTables.TurboTaxCharges` | packages/core/knowledge-base/tier-mapping.ts:178-296 | tier and prices at TurboTax, or no match, by the types of streams and deductions |
| `TierTables.HrBlockCharges` | packages/core/knowledge-base/tier-mapping.ts:316-440 | tier and prices at H&R Block, by the types of streams and deductions |
| `TierTables.TaxActCharges` | packages/core/knowledge-base/tier-mapping.ts:457-580 | tier and prices at TaxAct, by the types of streams and deductions |
| `TierTables.FreeTaxUsaCharges` | packages/core/knowledge-base/tier-mapping.ts:600-657 | tier and prices at FreeTaxUSA, by the types of streams and the states |
| `TierTables.CashAppCharges` | packages/core/knowledge-base/tier-mapping.ts:658-686 | free at Cash App Taxes, or no match with K-1 income |
| `TierTables.HrBlockPricesOnlyRise` | packages/core/knowledge-base/tier-mapping.ts:316-440 | adding streams or deductions never lowers H&R Block's federal or state price |
| `TierTables.TaxActPricesOnlyRise` | packages/core/knowledge-base/tier-mapping.ts:457-580 | adding streams or deductions never lowers TaxAct's federal or state price |
| `TierTables.TurboTaxMatches` | packages/core/knowledge-base/tier-mapping.ts:178-296 | TurboTax matches if and only if income is complex or deductions are itemized or income is W-2 only |
| `TierTables.TurboTaxCanLoseItsMatch` | packages/core/knowledge-base/tier-mapping.ts:255-294 | W-2 income matches, W-2 and pension income does not |
| `TierTables.FlatProviders` | packages/core/knowledge-base/tier-mapping.ts:600-686 | FreeTaxUSA always matches at one price; Cash App matches all but K-1 income, free |

## Left out

- FormTaxonomy.GrowingKeepsForms: one direction for whole taxonomies, since another rule or a dependency may still require the form a length-sensitive rule loses; rule by rule `GrowingSituations.KeepsFiringExactly` goes both ways.
- FieldPaths.ResolveField: reads own properties only; keys inherited from JavaScript's prototypes, such as `constructor`, are taken as absent.
- GrowingSituations.KeepsFiringExactly: a `gt` or `lt` rule compares numbers with numbers; JavaScript's conversion of other rule values is not modelled.
- TaskQueueLocks.Linearizes: claims that roll back, and the re-evaluation PostgreSQL makes when a row changes under a waiting statement, are not modelled.
- CronWorker.Scheduler.ProcessOneCronTask: its statements follow each other; `CronRuns` covers what comes in between.
- DelegatedTokens.PassesAtMostOnce: each verification is atomic, although the code checks and inserts in two statements.
- RateLimiting.NoWindowOverflows: covers adjacent check and consume pairs; on the login route other requests may come between the two.
- AuditLog.AppendVerdict: batched recovery audits share one timestamp, so that keys grow stays a hypothesis.
- WorkerWaker.EveryRun: the LISTEN/NOTIFY transport and its connection are not part of this model; a notification is an event that may come at any time.
- WorkerLoop.StopReturnsExactly: a job that throws, which the contract of `tryClaimAndExecute` excludes, is not modelled; that `waitForWork` resolves is proved in `WorkerWaker`.
- Signing, encryption and hashing algorithms, HTTP routing, cookies and the passkey flow: not part of this model.
- The columns of a form definition and of a tier condition that only describe it (names, required fields, operators for display).
- Listing and paging of tasks and audit events, validation rules, completeness scores, seeds, schemas and user interface: single queries and field-by-field checks that keep no state between calls.
