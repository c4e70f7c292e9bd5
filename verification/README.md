# Background jobs, feature statistics and publication: a verified model

The project models three linked parts of the system and proves what they guarantee.

1. **The background-job protocol.** Workers, dispatchers, operators and reconcilers act on shared job, attempt,
   outbox and audit rows. Every transaction is a function on the stored rows (`JobTransactions`) and, in place, a
   method of `JobDatabase.Database`. A run is any sequence of these steps with any clock; a crash is a worker that
   takes no further step. In `JobInterleaving` every transaction that reads first and then writes under a guard is
   two events, with any events of others in between; every such interleaving is shown to be a run of steps, so the
   results about runs are results about interleavings. A recovery or an operation that writes with an older read
   is a step of its own.
2. **The feature-statistics engine.** Medians and percentiles over reals, leave-one-out sensitivity, the seeded
   bootstrap with its 32-bit generator, the Benjamini-Hochberg step-up, the classification chain and the two-pass
   family, from the posts and snapshots that are selected to the requests that are asked.
3. **Publication.** Statistics are cached by fingerprint, collected under a building run and made visible by one
   activation; a debounce marker says which accounts are due.

## Main results

- Every store a run reaches is consistent: a job is Processing exactly when it holds a lease, exactly when it has one
  active attempt, the latest one; results exist exactly for Succeeded jobs; every state change is in the transition
  table. A lost lease stays powerless, cancellation is final, a redelivery is never swallowed by a stale dispatcher.
- A worker that heartbeats in time is never recovered, whatever the others do; once its lease has ended it is.
- No crash strands a job: from a time computed from its rows, one of the periodic queries lists it and the
  transaction then started succeeds; at most four transactions bring it back to a worker.
- Read-then-guarded-write equals the atomic transaction or changes nothing, under arbitrary interference, up to the
  one dispatch status that a recovery writes back; when that happens, and how long it lasts, is stated exactly.
- An actor who never begins an operation with more than `lag` others open gets at most the limit and `lag` more past
  the guard in any window, and for every `lag` there is a run that does.
- The leave-one-out loop equals a closed form on at most three order statistics; the step-up loop equals its
  declarative form exactly when no tie straddles its line; every association, by whichever path, has the moderate
  samples and an 80% interval without zero;
  the second pass of a family always returns the first; a reused row is what calculating afresh would give.
- A run is activated exactly when every calculated entry is published in it; a scope that has published keeps
  exactly one active run; no change is lost when activation presents the inputs as they stand.

## Where the code does something else than it says

- The activation compares fingerprints "again", but the recalculation job presents the fingerprint its run was
  started with (apps/worker/src/analytics/recalculate-handler.ts), so that check never refuses and a change that
  arrives while a run is building is lost: `MarkerAloneLosesChange` gives the run, `OwnFingerprintIsExact` the exact
  condition.
- The multiple-testing correction never rejects anything: every ranking value is at most 0.05 and the rate is 0.1
  (`CorrectFamily`, `CalculateFeatureFamily`).
- The check without the best and the worst post is always passed when it is made (`RemoveBestWorst`).
- The missing count decides a class but is not in the fingerprint (`MissingCountMatters`, exact in `ReuseIsExact`).
- A recovery that gives up writes back the dispatch status it read, so a failed job can say Pending over a dispatched
  outbox row (`StaleRecoveryHappens`, exact in `RecoverRefines` and `DriftsExactly`).
- A delivery or the result sweep can report an inconsistency of a consistent store (`DeliveryChecksUnderInterference`,
  `SweepUnderInterference`, `FalseConflictHappens`).
- The operator limit is not kept by overlapping operations (`LimitPlusLagIsReached`, exact in `OperatorRateBound`).
- Dates in the years 0 to 99 get the week label of their namesake in the twentieth century (`TwoDigitYearsCollide`,
  exact in `LabelSeparatesWeeks` and `LabelIsCalendarWeek`).
- With a negative rate and negative p-values the step-up procedure can separate equal values (`SeparateATie`, exact in
  `StepUp` and `VerdictsExactly`).
- The stored interval confidence depends on the class alone. It differs from the level the interval was drawn at exactly
  for comparisons with the supported samples and a 95% interval without zero that clustering, the correction or the
  half-effect check keeps out of the supported class: drawn at 0.95, stored at 0.8 (`StoredLevelDiffers`, exact in
  `StoredLevelExactly`).

## Assumptions

- A transaction is atomic, or a read followed by a guarded write. Skipping locked rows is choosing any subset of the free ones.
- New identifiers are fresh. Identifiers of jobs, leases, workspaces and operators are numbers; snapshot identifiers
  are numbered in the order their text sorts in. Identifiers contain no colon, so joined identifiers determine their parts.
- A job's result is written only by the commit of its result. Hashes are injective on their canonical input, so a
  fingerprint is modelled as that input; the versions in it are constants.
- Values are finite reals; rounding is not modelled. The number of resamples is any positive number.
- Change times of one account do not run backwards. An activation names the scope of its run.

## Model

| member | source | states |
|---|---|---|
| JobRetry.DecideJobRetry | packages/domain/src/job-retry.ts:93-144 | a retry leaves an attempt in both budgets, waits between a second and the horizon, honours the provider's delay and ends before the job's deadline |
| JobRetry.RetryExactly | packages/domain/src/job-retry.ts:93-144 | a failure is retried exactly when it is worth it, class and job have an attempt left and the wait is in time; the wait is the longest of a second, the provider's delay and the drawn share of the attempt's own cap; and what every refusal advises |
| JobProtocol.StepKeepsConsistent | packages/db/src/job-execution.ts:121-381 | every step of every participant, including the writes of recoveries and operations whose reads lie further back, keeps the rows of all jobs consistent with each other |
| JobProtocol.RunKeepsConsistent | packages/db/src/job-execution.ts:121-833 | so does every run, whatever the interleaving and the clocks |
| JobProtocol.ClaimKeeps | packages/db/src/job-execution.ts:132-188 | a claim, with its fresh lease and next attempt, keeps the rows of all jobs consistent |
| JobProtocol.RecoverLeaseKeeps | packages/db/src/job-execution.ts:277-381 | so does the recovery of a lapsed lease, whether it requeues, cancels or gives up |
| JobProtocol.RecoverWriteKeeps | packages/db/src/job-execution.ts:287-343 | a recovery keeps the rows consistent whenever it read the row |
| JobProtocol.SettleFailureKeeps | packages/db/src/job-execution.ts:650-800 | so does settling a failure, whether it schedules a retry or gives up |
| JobProtocol.CommitSuccessKeeps | packages/db/src/job-execution.ts:698-741 | so does committing a result together with success |
| JobProtocol.CancelKeeps | packages/db/src/job-operations.ts:91-182 | so does an operator's cancellation, whatever the job's state |
| JobProtocol.RetryKeeps | packages/db/src/job-operations.ts:184-331 | so does a manual retry, with its new attempt budget |
| JobProtocol.LeaseOutboxKeeps | packages/db/src/background-jobs.ts:301-339 | leasing any chosen subset of the due rows keeps the rows consistent |
| JobProtocol.EnqueueKeeps | packages/db/src/background-jobs.ts:94-262 | enqueueing keeps keys unique and every job with its outbox row |
| JobProtocol.DeadRepairs | packages/db/src/job-reconciliation.ts:385-483 | on consistent rows the missing-outbox and committed-result repairs write nothing |
| JobEvolution.StepEvolves | packages/domain/src/job-lifecycle.ts:25-53 | a step moves a job only along the transition table, moves the version with every change but the dispatch mark, and never reissues a lease |
| JobEvolution.RunContinues | packages/db/src/job-execution.ts:121-833 | what a run can do to one job: leases and outbox leases once gone stay gone, equal versions mean an unchanged row up to dispatch status |
| JobGuarantees.ReachableConsistent | packages/db/src/job-execution.ts:121-833 | every store reached from the empty one is consistent |
| JobGuarantees.RunFollowsTable | packages/domain/src/job-lifecycle.ts:25-53 | every state change in every run is one of the listed moves between states |
| JobGuarantees.ResultExactlyWhenSucceeded | packages/db/src/job-execution.ts:698-741 | a result is committed at most once and exists exactly when the job is Succeeded |
| JobGuarantees.UnusualRepairsNeverFire | packages/db/src/job-reconciliation.ts:188-245 | in no reachable store do the two repairs outside the table find work |
| JobGuarantees.LeaseAndAttempts | packages/db/src/job-execution.ts:141-188 | Processing, lease and one active latest attempt coincide; attempts are numbered 1 to the count, which stays within the budget of at most 100 |
| JobGuarantees.RetiredLeaseIsPowerless | packages/db/src/job-execution.ts:709-833 | after a lease is lost no continuation lets its holder heartbeat, record a stage, fail or succeed |
| JobGuarantees.RecoveryRetires | packages/db/src/job-execution.ts:312-357 | recovering a lapsed lease takes it from its holder |
| JobGuarantees.CancellationIsFinal | packages/db/src/job-operations.ts:117-175 | after a cancellation request every continuation keeps the request and the cancelled outbox, commits no result and can only end in Cancelled |
| JobGuarantees.StaleDispatcherIsPowerless | packages/db/src/background-jobs.ts:409-443 | a dispatcher whose outbox lease was cleared can neither mark nor release the row later |
| JobGuarantees.RedeliveryIsNotSwallowed | packages/db/src/job-reconciliation.ts:522-554 | a reset that asks for redelivery leaves a row that can be leased at once, and no earlier lease can mark it |
| JobGuarantees.DispatchStatusExact | packages/db/src/background-jobs.ts:409-443 | in every run the dispatch status says what the outbox row says, except that a failed job can say Pending over a dispatched row |
| JobGuarantees.DriftsExactly | packages/db/src/job-execution.ts:319-331 | status and row drift apart exactly at a recovery that gives up with a read from before the mark, and stay apart exactly until the job is retried |
| JobRefinement.VersionDetectsChange | packages/db/src/background-jobs.ts:433-438 | a version that still stands means a row unchanged in every column but the dispatch status |
| JobRefinement.ClaimRefines | packages/db/src/job-execution.ts:132-174 | a claim that read earlier claims the current row or changes nothing |
| JobRefinement.HonourCancellationRefines | packages/db/src/job-execution.ts:419-453 | so does the worker's cancellation check |
| JobRefinement.RequeueDueRetryRefines | packages/db/src/job-reconciliation.ts:293-315 | so does the requeue of a due retry |
| JobRefinement.RequeueStrandedRefines | packages/db/src/job-reconciliation.ts:346-366 | so does the requeue of a stranded delivery, whose write checks nothing but the version |
| JobRefinement.CancelRefines | packages/db/src/job-operations.ts:117-172 | a cancellation changes the rows as the atomic one would, with the same answer, or not at all |
| JobRefinement.RetryRefines | packages/db/src/job-operations.ts:265-290 | a manual retry whose write succeeds would have been admitted at the time of the write |
| JobRefinement.RecoverRefines | packages/db/src/job-execution.ts:287-343 | recovery equals the atomic one in every column but the dispatch status, and there exactly when it does not give up or no mark fell in between |
| JobRefinement.StaleRecoveryHappens | packages/db/src/job-execution.ts:287-343 | a legal run in which the written-back dispatch status contradicts the outbox row |
| JobRefinement.DeliveryChecksUnderInterference | packages/db/src/job-execution.ts:487-500 | with job and result read apart, a missing result is never reported and an inconsistency exactly when the job succeeded in between |
| JobRefinement.SweepUnderInterference | packages/db/src/job-reconciliation.ts:188-245 | the result sweep never flags a missing result, never writes a repair, and flags a conflict exactly for a failed job that was retried and succeeded |
| JobRefinement.FalseConflictHappens | packages/db/src/job-reconciliation.ts:485-520 | any failed job an operator may retry can be flagged although the store is consistent throughout |
| JobRefinement.FlagBlocksRetry | packages/db/src/job-reconciliation.ts:485-520 | a flag is one column and its version, and a failed job that carries one is not retried by hand |
| JobRefinement.RepairCompletes | packages/db/src/job-reconciliation.ts:416-483 | what the repair of a committed result would write: the job, its attempt and its outbox row are completed |
| JobInterleaving.UndisturbedIsAtomic | packages/db/src/job-execution.ts:132-174 | a read and its write with nothing in between are the whole transaction, for each of the transactions that read first |
| JobInterleaving.EventIsStep | packages/db/src/job-execution.ts:287-343 | every write of an open transaction, whatever fell in between, is a step of the protocol or changes nothing |
| JobInterleaving.EventKeepsSound | packages/db/src/job-operations.ts:117-172 | what an open transaction read stays something it may rely on, and the rows stay consistent |
| JobInterleaving.InterleavingIsRun | packages/db/src/job-execution.ts:121-833 | every interleaving of reads, writes and crashes leads to the rows of a run of steps |
| JobRescue.NoJobIsStranded | packages/db/src/job-reconciliation.ts:85-181 | from its wake time on every live job is listed and the step then started succeeds: a requested cancellation is completed, a last attempt has failed, and every other job is queued and one step closer to a worker |
| JobRescue.CrashedJobReturns | packages/db/src/job-execution.ts:247-381 | at most four steps bring a crashed job with an attempt left and no cancellation request to a fresh worker; with a request it is cancelled, on its last attempt it has failed |
| JobRescue.WakeTimeIsExact | packages/db/src/job-reconciliation.ts:85-181 | a live job is listed by the query for its state from that time on and not before: no lease is taken early and no row that is not due is leased |
| JobLeases.HolderKeepsJob | packages/db/src/job-execution.ts:277-343 | whatever the others do, a worker keeps its job up to any time that its lease and all its later heartbeats reach, unless it lets go itself |
| JobLeases.HeartbeatProtects | packages/db/src/job-execution.ts:210-229 | after a claim or a heartbeat no recovery with a clock before its time and duration takes the job, in any continuation whose later heartbeats do not shorten the lease |
| JobLeases.TimelyWorkerIsNeverRecovered | packages/db/src/job-execution.ts:210-343 | a worker whose every recovery would come before the end its last heartbeat set keeps its job, in runs of any length and whatever the others do |
| JobLeases.LapsedLeaseIsTaken | packages/db/src/job-execution.ts:277-381 | once the lease has ended a recovery does take the job |
| OperatorRate.CancelRecords | packages/db/src/job-operations.ts:433-456 | an authorised cancellation appends one event, admitted exactly when the guard allowed it |
| OperatorRate.RetryRecords | packages/db/src/job-operations.ts:433-456 | so does an authorised retry |
| OperatorRate.EventKeepsTracked | packages/db/src/job-operations.ts:378-456 | every event keeps account of what each guard counted and of the operations open when it did |
| OperatorRate.TrackedIsBounded | packages/db/src/job-operations.ts:378-431 | whatever the clocks, at most the limit and as many more as were open at once are admitted in any window |
| OperatorRate.OperatorRateBound | packages/db/src/job-operations.ts:87-88 | in every interleaving at most 10 cancellations or 5 retries, and as many more as the actor had open at once, get past the guard within any 60 seconds |
| OperatorOverlap.LimitPlusLagIsReached | packages/db/src/job-operations.ts:378-456 | for every number of operations open at once there is an interleaving that reaches that bound |
| JobDatabase.Database.constructor | packages/db/src/background-jobs.ts:94-262 | empty tables are consistent |
| JobDatabase.Database.EnqueueBackgroundJob | packages/db/src/background-jobs.ts:94-262 | inserts the new job and outbox rows column by column, or returns the job that already has the key and the same payload; refused exactly for an attempt limit outside 1 to 100 or a key that stands for another payload |
| JobDatabase.Database.LeasePendingOutbox | packages/db/src/background-jobs.ts:301-339 | leases only due rows that nobody holds, all of them when the batch is not full, until the given time; no other row changes |
| JobDatabase.Database.DispatchOutboxRecord | packages/db/src/background-jobs.ts:341-407 | marks a published row, or releases it for the retry time, column by column |
| JobDatabase.Database.MarkOutboxDispatched | packages/db/src/background-jobs.ts:409-443 | marks row and job under the outbox lease only, with the delivery and its time |
| JobDatabase.Database.ClaimBackgroundJob | packages/db/src/job-execution.ts:121-208 | claims a queued job with an attempt left under a fresh lease that ends after the given duration, as its next attempt; or says why not |
| JobDatabase.Database.UpdateActiveAttempt | packages/db/src/job-execution.ts:802-833 | under the lease only: the heartbeat on both rows, the end of the lease and the stage as given or as before, nothing else |
| JobDatabase.Database.HeartbeatBackgroundJob | packages/db/src/job-execution.ts:210-229 | the holder's lease then ends a duration after now, both rows carry the heartbeat, stage and attempt number stay |
| JobDatabase.Database.RecordBackgroundJobStage | packages/db/src/job-execution.ts:231-245 | a well-formed stage is written on both rows of the holder's job and its lease ends when it did |
| JobDatabase.Database.ThrowIfCancellationRequested | packages/db/src/job-execution.ts:409-453 | completes a requested cancellation for the holder of the lease, column by column, and only then |
| JobDatabase.Database.CommitJobSuccess | packages/db/src/job-execution.ts:698-741 | commits result and success under the lease and without a cancellation request |
| JobDatabase.Database.SettleHandlerFailure | packages/db/src/job-execution.ts:650-800 | schedules the decided retry or gives up, under the lease only; job and attempt rows follow the decision |
| JobDatabase.Database.MakeBackgroundJobRetryDue | packages/db/src/job-execution.ts:247-275 | releases a scheduled retry that is due |
| JobDatabase.Database.RecoverExpiredLease | packages/db/src/job-execution.ts:277-381 | recovers exactly the lapsed leases: cancelled iff a cancellation was requested, failed iff not and the attempts are used up, queued with a row that asks for delivery iff not and an attempt is left |
| JobDatabase.Database.RecoverFromRead | packages/db/src/job-execution.ts:287-343 | the write half of a recovery with the row it read earlier: takes effect exactly when the version still stands and the lease is lapsed, and then decides as above and writes every column as stated |
| JobDatabase.RecoveryExactly | packages/db/src/job-execution.ts:287-343 | when a recovery takes effect, and every column of what it writes |
| JobDatabase.Database.RequeueDueRetryJob | packages/db/src/job-reconciliation.ts:286-337 | requeues a due retry and resets its outbox row |
| JobDatabase.Database.RequeueStrandedDelivery | packages/db/src/job-reconciliation.ts:339-383 | asks again for a delivery nobody took |
| JobDatabase.Database.AuthoriseOperation | packages/db/src/job-operations.ts:378-431 | allowed exactly for an authorised administrator with fewer recent events than the limit; every denial but a stranger's is recorded, and only an administrator is rate-limited |
| JobDatabase.Database.CancelBackgroundJob | packages/db/src/job-operations.ts:91-182 | cancels a waiting job, requests cancellation of a processing one in one of the three early stages, repeats nothing, refuses the rest; the columns it writes, and the one event that records who asked for what and the answer |
| JobDatabase.PlanExactly | packages/db/src/job-operations.ts:117-160 | which jobs are cancelled, asked to cancel, already answered or refused, and with which reason |
| JobDatabase.Database.RetryBackgroundJob | packages/db/src/job-operations.ts:184-331 | exactly an admitted retry requeues the job with a budget of at least one more attempt and asks for a delivery; nothing else changes but the one event that records it |
| JobDatabase.RefusalExactly | packages/db/src/job-operations.ts:205-262 | each refusal of a manual retry is given exactly under its own conditions; it is admitted exactly for a failed job without a flag, with its prerequisite and fewer than 100 attempts |
| JobServices.RepairSettles | packages/db/src/job-reconciliation.ts:85-181 | a repair takes its job off all three lists, puts none on and leaves other jobs alone |
| JobServices.ListJobs | packages/db/src/job-reconciliation.ts:85-181 | a batch of distinct listed jobs, all of them when it is not full |
| JobServices.Sweep | packages/db/src/job-reconciliation.ts:85-181 | every listed job is repaired, and the sweep is a legal run of repair steps |
| JobServices.ReconcileBackgroundJobs | packages/db/src/job-reconciliation.ts:71-181 | repairs all it inspects; with a batch larger than the number of jobs nothing remains listed by any of the three queries |
| JobServices.RunIdempotentJobHandler | packages/db/src/job-execution.ts:479-648 | a delivery runs the handler exactly when the job is queued or due, a failed one ends as the retry decision for that attempt says, a repeated one changes nothing, and one result at most is added |
| OrderStatistics.MedianIsHalfPercentile | packages/domain/src/analytics-cohorts.ts:354-369 | the interpolated percentile at one half is the middle value or the mean of the two middle values |
| OrderStatistics.PercentileMonotone | packages/domain/src/analytics-statistics.ts:163-170 | a percentile lies among the values and grows with its fraction |
| OrderStatistics.InterpolateRanks | packages/domain/src/analytics-cohorts.ts:354-365 | between neighbouring values a percentile is the linear interpolation: among the numbers 0, 1, 2, ... the value at a position is the position |
| OrderStatistics.SpreadIsOrdered | packages/domain/src/analytics-cohorts.ts:381-396 | minimum, quartiles, median and maximum are in order and depend on the values only |
| OrderStatistics.SpreadOfRanks | packages/domain/src/analytics-cohorts.ts:381-396 | of evenly spaced values the summary gives the ends, the quarters, the middle and half of the range |
| Sensitivity.RefitsAreCentral | packages/domain/src/analytics-statistics.ts:266-279 | the leave-one-out medians are exactly two or three values around the middle |
| Sensitivity.TrimmingKeepsMedian | packages/domain/src/analytics-statistics.ts:283-290 | dropping the smallest and the largest value leaves the median where it was |
| Sensitivity.LeaveOneOut | packages/domain/src/analytics-statistics.ts:262-279 | the loop finds whether all refits keep the sign, and their least relative effect |
| Sensitivity.RemoveBestWorst | packages/domain/src/analytics-statistics.ts:281-290 | the trimmed check is always passed when it is made |
| Sensitivity.EvaluateSensitivity | packages/domain/src/analytics-statistics.ts:246-297 | the loop equals its closed form on the central order statistics, for groups in any order |
| Sensitivity.EffectMeans | packages/domain/src/analytics-statistics.ts:233-237 | the relative effect times the size of the comparison's median is the difference, and has its sign |
| BenjaminiHochberg.StepUp | packages/domain/src/analytics-statistics.ts:322-344 | all verdicts are those of the declarative form (some p-value at least as large lies under the line of its own count) exactly when no block of equal p-values straddles the line |
| BenjaminiHochberg.VerdictsExactly | packages/domain/src/analytics-statistics.ts:332-341 | the same of the marked ranks, for any rate and any p-values |
| BenjaminiHochberg.MeaningfulNeverStraddles | packages/domain/src/analytics-statistics.ts:332-341 | with a rate or p-values that are not negative no tie straddles |
| BenjaminiHochberg.SeparateATie | packages/domain/src/analytics-statistics.ts:332-341 | two equal p-values of which the procedure keeps one, while neither survives declaratively |
| BenjaminiHochberg.SurvivalIgnoresOrder | packages/domain/src/analytics-statistics.ts:322-344 | verdicts follow the p-values through any permutation |
| BenjaminiHochberg.SurvivalIsDownwardClosed | packages/domain/src/analytics-statistics.ts:322-344 | smaller and equal p-values survive with a survivor |
| BenjaminiHochberg.SurvivalGrowsWithRate | packages/domain/src/analytics-statistics.ts:322-344 | a larger rate keeps every survivor |
| BenjaminiHochberg.LoweringKeepsSurvivors | packages/domain/src/analytics-statistics.ts:322-344 | lowering one p-value removes no survivor |
| BenjaminiHochberg.AllWithinRateSurvive | packages/domain/src/analytics-statistics.ts:332-341 | when all p-values are within the rate all survive |
| Bootstrap.Pick | packages/domain/src/analytics-statistics.ts:199-204 | a draw picks the index whose part of the unit interval, cut into equal parts, it falls into |
| Bootstrap.SampleAt | packages/domain/src/analytics-statistics.ts:195-204 | each position of a resample holds the value that its own draw falls on |
| Bootstrap.AnySampleCanBeDrawn | packages/domain/src/analytics-statistics.ts:195-204 | every list of the values is drawn by some stream |
| Bootstrap.EveryDrawIsUsed | packages/domain/src/analytics-statistics.ts:195-204 | the positions of all resamples use all draws of the stream, each exactly once |
| Bootstrap.ResampleIs | packages/domain/src/analytics-statistics.ts:195-207 | a resample subtracts the comparison's resampled median from the group's, the group drawn first |
| Bootstrap.KnownDraws | packages/domain/src/analytics-statistics.ts:126-136 | known numbers of the seeds 0, 1 and 7 |
| Bootstrap.Generator.Next | packages/domain/src/analytics-statistics.ts:126-136 | the generator gives the next number of its seed's stream |
| Bootstrap.BootstrapMedianDifference | packages/domain/src/analytics-statistics.ts:179-222 | the loops give the central interval of the resampled differences; nothing exactly when a side is empty |
| Bootstrap.DifferenceInRange | packages/domain/src/analytics-statistics.ts:195-207 | for any stream, a resampled difference lies between the extreme differences of the data |
| Bootstrap.IntervalInRange | packages/domain/src/analytics-statistics.ts:209-221 | the interval is ordered and lies between the extreme differences of the data |
| Bootstrap.IntervalsNest | packages/domain/src/analytics-statistics.ts:209-221 | a narrower confidence gives an interval inside the wider one, which excludes zero when the wider one does |
| Bootstrap.ExcludesZero | packages/domain/src/analytics-statistics.ts:211-217 | the flag says exactly that zero lies outside the interval |
| Bootstrap.LowerEndOfRanks | packages/domain/src/analytics-statistics.ts:211-214 | on evenly spaced differences the lower end leaves the tail's share of their range below it |
| Bootstrap.UpperEndOfRanks | packages/domain/src/analytics-statistics.ts:211-214 | and the upper end the same share above it |
| Bootstrap.TailsAndConfidence | packages/domain/src/analytics-statistics.ts:211-211 | both tails and the confidence make up the whole |
| TopContributor.ShareAboveHalf | packages/domain/src/analytics-statistics.ts:306-313 | the share is above one half exactly when one value outweighs all other contributions together |
| TopContributor.ShareIs | packages/domain/src/analytics-statistics.ts:306-313 | the share is that of the largest value in the total of the contributions |
| TopContributor.ShareWhenContributed | packages/domain/src/analytics-statistics.ts:306-313 | there is a share exactly when some value is positive |
| FeatureStatistics.CalculateFeatureStatistic | packages/domain/src/analytics-statistics.ts:391-524 | the whole calculation, each part tied to the specification of that part |
| FeatureStatistics.ClassesExactly | packages/domain/src/analytics-statistics.ts:425-523 | each class holds exactly under its own conditions, whatever the order of the checks |
| FeatureStatistics.ReasonsExactly | packages/domain/src/analytics-statistics.ts:425-523 | each of the thirteen reasons is given exactly under its own conditions |
| FeatureStatistics.LowerClassesExactly | packages/domain/src/analytics-statistics.ts:425-459 | insufficient evidence and single-post outliers, stated on the values of both sides |
| FeatureStatistics.DescribesBothSides | packages/domain/src/analytics-statistics.ts:391-424 | the reported counts, spreads, difference, effect and share are those of the right side |
| FeatureStatistics.SeedSeesExactly | packages/domain/src/analytics-statistics.ts:139-153 | two comparisons are seeded alike by every seeding exactly when key and values of each side agree, in whatever order |
| FeatureStatistics.DrawnInRange | packages/domain/src/analytics-statistics.ts:460-506 | the drawn interval lies between the extreme differences of group and comparison values, and excludes zero when one side's values all exceed the other's |
| FeatureStatistics.DrawnNest | packages/domain/src/analytics-statistics.ts:460-506 | at one seed the 80% interval lies in the 95% one |
| FeatureStatistics.AssociationsExactly | packages/domain/src/analytics-statistics.ts:473-515 | a comparison is an association, by any path, exactly with moderate samples, medians a tenth apart that no post carries and an 80% interval without zero, stated on the values |
| FeatureStatistics.SupportedExactly | packages/domain/src/analytics-statistics.ts:468-496 | supported exactly when the medians are a tenth apart, no post carries that and half of it stays without any one post, on 12 and 24 posts over six weeks, with a 95% interval without zero |
| StoredConfidence.StoredLevelExactly | packages/db/src/feature-statistics.ts:399-401 | a reported interval is the one drawn at its level, and the stored level is that one exactly unless a comparison with supported samples and a 95% interval without zero was kept out of the supported class |
| StoredConfidence.StoredLevelDiffers | packages/db/src/feature-statistics.ts:399-401 | a pooled comparison, for every seed, whose interval is drawn at 0.95 and stored at 0.8 |
| FeatureFamily.DominantSourceShare | packages/db/src/feature-statistics.ts:126-139 | the share of the most frequent account; above the limit exactly when some account supplies more than it |
| FeatureFamily.CountsOccurrences | packages/db/src/feature-statistics.ts:126-139 | an account's count is how often it occurs among the observations |
| FeatureFamily.InputIs | packages/db/src/feature-statistics.ts:208-240 | the values of each side in order, dates and weeks of the group, the missing share, clustering and dominance of pooled requests, and the key |
| FeatureFamily.CorrectFamily | packages/db/src/feature-statistics.ts:243-274 | the correction covers exactly the supported comparisons and all of them survive |
| FeatureFamily.CalculateFeatureFamily | packages/db/src/feature-statistics.ts:201-292 | both passes give every candidate what it comes to alone, and a pooled family supports nothing |
| FeatureFamily.SurvivingChangesNothing | packages/domain/src/analytics-statistics.ts:481-483 | a statistic that survives the correction is the uncorrected one |
| FeatureFamily.SupportedRanksLow | packages/db/src/feature-statistics.ts:260-270 | a supported comparison is ranked between 0 and 0.05 |
| FeatureFamily.RankingExactly | packages/db/src/feature-statistics.ts:260-270 | the ranking value from the distance of the interval to zero and its width |
| FeatureFamily.FurtherRanksFirst | packages/db/src/feature-statistics.ts:260-270 | further from zero at the same width ranks no later |
| FeatureFamily.PooledIsNeverSupported | packages/db/src/feature-statistics.ts:208-216 | no pooled comparison is supported |
| FeatureFamily.CandidatesAreIndependent | packages/db/src/feature-statistics.ts:276-291 | a candidate's result does not depend on the other candidates |
| StatisticReuse.CanonicalListing | packages/db/src/feature-statistics.ts:158-164 | identifiers listed in one order are determined by which they are |
| StatisticCache.KeyExactly | packages/db/src/feature-statistics.ts:151-185 | a key carries its question in its columns, and two questions share a row exactly when they ask the same of the same posts, snapshots and analyses on both sides |
| StatisticReuse.ReuseIsExact | packages/db/src/feature-statistics.ts:151-185 | with equal fingerprints a stored statistic equals a fresh one exactly when missing values do not decide between them |
| StatisticReuse.SameMissingAgrees | packages/db/src/feature-statistics.ts:109-113 | equal missing counts are enough |
| StatisticReuse.MissingCountMatters | packages/db/src/feature-statistics.ts:109-113 | equal fingerprints with different missing counts and different statistics |
| StatisticCache.WalkKeepsHonest | packages/db/src/feature-statistics.ts:320-447 | every stored row holds an answer that was calculated for its key |
| StatisticCache.RunKeepsHonest | packages/db/src/feature-statistics.ts:320-447 | in every run that stores calculated answers every row holds one |
| StatisticCache.CachedStatisticAgrees | packages/db/src/feature-statistics.ts:337-344 | a reused row is what calculating afresh would give |
| ListingOrder.CandidatesAreListedInOrder | packages/db/src/analytics-features.ts:156-157 | both sides of every candidate are listed in the order the posts were read in |
| ListingOrder.ReusedRowAgrees | packages/db/src/feature-statistics.ts:337-344 | when all questions come from posts listed in one order, a reused row is what calculating afresh would give |
| Publication.RunKeepsSound | packages/db/src/analytics-runs.ts:121-297 | in every run at most one run per scope is active, rows have their own identifiers and due times follow markers |
| Publication.ActivationSupersedes | packages/db/src/analytics-runs.ts:223-250 | an unrefused activation succeeds, supersedes exactly the previous run of its scope and changes nothing else but its marker |
| Publication.RefusedExactly | packages/db/src/analytics-runs.ts:192-221 | an activation is refused exactly for changed inputs or an incomplete set, with that reason |
| Publication.ScopesAreSeparate | packages/db/src/analytics-runs.ts:223-250 | pooled and account scopes never touch each other's runs |
| Publication.FailureChangesNothingVisible | packages/db/src/analytics-runs.ts:196-221 | a refused or aborted activation changes nothing but its own building run |
| Publication.StaleActivationRefines | packages/db/src/analytics-runs.ts:223-250 | an activation whose read of the active run is out of date does what a current one would, or aborts |
| Publication.SeenStays | packages/db/src/analytics-runs.ts:223-240 | a run read as active stays one that may be superseded, whatever happens before the write |
| Publication.StaleLookupRefines | packages/db/src/feature-statistics.ts:320-344 | a store whose lookup lies further back does what one that looks now would, or nothing when another run wrote the row in between |
| Publication.ScopeKeepsServing | packages/db/src/analytics-runs.ts:282-297 | once a scope has published it keeps exactly one active run, whatever fails |
| PublicationGuarantees.CountMeansComplete | packages/db/src/analytics-runs.ts:205-221 | the membership count equals the number of keys exactly when every key is published |
| PublicationGuarantees.ActivationMeansComplete | packages/db/src/analytics-runs.ts:174-250 | however a family is walked, activation goes through exactly when every entry is published and the inputs match |
| PublicationGuarantees.ReadersFindOneCompleteSet | packages/db/src/analytics-runs.ts:205-250 | once a scope has published, readers find exactly one active run in it and that run publishes everything it calculates, whatever happens afterwards |
| PublicationGuarantees.WalkPublishes | packages/db/src/feature-statistics.ts:307-450 | a walk publishes every entry, changes no stored row and no other run |
| PublicationGuarantees.RewalkConverges | packages/db/src/feature-statistics.ts:452-468 | a walk that stopped anywhere and starts again ends where an uninterrupted one ends |
| PublicationGuarantees.NoChangeIsLost | packages/db/src/analytics-runs.ts:252-274 | when activations present the inputs as they stand, a stale account is dirty and due no later than five minutes after its first unprocessed change |
| PublicationGuarantees.DueAfterFirstChange | packages/db/src/analytics-runs.ts:44-62 | when they also name the current marker, it is due exactly five minutes after that change |
| PublicationGuarantees.FreshWorkspace | packages/db/src/analytics-runs.ts:44-62 | a workspace without runs and with clean accounts meets what these results ask for |
| PublicationGuarantees.OwnFingerprintIsExact | apps/worker/src/analytics/recalculate-handler.ts:396-406 | an activation that presents its run's own inputs loses no change exactly when these are current or another marker stands |
| PublicationGuarantees.MarkerAloneLosesChange | apps/worker/src/analytics/recalculate-handler.ts:396-406 | a run that leaves an account stale and clean |
| AnalyticsStore.AnalyticsTables.constructor | packages/db/src/analytics-runs.ts:121-155 | tables without runs are sound |
| AnalyticsStore.AnalyticsTables.MarkAnalyticsDirty | packages/db/src/analytics-runs.ts:44-62 | only a clean account gets a marker |
| AnalyticsStore.AnalyticsTables.StartAnalyticsRun | packages/db/src/analytics-runs.ts:121-155 | adds a building run |
| AnalyticsStore.AnalyticsTables.ActivateAnalyticsRun | packages/db/src/analytics-runs.ts:174-280 | activates, refuses or aborts as specified and keeps one active run per scope whatever it is given |
| AnalyticsStore.AnalyticsTables.FailAnalyticsRun | packages/db/src/analytics-runs.ts:288-297 | only a building run fails |
| AnalyticsStore.AnalyticsTables.PublishInRun | packages/db/src/feature-statistics.ts:458-468 | adds one membership, once |
| AnalyticsStore.AnalyticsTables.StoreAfterLookup | packages/db/src/feature-statistics.ts:337-446 | publishes the row that was found or inserts one, which fails when the key has been taken since |
| AnalyticsStore.AnalyticsTables.StoreFeatureStatistics | packages/db/src/feature-statistics.ts:307-450 | the loop is the specified walk; stored and skipped add up, and as many rows are new as were stored |
| AnalyticsStore.AnalyticsTables.RecalculateFamily | apps/worker/src/analytics/recalculate-handler.ts:379-393 | calculating and storing a family publishes all of it and keeps the cache honest |
| AnalyticsStore.AnalyticsTables.Recalculate | apps/worker/src/analytics/recalculate-handler.ts:358-406 | a whole recalculation with nothing in between publishes every question and activates its run |
| SnapshotSelection.ChosenIsLeast | packages/domain/src/analytics-cohorts.ts:278-312 | the chosen snapshot precedes every other eligible one |
| SnapshotSelection.ChosenIsClosest | packages/domain/src/analytics-cohorts.ts:303-311 | in a window with a target the choice is closest to it, then youngest, then captured first, then of smaller identifier |
| SnapshotSelection.ChosenIsMostMature | packages/domain/src/analytics-cohorts.ts:292-301 | in a window without one it is the oldest, then captured first |
| SnapshotSelection.WindowsAre | packages/domain/src/analytics-cohorts.ts:50-114 | the edges and targets of the windows and their order of maturity |
| SnapshotSelection.SelectionIgnoresOrder | packages/domain/src/analytics-cohorts.ts:278-312 | the choice depends only on which candidates there are |
| SnapshotSelection.LifetimeAgreesWithMature | packages/domain/src/analytics-cohorts.ts:292-301 | a post with a mature snapshot gets the same one when all are read |
| SnapshotSelection.SelectComparableSnapshots | packages/domain/src/analytics-cohorts.ts:321-341 | the loops give each post its choice and omit posts without one |
| WindowSelection.SelectionIgnoresOrder | packages/domain/src/analytics-cohorts.ts:175-221 | the window depends only on which candidates there are |
| WindowSelection.LifetimeOnlyWhenItSeesMore | packages/domain/src/analytics-cohorts.ts:195-210 | all observations are read together exactly when no matched window can compare and all see strictly fewer posts |
| WindowSelection.MaturityLeadsWhenCovered | packages/domain/src/analytics-cohorts.ts:187-193 | past the coverage floor the most mature matched window wins; nothing is chosen exactly when nothing is measured |
| WindowSelection.WidestOtherwise | packages/domain/src/analytics-cohorts.ts:195-221 | short of the coverage floor a matched window that is chosen has the most posts |
| AnalyticsInputs.MeasureAnalyticsInputs | packages/db/src/analytics-features.ts:224-299 | the loop measures exactly the analysed posts whose chosen snapshot has a metric, in their order |
| AnalyticsInputs.MeasuredExactly | packages/db/src/analytics-features.ts:224-299 | a measured post is an analysed one with its own identifiers, account, day and features, and the metrics of its chosen snapshot |
| AnalyticsInputs.LifetimeIncludesMature | packages/db/src/analytics-features.ts:224-299 | every post measured among mature snapshots is measured the same way among all |
| AnalyticsInputs.LoadBestAnalyticsInputs | packages/db/src/analytics-features.ts:339-380 | returns the inputs of the chosen window, which was offered, or nothing when none measures anything |
| AnalyticsInputs.FallbackSeesMore | packages/db/src/analytics-features.ts:364-375 | all observations are read together exactly when that measures something and every offered matched window measures fewer than eight posts and fewer than that |
| AnalyticsInputs.CoveredWindowWins | packages/db/src/analytics-features.ts:364-375 | when a matched window measures twenty posts, a matched window at least as mature is chosen |
| AnalyticsInputs.WidestShortOfCoverage | packages/db/src/analytics-features.ts:364-375 | short of twenty posts in every matched window, a matched window that is chosen measures the most |
| Cohorts.EveryVideoOnce | packages/db/src/analytics-cohorts.ts:107-118 | every video is kept exactly once, through its first copy |
| Cohorts.DistinctVideosStay | packages/db/src/analytics-cohorts.ts:107-118 | nothing else is dropped |
| Cohorts.DedupeCollaboratorPosts | packages/db/src/analytics-cohorts.ts:107-118 | the loop keeps the first copies |
| Cohorts.MembersExactly | packages/db/src/analytics-cohorts.ts:201-260 | a member is a post of the cohort with the value of its chosen snapshot |
| Cohorts.LoadCohort | packages/db/src/analytics-cohorts.ts:201-260 | with a value, without the metric and without a snapshot add up to the eligible posts |
| Cohorts.RatioIsShareWithoutValue | packages/domain/src/analytics-cohorts.ts:508-525 | the missing ratio is the share of eligible posts without a value, between 0 and 1 |
| FeatureRequests.BuildFeatureRequests | packages/db/src/analytics-features.ts:391-461 | each request is about one metric of the question; each candidate has the measured posts with its value in the group, those with another value in the comparison and the others counted as missing; every value of every feature in which measured posts differ is asked, for every metric |
| FeatureRequests.CandidateSides | packages/db/src/analytics-features.ts:412-440 | which post is on which side, once each, observed with its own account, identifiers, day and metric value |
| FeatureRequests.RequestsAreExact | packages/db/src/analytics-features.ts:391-461 | what is asked, and that nothing that differs is left out |
| FeatureRequests.CandidateConserves | packages/db/src/analytics-features.ts:412-440 | group, comparison and missing posts make up the measured posts |
| FeatureRequests.BothSidesInhabited | packages/db/src/analytics-features.ts:417-420 | neither side of a candidate is empty |
| FeatureRequests.ExpectedCountsKeys | apps/worker/src/analytics/recalculate-handler.ts:358-362 | a run expects exactly as many statistics as it has different keys |
| IsoWeek.IsoWeekLabel | packages/db/src/feature-statistics.ts:81-89 | the date arithmetic gives the label's text |
| IsoWeek.LabelSeparatesWeeks | packages/db/src/feature-statistics.ts:81-89 | two dates share a label exactly when the dates they are read as share a Monday-to-Sunday week |
| IsoWeek.LabelIsExact | packages/db/src/feature-statistics.ts:81-89 | outside the years 0 to 99 that is the dates' own week |
| IsoWeek.TwoDigitYearsCollide | packages/db/src/feature-statistics.ts:82-82 | every date in the years 0 to 99 shares its label with a date in another week |
| IsoWeek.LabelIsCalendarWeek | packages/db/src/feature-statistics.ts:83-88 | year and number are those of section 4.1.4 of ISO 8601:2004 exactly when neither the date nor its Thursday is in the years 0 to 99 |
| IsoWeek.RenderIsInjective | packages/db/src/feature-statistics.ts:88-88 | the text determines year and week |
| IsoWeek.LabelsCountWeeks | packages/db/src/feature-statistics.ts:229-231 | counting distinct texts counts the calendar weeks of the dates as they are read |

## Left out

- The reconciler's result sweep, missing-outbox repair, committed-result repair and flagging are functions and lemmas on values, not methods of the class: on consistent tables they have nothing to write, except the false conflict that `FalseConflictHappens` describes.
- Stage advances after a cancellation request, error text, started and queued times, correlation ids, telemetry and audit text: plumbing around the protocol.
- Validation of options (positive lease durations and batch sizes): the transactions are stated for any value.
- Fairness and latency of the sweeps: the queries have no order, so repair steps are shown to be enabled and to succeed, not to be scheduled.
- The hour of a date, the bytes of JSON and SHA-256, floating-point rounding and infinities.
- Individual metric formulas and feature readers: a snapshot's metrics and an analysis's features are given maps.
- The marker that the recalculation job clears when no post is eligible: it follows the same marker comparison as activation.
- Cohort fingerprints, baselines of single posts, duration bands, read projections, web and worker wiring, credentials, Instagram and Gemini transport: single-pass code with easy members.
- SnapshotSelection.SelectComparableSnapshots: the result is a map, so the order in which the map of selectComparableSnapshots iterates over posts is not modelled.
- JobServices.ReconcileBackgroundJobs: the three repairing sweeps with no other participant in between; the result sweep is covered by `SweepUnderInterference`, and the repairs under interference by `JobInterleaving`.
- JobServices.RunIdempotentJobHandler: the exit of a handler that finds a cancellation request needs another participant and is not reached here; the method states the run of one delivery with no other transaction in between; what interference does to its reads and writes is stated by the lemmas of `JobRefinement` and `JobInterleaving`.
- AnalyticsStore.AnalyticsTables.Recalculate: the same for one recalculation; interleavings are the subject of `Publication` and `PublicationGuarantees`.
