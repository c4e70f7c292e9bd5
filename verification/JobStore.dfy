/**
 The rows the job protocol shares: jobs, their attempts, their outbox rows, committed results and
 operator audit events, together with the consistency condition every reachable store satisfies.

 Ids stand for UUIDs and times for milliseconds. Attempts are keyed by their unique lease id and outbox
 rows by their unique job id. Two components are history, not tables: `claims` remembers what each claim
 returned to its worker, and `issued` remembers every lease id that has been handed out.
 */
module JobStore {
  import opened Options
  import opened JobLifecycle

  type Id = int
  type Time = int

  datatype AttemptState = Active | AttemptSucceeded | AttemptRetryScheduled | AttemptFailed | LeaseExpired | AttemptCancelled

  datatype DispatchStatus = Pending | Dispatched | DispatchCancelled

  datatype FlagCode = SucceededResultMissing | TerminalResultConflict

  datatype Job = Job(
    workspaceId: Id, key: Id, payload: Id, createdAt: Time,
    state: JobState, stage: string, dispatchStatus: DispatchStatus,
    attemptCount: int, maxAttempts: int, version: int,
    leaseId: Option<Id>, leaseExpiresAt: Option<Time>, heartbeatAt: Option<Time>,
    nextAttemptAt: Option<Time>, completedAt: Option<Time>,
    cancellationRequestedAt: Option<Time>, reconciliationCode: Option<FlagCode>)

  datatype Attempt = Attempt(
    workspaceId: Id, jobId: Id, number: int, state: AttemptState, stage: string,
    heartbeatAt: Time, completedAt: Option<Time>, nextAttemptAt: Option<Time>)

  datatype Outbox = Outbox(
    nextAttemptAt: Time, dispatchAttempts: nat,
    leaseId: Option<Id>, leaseExpiresAt: Option<Time>,
    dispatchedAt: Option<Time>, deliveryId: Option<Id>, cancelledAt: Option<Time>)

  /** What a successful claim hands to its worker. */
  datatype Claim = Claim(jobId: Id, attemptNumber: int, maxAttempts: int, jobCreatedAt: Time)

  datatype Action = CancelAction | RetryAction

  datatype Outcome = AlreadyApplied | CancellationRequested | JobCancelled | NotFound | RateLimited | Refused | RetryQueued

  datatype Reason =
    | CancellationAlreadyApplied | JobStateChanged | StageNotCancellable | JobTerminal | JobNotFound
    | AdminRequired | OperatorNotAuthorised | OperatorRateLimited | RetryAlreadyQueued | JobNotFailedAttention
    | ReconciliationRequired | ResultAlreadyExists | PrerequisiteMissing | AttemptLimitReached
    | Given(code: string)

  datatype AuditEvent = AuditEvent(
    action: Action, actor: Id, workspaceId: Id, occurredAt: Time, outcome: Outcome, reason: Reason, jobId: Id)

  datatype Store = Store(
    jobs: map<Id, Job>, attempts: map<Id, Attempt>, outboxes: map<Id, Outbox>,
    results: multiset<Id>, audit: seq<AuditEvent>,
    claims: map<Id, Claim>, issued: set<Id>)

  const EmptyStore := Store(map[], map[], map[], multiset{}, [], map[], {})

  const MAX_ATTEMPTS_LIMIT := 100
  const DELIVERY_EXPIRY_MS := 900_000

  // ----- Row conditions -----

  /** The dispatch status is a summary of the outbox row. */
  function DispatchStatusOf(box: Outbox): DispatchStatus
  {
    if box.cancelledAt.Some? then DispatchCancelled
    else if box.dispatchedAt.Some? then Dispatched
    else Pending
  }

  /** The CHECK constraints on an outbox row. */
  predicate OutboxShape(box: Outbox)
  {
    && (box.leaseId.Some? <==> box.leaseExpiresAt.Some?)
    && (box.dispatchedAt.Some? <==> box.deliveryId.Some?)
    && (box.dispatchedAt.Some? ==> box.leaseId.None?)
    && (box.cancelledAt.Some? ==> box.leaseId.None?)
  }

  /** The CHECK constraints on a job row: attempts, lease shape and timing shape. */
  predicate JobShape(job: Job)
  {
    && 0 <= job.attemptCount <= job.maxAttempts
    && 1 <= job.maxAttempts <= MAX_ATTEMPTS_LIMIT
    && 0 < job.version
    && (job.state == Processing <==> job.leaseId.Some?)
    && (job.state == Processing <==> job.leaseExpiresAt.Some?)
    && (job.state == Processing ==> job.heartbeatAt.Some?)
    && (job.state == RetryScheduled <==> job.nextAttemptAt.Some?)
    && (IsTerminal(job.state) <==> job.completedAt.Some?)
  }

  /** The CHECK constraints on an attempt row. */
  predicate AttemptShape(a: Attempt)
  {
    && 0 < a.number
    && (a.state == Active <==> a.completedAt.None?)
    && (a.state == AttemptRetryScheduled <==> a.nextAttemptAt.Some?)
  }

  /** The one way a job row and its outbox row can disagree: a recovery that gave up wrote back the status it
      had read before the delivery was marked. */
  predicate Drifted(job: Job, box: Outbox)
  {
    job.state == FailedAttention && job.dispatchStatus == Pending && DispatchStatusOf(box) == Dispatched
  }

  /** What ties a job row to its outbox row and to the number of results committed for it. */
  predicate RowsAgree(job: Job, box: Outbox, commits: nat)
  {
    && (job.state == Queued || job.state == RetryScheduled ==> job.attemptCount < job.maxAttempts)
    && (job.cancellationRequestedAt.Some? <==> box.cancelledAt.Some?)
    && (job.cancellationRequestedAt.Some? ==> job.state == Processing || job.state == Cancelled)
    && (job.state == Cancelled ==> job.cancellationRequestedAt.Some?)
    && (job.dispatchStatus == DispatchStatusOf(box) || Drifted(job, box))
    && commits == (if job.state == Succeeded then 1 else 0)
  }

  /** The row is unchanged, or its delivery has been marked since. */
  predicate SameButMark(a: Job, b: Job)
  {
    b == a || (a.dispatchStatus == Pending && b == a.(dispatchStatus := Dispatched))
  }

  /** What a transaction may rely on about a row it read earlier: the version moves with every change of the
      row but the dispatch mark. */
  predicate Remembered(s: Store, j: Id, seen: Job)
  {
    && j in s.jobs && s.jobs[j].workspaceId == seen.workspaceId && seen.version <= s.jobs[j].version
    && (seen.version == s.jobs[j].version ==> SameButMark(seen, s.jobs[j]))
  }

  predicate JobConsistent(s: Store, j: Id)
    requires j in s.jobs
  {
    && j in s.outboxes
    && JobShape(s.jobs[j]) && OutboxShape(s.outboxes[j])
    && RowsAgree(s.jobs[j], s.outboxes[j], s.results[j])
    && (s.outboxes[j].leaseId.Some? ==> s.outboxes[j].leaseId.value in s.issued)
    && (s.jobs[j].leaseId.Some? ==> HeldBy(s, j, s.jobs[j].leaseId.value))
  }

  /** Lease `l` belongs to the active attempt of job `j`, which is the latest one. */
  predicate HeldBy(s: Store, j: Id, l: Id)
    requires j in s.jobs
  {
    && l in s.attempts && l in s.claims
    && s.attempts[l].state == Active
    && s.attempts[l].jobId == j
    && s.attempts[l].number == s.jobs[j].attemptCount
    && s.claims[l] == Claim(j, s.jobs[j].attemptCount, s.jobs[j].maxAttempts, s.jobs[j].createdAt)
  }

  predicate AttemptConsistent(s: Store, l: Id)
    requires l in s.attempts
  {
    var a := s.attempts[l];
    && AttemptShape(a)
    && l in s.issued
    && a.jobId in s.jobs
    && a.workspaceId == s.jobs[a.jobId].workspaceId
    && a.number <= s.jobs[a.jobId].attemptCount
    && (a.state == Active ==> s.jobs[a.jobId].leaseId == Some(l))
  }

  predicate IsAttempt(s: Store, l: Id, j: Id, n: int)
  {
    l in s.attempts && s.attempts[l].jobId == j && s.attempts[l].number == n
  }

  ghost predicate HasNumber(s: Store, j: Id, n: int)
  {
    exists l :: IsAttempt(s, l, j, n)
  }

  /** The attempts of job `j` carry each of the numbers 1..attemptCount exactly once. */
  ghost predicate Numbered(s: Store, j: Id)
    requires j in s.jobs
  {
    && (forall n :: 1 <= n <= s.jobs[j].attemptCount ==> HasNumber(s, j, n))
    && (forall l, m, n :: IsAttempt(s, l, j, n) && IsAttempt(s, m, j, n) ==> l == m)
  }

  /** The consistency condition of the protocol. */
  ghost predicate Consistent(s: Store)
  {
    && s.outboxes.Keys == s.jobs.Keys
    && (forall j | j in s.jobs :: JobConsistent(s, j))
    && (forall l | l in s.attempts :: AttemptConsistent(s, l))
    && (forall j | j in s.jobs :: Numbered(s, j))
    && (forall j | j in s.results :: j in s.jobs)
    && (forall i, j | i in s.jobs && j in s.jobs && s.jobs[i].workspaceId == s.jobs[j].workspaceId
          && s.jobs[i].key == s.jobs[j].key :: i == j)
  }
}
