/**
 Every transaction of the protocol as a function from store to store. A transaction that finds nothing to
 do, or that rolls back, returns the store it was given.

 A transaction that reads a row and then writes under a version guard is given in two halves: the `...Write`
 function takes the row `seen` by the read, and the whole transaction writes with the current row.
 */
module JobTransactions {
  import opened Options
  import opened JobLifecycle
  import opened JobRetry
  import opened JobStore

  predicate Owned(s: Store, workspace: Id, j: Id)
  {
    j in s.jobs && s.jobs[j].workspaceId == workspace
  }

  // ----- Enqueueing -----

  const FreshOutbox := (now: Time) => Outbox(now, 0, None, None, None, None, None)

  /** The jobs standing under one idempotency key. */
  function WithKey(s: Store, workspace: Id, key: Id): set<Id>
  {
    set j | j in s.jobs && s.jobs[j].workspaceId == workspace && s.jobs[j].key == key
  }

  function NewJob(workspace: Id, key: Id, payload: Id, maxAttempts: int, now: Time): Job
  {
    Job(workspace, key, payload, now, Queued, "queued", Pending, 0, maxAttempts, 1,
        None, None, None, None, None, None, None)
  }

  /** Inserts the job and its outbox row unless the key is taken; a taken key changes nothing, whether it
      stands for the same work or for different work (which enqueueBackgroundJobInTransaction refuses). */
  function Enqueue(s: Store, j: Id, workspace: Id, key: Id, payload: Id, maxAttempts: int, now: Time): Store
  {
    if !(1 <= maxAttempts <= MAX_ATTEMPTS_LIMIT) then s
    else if WithKey(s, workspace, key) == {} then
      s.(jobs := s.jobs[j := NewJob(workspace, key, payload, maxAttempts, now)],
         outboxes := s.outboxes[j := FreshOutbox(now)])
    else if exists i | i in WithKey(s, workspace, key) :: s.jobs[i].payload != payload then s
    else
      s.(outboxes := (map i | i in WithKey(s, workspace, key) && i !in s.outboxes :: FreshOutbox(now)) + s.outboxes)
  }

  // ----- Outbox dispatch -----

  predicate Leasable(box: Outbox, now: Time)
  {
    && box.dispatchedAt.None? && box.cancelledAt.None?
    && box.nextAttemptAt <= now
    && (box.leaseExpiresAt.None? || box.leaseExpiresAt.value <= now)
  }

  /** Leases any chosen part of the rows that are due; which part is left to locking and the batch limit. */
  function LeaseOutbox(s: Store, chosen: set<Id>, lease: Id, now: Time, leaseMs: int): Store
  {
    s.(outboxes := map j | j in s.outboxes ::
         if j in chosen && Leasable(s.outboxes[j], now)
         then LeasedBox(s.outboxes[j], lease, now, leaseMs)
         else s.outboxes[j],
       issued := s.issued + {lease})
  }

  predicate OutboxLeasedBy(s: Store, j: Id, lease: Id)
  {
    && j in s.outboxes && s.outboxes[j].leaseId == Some(lease)
    && s.outboxes[j].dispatchedAt.None? && s.outboxes[j].cancelledAt.None?
  }

  function LeasedBox(box: Outbox, lease: Id, now: Time, leaseMs: int): Outbox
  {
    box.(leaseId := Some(lease), leaseExpiresAt := Some(now + leaseMs), dispatchAttempts := box.dispatchAttempts + 1)
  }

  function MarkedBox(box: Outbox, delivery: Id, at: Time): Outbox
  {
    box.(dispatchedAt := Some(at), leaseExpiresAt := None, leaseId := None, deliveryId := Some(delivery))
  }

  function ReleasedBox(box: Outbox, retryAt: Time): Outbox
  {
    box.(leaseExpiresAt := None, leaseId := None, nextAttemptAt := retryAt)
  }

  function CancelledBox(box: Outbox, now: Time): Outbox
  {
    box.(cancelledAt := Some(now), leaseExpiresAt := None, leaseId := None)
  }

  function ResetBox(box: Outbox, now: Time): Outbox
  {
    box.(cancelledAt := None, dispatchedAt := None, leaseExpiresAt := None, leaseId := None, nextAttemptAt := now, deliveryId := None)
  }

  function MarkDispatched(s: Store, j: Id, lease: Id, delivery: Id, at: Time): Store
  {
    if OutboxLeasedBy(s, j, lease) && j in s.jobs then
      s.(outboxes := s.outboxes[j := MarkedBox(s.outboxes[j], delivery, at)],
         jobs := s.jobs[j := s.jobs[j].(dispatchStatus := Dispatched)])
    else s
  }

  function ReleaseOutbox(s: Store, j: Id, lease: Id, retryAt: Time): Store
  {
    if OutboxLeasedBy(s, j, lease) then
      s.(outboxes := s.outboxes[j := ReleasedBox(s.outboxes[j], retryAt)])
    else s
  }

  function CancelOutbox(s: Store, j: Id, now: Time): Store
  {
    if j in s.outboxes then
      s.(outboxes := s.outboxes[j := CancelledBox(s.outboxes[j], now)])
    else s
  }

  /** The upsert that asks for a fresh delivery. */
  function ResetOutbox(s: Store, j: Id, now: Time): Store
  {
    s.(outboxes := s.outboxes[j := if j in s.outboxes then ResetBox(s.outboxes[j], now) else FreshOutbox(now)])
  }

  // ----- Claiming and holding a lease -----

  predicate Claimable(job: Job)
  {
    job.state == Queued && job.attemptCount < job.maxAttempts
  }

  function ClaimedRow(cur: Job, lease: Id, now: Time, leaseMs: int): Job
  {
    cur.(attemptCount := cur.attemptCount + 1, heartbeatAt := Some(now), leaseExpiresAt := Some(now + leaseMs),
         leaseId := Some(lease), stage := "starting", state := Processing, version := cur.version + 1)
  }

  function NewAttempt(seen: Job, j: Id, now: Time): Attempt
  {
    Attempt(seen.workspaceId, j, seen.attemptCount + 1, Active, "starting", now, None, None)
  }

  function ClaimWrite(s: Store, j: Id, seen: Job, lease: Id, now: Time, leaseMs: int): Store
  {
    if j in s.jobs && s.jobs[j].state == Queued && s.jobs[j].version == seen.version
       && s.jobs[j].attemptCount < seen.maxAttempts && s.jobs[j].workspaceId == seen.workspaceId
    then
      s.(jobs := s.jobs[j := ClaimedRow(s.jobs[j], lease, now, leaseMs)],
         attempts := s.attempts[lease := NewAttempt(seen, j, now)],
         claims := s.claims[lease := Claim(j, seen.attemptCount + 1, seen.maxAttempts, seen.createdAt)],
         issued := s.issued + {lease})
    else s
  }

  function ClaimJob(s: Store, workspace: Id, j: Id, lease: Id, now: Time, leaseMs: int): Store
  {
    if Owned(s, workspace, j) && Claimable(s.jobs[j]) then ClaimWrite(s, j, s.jobs[j], lease, now, leaseMs) else s
  }

  /** The guard every write by a lease holder carries. */
  predicate Holds(s: Store, workspace: Id, j: Id, lease: Id)
  {
    Owned(s, workspace, j) && s.jobs[j].leaseId == Some(lease) && s.jobs[j].state == Processing
  }

  predicate HasActiveAttempt(s: Store, lease: Id)
  {
    lease in s.attempts && s.attempts[lease].state == Active
  }

  function TouchedRow(job: Job, at: Time, expires: Option<Time>, stage: Option<string>): Job
  {
    job.(heartbeatAt := Some(at), version := job.version + 1,
         leaseExpiresAt := if expires.Some? then expires else job.leaseExpiresAt,
         stage := if stage.Some? then stage.value else job.stage)
  }

  function TouchedAttempt(a: Attempt, at: Time, stage: Option<string>): Attempt
  {
    a.(heartbeatAt := at, stage := if stage.Some? then stage.value else a.stage)
  }

  /** Heartbeats extend the lease; stage records do not. Both roll back unless job and attempt are live. */
  function TouchLease(s: Store, workspace: Id, j: Id, lease: Id, at: Time, expires: Option<Time>, stage: Option<string>): Store
  {
    if Holds(s, workspace, j, lease) && HasActiveAttempt(s, lease) && s.attempts[lease].workspaceId == workspace then
      s.(jobs := s.jobs[j := TouchedRow(s.jobs[j], at, expires, stage)],
         attempts := s.attempts[lease := TouchedAttempt(s.attempts[lease], at, stage)])
    else s
  }

  function Heartbeat(s: Store, workspace: Id, j: Id, lease: Id, at: Time, leaseMs: int): Store
  {
    TouchLease(s, workspace, j, lease, at, Some(at + leaseMs), None)
  }

  function RecordStage(s: Store, workspace: Id, j: Id, lease: Id, stage: string, at: Time): Store
  {
    if IsSafeStage(stage) then TouchLease(s, workspace, j, lease, at, None, Some(stage)) else s
  }

  /** A holder that ends its attempt names the last stage; a recovery leaves stage and heartbeat as they were. */
  function ClosedAttempt(a: Attempt, state: AttemptState, now: Time, retryAt: Option<Time>, stage: Option<string>): Attempt
  {
    a.(state := state, completedAt := Some(now), nextAttemptAt := retryAt, heartbeatAt := if stage.Some? then now else a.heartbeatAt,
       stage := if stage.Some? then stage.value else a.stage)
  }

  function CloseAttempt(s: Store, lease: Id, state: AttemptState, now: Time, retryAt: Option<Time>, stage: Option<string>): Store
  {
    if lease in s.attempts then
      s.(attempts := s.attempts[lease := ClosedAttempt(s.attempts[lease], state, now, retryAt, stage)])
    else s
  }

  /** The row of a job whose holder honours a cancellation request. */
  function HonouredRow(cur: Job, at: Time): Job
  {
    cur.(completedAt := Some(at), dispatchStatus := DispatchCancelled, heartbeatAt := Some(at), leaseExpiresAt := None,
         leaseId := None, nextAttemptAt := None, reconciliationCode := None, stage := "cancelled", state := Cancelled,
         version := cur.version + 1)
  }

  function CancellationWrite(s: Store, j: Id, seen: Job, lease: Id, at: Time): Store
  {
    if j in s.jobs && s.jobs[j].cancellationRequestedAt.Some? && s.jobs[j].leaseId == Some(lease)
       && s.jobs[j].state == Processing && s.jobs[j].version == seen.version
       && s.jobs[j].workspaceId == seen.workspaceId
       && HasActiveAttempt(s, lease) && s.attempts[lease].workspaceId == seen.workspaceId
    then
      CancelOutbox(CloseAttempt(s.(jobs := s.jobs[j := HonouredRow(s.jobs[j], at)]), lease, AttemptCancelled, at, None, Some("cancelled")), j, at)
    else s
  }

  /** The holder's check for a cancellation request, which honours it when there is one. */
  function HonourCancellation(s: Store, workspace: Id, j: Id, lease: Id, at: Time): Store
  {
    if Holds(s, workspace, j, lease) && s.jobs[j].cancellationRequestedAt.Some?
    then CancellationWrite(s, j, s.jobs[j], lease, at) else s
  }

  predicate MayCommit(s: Store, workspace: Id, j: Id, lease: Id)
  {
    Holds(s, workspace, j, lease) && s.jobs[j].cancellationRequestedAt.None? && HasActiveAttempt(s, lease)
  }

  function SucceededRow(job: Job, at: Time): Job
  {
    job.(completedAt := Some(at), heartbeatAt := Some(at), leaseExpiresAt := None, leaseId := None, stage := "completed",
         state := Succeeded, version := job.version + 1)
  }

  function CommitSuccess(s: Store, workspace: Id, j: Id, lease: Id, at: Time): Store
  {
    if MayCommit(s, workspace, j, lease) then
      CloseAttempt(s.(jobs := s.jobs[j := SucceededRow(s.jobs[j], at)], results := s.results + multiset{j}),
                   lease, AttemptSucceeded, at, None, Some("completed"))
    else s
  }

  function RetryTime(decision: Decision): Option<Time>
  {
    if decision.Retry? then Some(decision.nextAttemptAt) else None
  }

  function FailedStage(decision: Decision): string
  {
    if decision.Retry? then "retry_scheduled" else "failed_attention"
  }

  function FailedRow(job: Job, decision: Decision, at: Time): Job
  {
    job.(completedAt := if decision.Retry? then None else Some(at), heartbeatAt := Some(at),
         leaseExpiresAt := None, leaseId := None, nextAttemptAt := RetryTime(decision),
         stage := FailedStage(decision),
         state := if decision.Retry? then RetryScheduled else FailedAttention,
         version := job.version + 1)
  }

  function CommitFailure(s: Store, workspace: Id, j: Id, lease: Id, decision: Decision, at: Time): Store
  {
    if MayCommit(s, workspace, j, lease) then
      CloseAttempt(s.(jobs := s.jobs[j := FailedRow(s.jobs[j], decision, at)]), lease,
                   if decision.Retry? then AttemptRetryScheduled else AttemptFailed, at, RetryTime(decision), Some(FailedStage(decision)))
    else s
  }

  /** The failure path of a worker: decide from what its claim returned, then commit. */
  function SettleFailure(s: Store, workspace: Id, j: Id, lease: Id, failure: Failure, random: real, at: Time): Store
  {
    if lease in s.claims && s.claims[lease].jobId == j then
      var c := s.claims[lease];
      CommitFailure(s, workspace, j, lease,
                    DecideJobRetry(c.attemptNumber, c.maxAttempts, failure, c.jobCreatedAt, at, random), at)
    else s
  }

  // ----- Retry release and recovery -----

  predicate RetryDue(job: Job, now: Time)
  {
    job.state == RetryScheduled && job.nextAttemptAt.Some? && job.nextAttemptAt.value <= now
  }

  function ReleasedRow(job: Job): Job
  {
    job.(nextAttemptAt := None, stage := "queued", state := Queued, version := job.version + 1)
  }

  /** The release a delivery performs: unlike the reconciler's requeue it does not touch the outbox. */
  function MakeRetryDue(s: Store, workspace: Id, j: Id, now: Time): Store
  {
    if Owned(s, workspace, j) && RetryDue(s.jobs[j], now) then
      s.(jobs := s.jobs[j := ReleasedRow(s.jobs[j])])
    else s
  }

  predicate LeaseLapsed(job: Job, now: Time)
  {
    job.state == Processing && job.leaseId.Some? && job.leaseExpiresAt.Some? && job.leaseExpiresAt.value <= now
  }

  function RecoveredState(seen: Job): JobState
  {
    if seen.cancellationRequestedAt.Some? then Cancelled
    else if seen.attemptCount >= seen.maxAttempts then FailedAttention
    else Queued
  }

  /** The row a recovery writes over the current row, computed from the row it read. */
  function RecoveredRow(cur: Job, seen: Job, now: Time): Job
  {
    var next := RecoveredState(seen);
    cur.(completedAt := if next == Queued then None else Some(now),
         dispatchStatus := if next == Cancelled then DispatchCancelled else if next == Queued then Pending else seen.dispatchStatus,
         leaseExpiresAt := None, leaseId := None,
         stage := if next == Cancelled then "cancelled" else if next == FailedAttention then "failed_attention" else "queued",
         state := next, version := cur.version + 1)
  }

  function RecoverWrite(s: Store, j: Id, seen: Job, now: Time): Store
  {
    if j in s.jobs && LeaseLapsed(s.jobs[j], now) && s.jobs[j].leaseId == seen.leaseId
       && s.jobs[j].version == seen.version && s.jobs[j].workspaceId == seen.workspaceId
       && HasActiveAttempt(s, s.jobs[j].leaseId.value)
    then
      var lease := s.jobs[j].leaseId.value;
      var next := RecoveredState(seen);
      var moved := CloseAttempt(s.(jobs := s.jobs[j := RecoveredRow(s.jobs[j], seen, now)]), lease,
                                if next == Cancelled then AttemptCancelled else LeaseExpired, now, None, None);
      if next == Cancelled then CancelOutbox(moved, j, now)
      else if next == Queued && j in s.outboxes && s.outboxes[j].cancelledAt.None? then ResetOutbox(moved, j, now)
      else moved
    else s
  }

  function RecoverLease(s: Store, workspace: Id, j: Id, now: Time): Store
  {
    if Owned(s, workspace, j) && LeaseLapsed(s.jobs[j], now) then RecoverWrite(s, j, s.jobs[j], now) else s
  }

  // ----- Reconciliation -----

  function RequeueRetryWrite(s: Store, j: Id, seen: Job, now: Time): Store
  {
    if j in s.jobs && RetryDue(s.jobs[j], now) && s.jobs[j].version == seen.version then
      ResetOutbox(s.(jobs := s.jobs[j := ReleasedRow(s.jobs[j]).(dispatchStatus := Pending)]), j, now)
    else s
  }

  function RequeueDueRetry(s: Store, workspace: Id, j: Id, now: Time): Store
  {
    if Owned(s, workspace, j) && RetryDue(s.jobs[j], now) then RequeueRetryWrite(s, j, s.jobs[j], now) else s
  }

  /** The read of the stranded-delivery repair; the age bound is in the sweep, not here. */
  predicate Stranded(s: Store, j: Id)
  {
    && j in s.jobs && s.jobs[j].leaseId.None? && s.jobs[j].state == Queued
    && j in s.outboxes && s.outboxes[j].cancelledAt.None? && s.outboxes[j].dispatchedAt.Some?
  }

  function RequeueStrandedWrite(s: Store, j: Id, seen: Job, now: Time): Store
  {
    if j in s.jobs && s.jobs[j].version == seen.version && s.jobs[j].workspaceId == seen.workspaceId then
      var cur := s.jobs[j];
      ResetOutbox(s.(jobs := s.jobs[j := cur.(dispatchStatus := Pending, version := cur.version + 1)]), j, now)
    else s
  }

  function RequeueStranded(s: Store, workspace: Id, j: Id, now: Time): Store
  {
    if Owned(s, workspace, j) && Stranded(s, j) then RequeueStrandedWrite(s, j, s.jobs[j], now) else s
  }

  function RepairMissingOutbox(s: Store, workspace: Id, j: Id, now: Time): Store
  {
    if Owned(s, workspace, j) && s.jobs[j].state == Queued && j !in s.outboxes then
      s.(outboxes := s.outboxes[j := FreshOutbox(now)])
    else s
  }

  function RepairedRow(job: Job, now: Time): Job
  {
    job.(completedAt := Some(now), heartbeatAt := Some(now), leaseExpiresAt := None, leaseId := None, nextAttemptAt := None,
         reconciliationCode := None, stage := "completed", state := Succeeded, version := job.version + 1)
  }

  /** The repair for a job whose result was seen but whose state does not say so. */
  function RepairCommittedResult(s: Store, workspace: Id, j: Id, now: Time): Store
  {
    if Owned(s, workspace, j) && s.jobs[j].cancellationRequestedAt.None? && !IsTerminal(s.jobs[j].state)
       && (s.jobs[j].leaseId.Some? ==> HasActiveAttempt(s, s.jobs[j].leaseId.value))
    then
      var job := s.jobs[j];
      var done := s.(jobs := s.jobs[j := RepairedRow(job, now)]);
      CancelOutbox(if job.leaseId.Some? then CloseAttempt(done, job.leaseId.value, AttemptSucceeded, now, None, Some("completed")) else done, j, now)
    else s
  }

  function FlagAmbiguous(s: Store, workspace: Id, j: Id, code: FlagCode): Store
  {
    if Owned(s, workspace, j) && s.jobs[j].reconciliationCode != Some(code) then
      s.(jobs := s.jobs[j := s.jobs[j].(reconciliationCode := Some(code), version := s.jobs[j].version + 1)])
    else s
  }

  // ----- Operator actions -----

  /** The operator as the guard finds it: the account row, or its absence. */
  datatype Operator = Operator(id: Id, workspaceId: Id, authorised: bool, admin: bool)

  const OPERATION_WINDOW_MS := 60_000

  function OperationLimit(action: Action): nat
  {
    match action case CancelAction => 10 case RetryAction => 5
  }

  predicate Counted(e: AuditEvent, action: Action, actor: Id, workspace: Id, since: Time)
  {
    e.action == action && e.actor == actor && e.workspaceId == workspace && e.occurredAt >= since
  }

  function CountRecent(audit: seq<AuditEvent>, action: Action, actor: Id, workspace: Id, since: Time): nat
  {
    if audit == [] then 0
    else CountRecent(audit[..|audit| - 1], action, actor, workspace, since)
         + (if Counted(audit[|audit| - 1], action, actor, workspace, since) then 1 else 0)
  }

  datatype Guard = Allowed | Denied(outcome: Outcome, reason: Reason, audited: bool)

  function Authorise(s: Store, op: Operator, action: Action, now: Time): Guard
  {
    if !op.authorised then Denied(Refused, OperatorNotAuthorised, false)
    else if !op.admin then Denied(Refused, AdminRequired, true)
    else if CountRecent(s.audit, action, op.id, op.workspaceId, now - OPERATION_WINDOW_MS) >= OperationLimit(action)
    then Denied(RateLimited, OperatorRateLimited, true)
    else Allowed
  }

  function Audited(s: Store, op: Operator, action: Action, j: Id, outcome: Outcome, reason: Reason, now: Time): Store
  {
    s.(audit := s.audit + [AuditEvent(action, op.id, op.workspaceId, now, outcome, reason, j)])
  }

  function RequestedRow(cur: Job, now: Time): Job
  {
    cur.(cancellationRequestedAt := Some(now), dispatchStatus := DispatchCancelled, version := cur.version + 1)
  }

  function CancelledRow(cur: Job, now: Time): Job
  {
    RequestedRow(cur, now).(completedAt := Some(now), nextAttemptAt := None, reconciliationCode := None,
                            stage := "cancelled", state := Cancelled)
  }

  /** The write half of a cancellation; `None` when the guarded update matched no row. */
  function CancelWrite(s: Store, j: Id, seen: Job, now: Time): Option<Store>
  {
    if j !in s.jobs || s.jobs[j].version != seen.version then None
    else
      var cur := s.jobs[j];
      if seen.state == Processing then
        if cur.cancellationRequestedAt.None? && cur.leaseId == seen.leaseId && cur.stage == seen.stage && cur.state == Processing then
          Some(CancelOutbox(s.(jobs := s.jobs[j := RequestedRow(cur, now)]), j, now))
        else None
      else if cur.state == seen.state then
        Some(CancelOutbox(s.(jobs := s.jobs[j := CancelledRow(cur, now)]), j, now))
      else None
  }

  /** What a cancellation decides from the row it reads, before any write. */
  datatype CancelPlan = Answer(outcome: Outcome, reason: Reason) | Attempted(outcome: Outcome)

  function PlanCancel(seen: Job): CancelPlan
  {
    if seen.state == Cancelled || seen.cancellationRequestedAt.Some? then Answer(AlreadyApplied, CancellationAlreadyApplied)
    else if seen.state == Queued || seen.state == RetryScheduled then Attempted(JobCancelled)
    else if seen.state == Processing then
      if IsSafeCancellationStage(seen.stage) then Attempted(CancellationRequested) else Answer(Refused, StageNotCancellable)
    else Answer(Refused, JobTerminal)
  }

  /** The write half followed by the audit record. */
  function FinishCancel(s: Store, op: Operator, j: Id, seen: Job, code: string, now: Time): Store
  {
    match PlanCancel(seen)
    case Answer(outcome, reason) => Audited(s, op, CancelAction, j, outcome, reason, now)
    case Attempted(outcome) =>
      var written := CancelWrite(s, j, seen, now);
      if written.None? then Audited(s, op, CancelAction, j, Refused, JobStateChanged, now)
      else Audited(written.value, op, CancelAction, j, outcome, Given(code), now)
  }

  function CancelJob(s: Store, op: Operator, j: Id, code: string, now: Time): Store
  {
    match Authorise(s, op, CancelAction, now)
    case Denied(outcome, reason, audited) => if audited then Audited(s, op, CancelAction, j, outcome, reason, now) else s
    case Allowed =>
      if !Owned(s, op.workspaceId, j) then Audited(s, op, CancelAction, j, NotFound, JobNotFound, now)
      else FinishCancel(s, op, j, s.jobs[j], code, now)
  }

  function RetryBudget(seen: Job): int
  {
    Max(seen.maxAttempts, seen.attemptCount + 1)
  }

  function RetriedRow(cur: Job, seen: Job): Job
  {
    cur.(cancellationRequestedAt := None, completedAt := None, dispatchStatus := Pending, maxAttempts := RetryBudget(seen),
         reconciliationCode := None, stage := "queued", state := Queued, version := cur.version + 1)
  }

  function RetryWrite(s: Store, j: Id, seen: Job, now: Time): Option<Store>
  {
    if j !in s.jobs || s.jobs[j].version != seen.version || s.jobs[j].state != FailedAttention then None
    else Some(ResetOutbox(s.(jobs := s.jobs[j := RetriedRow(s.jobs[j], seen)]), j, now))
  }

  predicate AlreadyRetried(s: Store, workspace: Id, j: Id)
  {
    exists i | 0 <= i < |s.audit| :: s.audit[i].action == RetryAction && s.audit[i].outcome == RetryQueued
                                     && s.audit[i].jobId == j && s.audit[i].workspaceId == workspace
  }

  /** Why a manual retry is refused, if it is. The prerequisite check of the queue is a parameter. */
  function RetryRefusal(s: Store, j: Id, seen: Job, prerequisiteMet: bool): Option<(Outcome, Reason)>
  {
    if seen.state == Queued then
      if AlreadyRetried(s, seen.workspaceId, j) then Some((AlreadyApplied, RetryAlreadyQueued)) else Some((Refused, JobNotFailedAttention))
    else if seen.state != FailedAttention then Some((Refused, JobNotFailedAttention))
    else if seen.reconciliationCode.Some? then Some((Refused, ReconciliationRequired))
    else if s.results[j] > 0 then Some((Refused, ResultAlreadyExists))
    else if !prerequisiteMet then Some((Refused, PrerequisiteMissing))
    else if RetryBudget(seen) > MAX_ATTEMPTS_LIMIT then Some((Refused, AttemptLimitReached))
    else None
  }

  /** The write half followed by the audit record; the refusal was decided from what was read. */
  function SettleRetry(s: Store, op: Operator, j: Id, seen: Job, refusal: Option<(Outcome, Reason)>, code: string, now: Time): Store
  {
    match refusal
    case Some((outcome, reason)) => Audited(s, op, RetryAction, j, outcome, reason, now)
    case None =>
      var written := RetryWrite(s, j, seen, now);
      if written.None? then Audited(s, op, RetryAction, j, Refused, JobStateChanged, now)
      else Audited(written.value, op, RetryAction, j, RetryQueued, Given(code), now)
  }

  function FinishRetry(s: Store, op: Operator, j: Id, seen: Job, code: string, prerequisiteMet: bool, now: Time): Store
  {
    SettleRetry(s, op, j, seen, RetryRefusal(s, j, seen, prerequisiteMet), code, now)
  }

  function RetryJob(s: Store, op: Operator, j: Id, code: string, prerequisiteMet: bool, now: Time): Store
  {
    match Authorise(s, op, RetryAction, now)
    case Denied(outcome, reason, audited) => if audited then Audited(s, op, RetryAction, j, outcome, reason, now) else s
    case Allowed =>
      if !Owned(s, op.workspaceId, j) then Audited(s, op, RetryAction, j, NotFound, JobNotFound, now)
      else FinishRetry(s, op, j, s.jobs[j], code, prerequisiteMet, now)
  }
}
