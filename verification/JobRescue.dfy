/**
 No crash strands a job. Whatever died while a job was Queued, Processing or RetryScheduled, a time computed
 from its rows passes after which one of the periodic queries lists the job and the transaction it starts
 succeeds; and those transactions lead back to a worker, or to a terminal state.
 */
module JobRescue {
  import opened Options
  import opened JobLifecycle
  import opened JobRetry
  import opened JobStore
  import opened JobTransactions
  import opened JobProtocol
  import opened JobEvolution

  // ----- The periodic queries -----

  /** The reconciler's query for lapsed leases. */
  predicate ListedAsExpired(s: Store, j: Id, now: Time)
  {
    j in s.jobs && s.jobs[j].state == Processing && s.jobs[j].leaseExpiresAt.Some? && s.jobs[j].leaseExpiresAt.value <= now
  }

  /** The reconciler's query for retries that have come due. */
  predicate ListedAsDueRetry(s: Store, j: Id, now: Time)
  {
    j in s.jobs && RetryDue(s.jobs[j], now)
  }

  /** The reconciler's query for deliveries nobody took, with its age bound. */
  predicate ListedAsStranded(s: Store, j: Id, now: Time)
  {
    Stranded(s, j) && s.outboxes[j].dispatchedAt.value <= now - DELIVERY_EXPIRY_MS
  }

  /** The dispatcher's query. */
  predicate ListedForDispatch(s: Store, j: Id, now: Time)
  {
    j in s.outboxes && Leasable(s.outboxes[j], now)
  }

  /** From this time on one of the queries lists the job. */
  function WakeTime(s: Store, j: Id): Time
    requires j in s.jobs && j in s.outboxes
  {
    var job, box := s.jobs[j], s.outboxes[j];
    match job.state
    case Processing => if job.leaseExpiresAt.Some? then job.leaseExpiresAt.value else 0
    case RetryScheduled => if job.nextAttemptAt.Some? then job.nextAttemptAt.value else 0
    case _ =>
      if box.dispatchedAt.Some? then box.dispatchedAt.value + 900_000
      else if box.leaseExpiresAt.Some? then Max(box.nextAttemptAt, box.leaseExpiresAt.value)
      else box.nextAttemptAt
  }

  /** The transaction the matching query starts. */
  function WakeStep(s: Store, j: Id, now: Time, lease: Id): Step
    requires j in s.jobs && j in s.outboxes
  {
    var w := s.jobs[j].workspaceId;
    match s.jobs[j].state
    case Processing => RecoverLeaseStep(w, j, now)
    case RetryScheduled => RequeueDueRetryStep(w, j, now)
    case _ => if s.outboxes[j].dispatchedAt.Some? then RequeueStrandedStep(w, j, now) else LeaseOutboxStep({j}, lease, now, 30_000)
  }

  /** How far a live job is from a dispatcher's hands. */
  function Distance(s: Store, j: Id): nat
    requires j in s.jobs && j in s.outboxes
  {
    if IsTerminal(s.jobs[j].state) then 0
    else if s.jobs[j].state == Processing then 4
    else if s.jobs[j].state == RetryScheduled then 3
    else if s.outboxes[j].dispatchedAt.Some? then 2
    else 1
  }

  /** The job will not be worked on again: its worker is gone and it is to be cancelled, or was on its last attempt. */
  predicate Ends(job: Job)
  {
    job.state == Processing && (job.cancellationRequestedAt.Some? || job.attemptCount == job.maxAttempts)
  }

  predicate EndsWell(job: Job, after: Job)
  {
    if job.cancellationRequestedAt.Some? then after.state == Cancelled else after.state == FailedAttention
  }

  /** The query for jobs in a given state. */
  predicate ListedInItsState(s: Store, j: Id, now: Time)
    requires j in s.jobs
  {
    match s.jobs[j].state
    case Processing => ListedAsExpired(s, j, now)
    case RetryScheduled => ListedAsDueRetry(s, j, now)
    case Queued => ListedAsStranded(s, j, now) || ListedForDispatch(s, j, now)
    case _ => false
  }

  /** A live job is listed by the query for its state from its wake time on, and not before. */
  lemma WakeTimeIsExact(s: Store, j: Id, now: Time)
    requires Consistent(s) && j in s.jobs && !IsTerminal(s.jobs[j].state)
    ensures j in s.outboxes && (ListedInItsState(s, j, now) <==> now >= WakeTime(s, j))
  {
    assert JobConsistent(s, j);
  }

  /** Every live job is listed from its wake time on, and the transaction then started succeeds: it either
      brings the job strictly closer or puts its outbox row into a dispatcher's hands. */
  lemma NoJobIsStranded(s: Store, j: Id, now: Time, lease: Id)
    requires Consistent(s) && j in s.jobs && !IsTerminal(s.jobs[j].state) && now >= WakeTime(s, j) && lease !in s.issued
    ensures ListedAsExpired(s, j, now) || ListedAsDueRetry(s, j, now) || ListedAsStranded(s, j, now) || ListedForDispatch(s, j, now)
    ensures Admissible(s, WakeStep(s, j, now, lease))
    ensures var t := Apply(s, WakeStep(s, j, now, lease));
            && j in t.jobs && j in t.outboxes
            && (Distance(t, j) < Distance(s, j) || (t.jobs[j].state == Queued && OutboxLeasedBy(t, j, lease)))
            && (if Ends(s.jobs[j]) then EndsWell(s.jobs[j], t.jobs[j]) else t.jobs[j].state == Queued)
  {
    assert JobConsistent(s, j);
    WakeStepWorks(s, j, now, lease);
  }

  lemma WakeStepWorks(s: Store, j: Id, now: Time, lease: Id)
    requires j in s.jobs && JobConsistent(s, j) && !IsTerminal(s.jobs[j].state) && now >= WakeTime(s, j)
    ensures var t := Apply(s, WakeStep(s, j, now, lease));
            && j in t.jobs && j in t.outboxes
            && (Distance(t, j) < Distance(s, j) || (t.jobs[j].state == Queued && OutboxLeasedBy(t, j, lease)))
            && (if Ends(s.jobs[j]) then EndsWell(s.jobs[j], t.jobs[j]) else t.jobs[j].state == Queued)
  {
  }

  // ----- From a crash back to a worker -----

  /** A Queued job whose outbox row is due. */
  predicate ReadyForDispatch(s: Store, j: Id, now: Time)
  {
    && j in s.jobs && s.jobs[j].state == Queued && s.jobs[j].attemptCount < s.jobs[j].maxAttempts
    && ListedForDispatch(s, j, now)
  }

  predicate ClaimedAgain(s: Store, t: Store, j: Id, lease: Id)
  {
    j in s.jobs && j in t.jobs && t.jobs[j].state == Processing && t.jobs[j].leaseId == Some(lease)
    && t.jobs[j].attemptCount == s.jobs[j].attemptCount + 1
  }

  /** Neither an operator nor the previous worker takes part in the rescue. */
  predicate IsRescueStep(step: Step)
  {
    step.RecoverLeaseStep? || step.RequeueDueRetryStep? || step.RequeueStrandedStep?
    || step.LeaseOutboxStep? || step.MarkDispatchedStep? || step.ClaimStep?
  }

  lemma DispatchAndClaim(s: Store, j: Id, now: Time, l: Id, m: Id)
    requires ReadyForDispatch(s, j, now) && l !in s.issued && m !in s.issued && l != m
    ensures var w := s.jobs[j].workspaceId;
            var steps := [LeaseOutboxStep({j}, l, now, 30_000), MarkDispatchedStep(j, l, 0, now), ClaimStep(w, j, m, now, 120_000)];
            Legal(s, steps) && ClaimedAgain(s, Execute(s, steps), j, m)
  {
    var w := s.jobs[j].workspaceId;
    var a := LeaseOutbox(s, {j}, l, now, 30_000);
    assert OutboxLeasedBy(a, j, l) && a.jobs == s.jobs;
    var b := MarkDispatched(a, j, l, 0, now);
    assert b.jobs[j] == s.jobs[j].(dispatchStatus := Dispatched) && b.issued == s.issued + {l};
    RunOfThree(s, LeaseOutboxStep({j}, l, now, 30_000), MarkDispatchedStep(j, l, 0, now), ClaimStep(w, j, m, now, 120_000));
  }

  /** What the first transaction makes of a live job that is not yet ready for the dispatcher. */
  lemma FirstAid(s: Store, j: Id, now: Time)
    requires j in s.jobs && JobConsistent(s, j) && !IsTerminal(s.jobs[j].state) && now >= WakeTime(s, j)
    requires !ReadyForDispatch(s, j, now)
    ensures var step := WakeStep(s, j, now, 0);
            var t := Apply(s, step);
            && IsRescueStep(step) && Admissible(s, step)
            && j in t.jobs && t.issued == s.issued && t.jobs[j].workspaceId == s.jobs[j].workspaceId
            && t.jobs[j].attemptCount == s.jobs[j].attemptCount
            && (if Ends(s.jobs[j]) then EndsWell(s.jobs[j], t.jobs[j]) else ReadyForDispatch(t, j, now))
  {
  }

  /** At any time from the wake time on, at most four transactions of the reconciler, the dispatcher and a
      fresh worker bring the job back to work under a new lease; unless a cancellation was requested, which
      they complete, or the attempts were used up, which they record. */
  lemma CrashedJobReturns(s: Store, j: Id, now: Time, l: Id, m: Id)
    returns (steps: seq<Step>)
    requires Consistent(s) && j in s.jobs && !IsTerminal(s.jobs[j].state) && now >= WakeTime(s, j)
    requires l !in s.issued && m !in s.issued && l != m
    ensures Legal(s, steps) && |steps| <= 4 && forall step | step in steps :: IsRescueStep(step)
    ensures var t := Execute(s, steps);
            if Ends(s.jobs[j]) then j in t.jobs && EndsWell(s.jobs[j], t.jobs[j]) else ClaimedAgain(s, t, j, m)
  {
    assert JobConsistent(s, j);
    steps := Rescue(s, j, now, l, m);
  }

  lemma Rescue(s: Store, j: Id, now: Time, l: Id, m: Id)
    returns (steps: seq<Step>)
    requires j in s.jobs && JobConsistent(s, j) && !IsTerminal(s.jobs[j].state) && now >= WakeTime(s, j)
    requires l !in s.issued && m !in s.issued && l != m
    ensures Legal(s, steps) && |steps| <= 4 && forall step | step in steps :: IsRescueStep(step)
    ensures var t := Execute(s, steps);
            if Ends(s.jobs[j]) then j in t.jobs && EndsWell(s.jobs[j], t.jobs[j]) else ClaimedAgain(s, t, j, m)
  {
    var w := s.jobs[j].workspaceId;
    var delivery := [LeaseOutboxStep({j}, l, now, 30_000), MarkDispatchedStep(j, l, 0, now), ClaimStep(w, j, m, now, 120_000)];
    if ReadyForDispatch(s, j, now) {
      DispatchAndClaim(s, j, now, l, m);
      return delivery;
    }
    var first := WakeStep(s, j, now, 0);
    FirstAid(s, j, now);
    RunOfOne(s, first);
    if Ends(s.jobs[j]) {
      return [first];
    }
    DispatchAndClaim(Execute(s, [first]), j, now, l, m);
    RunSplits(s, [first], delivery);
    return [first] + delivery;
  }
}
