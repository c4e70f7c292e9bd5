/** What the protocol guarantees over every run, from every starting point a run can reach. */
module JobGuarantees {
  import opened Options
  import opened JobLifecycle
  import opened JobStore
  import opened JobTransactions
  import opened JobProtocol
  import opened JobEvolution

  // ----- Reachable stores -----

  /** Every store reached from the empty one is consistent, whatever the interleaving. */
  lemma ReachableConsistent(steps: seq<Step>)
    requires Legal(EmptyStore, steps)
    ensures Consistent(Execute(EmptyStore, steps))
  {
    EmptyConsistent();
    RunKeepsConsistent(EmptyStore, steps);
  }

  /** The moves a job can make: a queued job is taken up or cancelled; a job in work ends in any way or goes back; a
      scheduled retry is queued or cancelled; a failed job can only be queued again; and the other two states are final. */
  predicate Moves(from: JobState, to: JobState)
  {
    match from
    case Queued => to == Processing || to == Cancelled
    case Processing => to != Processing
    case RetryScheduled => to == Queued || to == Cancelled
    case FailedAttention => to == Queued
    case Succeeded => false
    case Cancelled => false
  }

  lemma TableIs(from: JobState, to: JobState)
    ensures CanTransition(from, to) <==> Moves(from, to)
  {
  }

  /** In every run, every change of a job's state is one the transition table allows. */
  lemma RunFollowsTable(steps: seq<Step>, k: nat, j: Id)
    requires Legal(EmptyStore, steps) && k < |steps|
    requires j in Execute(EmptyStore, steps[..k]).jobs
    ensures j in Execute(EmptyStore, steps[..k + 1]).jobs
    ensures var before, after := Execute(EmptyStore, steps[..k]).jobs[j].state, Execute(EmptyStore, steps[..k + 1]).jobs[j].state;
            after == before || Moves(before, after)
  {
    StepOfRun(steps, k);
    ReachableConsistent(steps[..k]);
    StepMoves(Execute(EmptyStore, steps[..k]), steps[k], j);
  }

  lemma StepMoves(s: Store, step: Step, j: Id)
    requires Consistent(s) && Admissible(s, step) && j in s.jobs
    ensures var t := Apply(s, step); j in t.jobs && (t.jobs[j].state == s.jobs[j].state || Moves(s.jobs[j].state, t.jobs[j].state))
  {
    StepEvolves(s, step, j);
    TableIs(s.jobs[j].state, Apply(s, step).jobs[j].state);
  }

  /** A run up to any of its steps is a run, and the step leads on. */
  lemma StepOfRun(steps: seq<Step>, k: nat)
    requires Legal(EmptyStore, steps) && k < |steps|
    ensures Legal(EmptyStore, steps[..k]) && Admissible(Execute(EmptyStore, steps[..k]), steps[k])
    ensures Execute(EmptyStore, steps[..k + 1]) == Apply(Execute(EmptyStore, steps[..k]), steps[k])
  {
    assert steps == steps[..k] + steps[k..];
    RunSplits(EmptyStore, steps[..k], steps[k..]);
    var s := Execute(EmptyStore, steps[..k]);
    assert steps[..k + 1] == steps[..k] + [steps[k]];
    RunSplits(EmptyStore, steps[..k], [steps[k]]);
    RunOfOne(s, steps[k]);
  }

  /** A result is committed at most once, and exists exactly when the job is Succeeded. */
  lemma ResultExactlyWhenSucceeded(steps: seq<Step>, j: Id)
    requires Legal(EmptyStore, steps)
    ensures var s := Execute(EmptyStore, steps);
            s.results[j] <= 1 && (s.results[j] == 1 <==> j in s.jobs && s.jobs[j].state == Succeeded)
  {
    ReachableConsistent(steps);
    var s := Execute(EmptyStore, steps);
    if j in s.jobs { assert JobConsistent(s, j); }
  }

  /** The two repairs that bypass the transition table or recreate an outbox row never find work. */
  lemma UnusualRepairsNeverFire(steps: seq<Step>, w: Id, j: Id, now: Time)
    requires Legal(EmptyStore, steps)
    ensures var s := Execute(EmptyStore, steps);
            && RepairMissingOutbox(s, w, j, now) == s
            && (s.results[j] > 0 ==> RepairCommittedResult(s, w, j, now) == s)
  {
    ReachableConsistent(steps);
    DeadRepairs(Execute(EmptyStore, steps), w, j, now);
  }

  // ----- Leases and attempts -----

  function ActiveAttempts(s: Store, j: Id): set<Id>
  {
    set l | l in s.attempts && s.attempts[l].jobId == j && s.attempts[l].state == Active
  }

  function AttemptNumbers(s: Store, j: Id): set<int>
  {
    set l | l in s.attempts && s.attempts[l].jobId == j :: s.attempts[l].number
  }

  /** Processing, holding a lease and having an active attempt are one and the same; the active attempt is
      unique, carries that lease and is the latest; and the attempts are numbered 1 up to the attempt count. */
  lemma LeaseAndAttempts(steps: seq<Step>, j: Id)
    requires Legal(EmptyStore, steps) && j in Execute(EmptyStore, steps).jobs
    ensures var s := Execute(EmptyStore, steps);
            var job := s.jobs[j];
            && (job.state == Processing <==> job.leaseId.Some?)
            && ActiveAttempts(s, j) == (if job.leaseId.Some? then {job.leaseId.value} else {})
            && (forall l | l in ActiveAttempts(s, j) :: s.attempts[l].number == job.attemptCount)
            && (forall n :: n in AttemptNumbers(s, j) <==> 1 <= n <= job.attemptCount)
            && (forall l, m | l in s.attempts && m in s.attempts && s.attempts[l].jobId == j && s.attempts[m].jobId == j
                  && s.attempts[l].number == s.attempts[m].number :: l == m)
            && job.attemptCount <= job.maxAttempts <= MAX_ATTEMPTS_LIMIT
  {
    ReachableConsistent(steps);
    var s := Execute(EmptyStore, steps);
    assert JobConsistent(s, j) && Numbered(s, j);
    forall l | l in s.attempts && s.attempts[l].jobId == j
      ensures 1 <= s.attempts[l].number <= s.jobs[j].attemptCount && (s.attempts[l].state == Active ==> s.jobs[j].leaseId == Some(l))
    {
      assert AttemptConsistent(s, l);
    }
    forall n | 1 <= n <= s.jobs[j].attemptCount ensures n in AttemptNumbers(s, j) {
      assert HasNumber(s, j, n);
      var l :| IsAttempt(s, l, j, n);
    }
    forall l, m | l in s.attempts && m in s.attempts && s.attempts[l].jobId == j && s.attempts[m].jobId == j
      && s.attempts[l].number == s.attempts[m].number ensures l == m
    {
      assert IsAttempt(s, l, j, s.attempts[l].number) && IsAttempt(s, m, j, s.attempts[l].number);
    }
  }

  /** Lease `l` was issued and is not, or no longer, the lease of job `j`. */
  predicate Retired(s: Store, j: Id, l: Id)
  {
    j in s.jobs && l in s.issued && s.jobs[j].leaseId != Some(l)
  }

  /** A lease that was lost stays lost, and whoever still holds the id can change nothing with it: no
      heartbeat, stage, cancellation check, failure or success. */
  lemma RetiredLeaseIsPowerless(s: Store, steps: seq<Step>, j: Id, l: Id, step: Step)
    requires Consistent(s) && Legal(s, steps) && Retired(s, j, l)
    requires IsWorkerStep(step) && step.job == j && step.lease == l
    ensures Apply(Execute(s, steps), step) == Execute(s, steps)
  {
    RunContinues(s, steps, j);
    WorkerNeedsLease(Execute(s, steps), step);
  }

  lemma WorkerNeedsLease(s: Store, step: Step)
    requires IsWorkerStep(step) && step.job in s.jobs && s.jobs[step.job].leaseId != Some(step.lease)
    ensures Apply(s, step) == s
  {
  }

  /** Recovering a lapsed lease takes it away from its holder. */
  lemma RecoveryRetires(s: Store, w: Id, j: Id, now: Time)
    requires Consistent(s) && Owned(s, w, j) && LeaseLapsed(s.jobs[j], now)
    ensures Retired(RecoverLease(s, w, j, now), j, s.jobs[j].leaseId.value)
  {
    assert JobConsistent(s, j);
    assert AttemptConsistent(s, s.jobs[j].leaseId.value);
  }

  // ----- Cancellation -----

  /** Once cancellation is requested the only thing left to happen is the cancellation: the request and the
      cancelled outbox stay, no result is ever committed, and the job is Processing or Cancelled, for good
      when Cancelled. */
  lemma CancellationIsFinal(s: Store, steps: seq<Step>, j: Id)
    requires Consistent(s) && Legal(s, steps) && j in s.jobs && s.jobs[j].cancellationRequestedAt.Some?
    ensures var t := Execute(s, steps);
            && j in t.jobs && j in t.outboxes
            && t.jobs[j].cancellationRequestedAt == s.jobs[j].cancellationRequestedAt
            && t.outboxes[j].cancelledAt.Some?
            && (t.jobs[j].state == Cancelled || t.jobs[j].state == s.jobs[j].state == Processing)
            && t.results[j] == 0
            && (t.jobs[j].state == Processing ==> t.jobs[j].attemptCount == s.jobs[j].attemptCount && t.jobs[j].leaseId == s.jobs[j].leaseId)
    decreases |steps|
  {
    if steps == [] {
      assert JobConsistent(s, j);
    } else {
      var t := Apply(s, steps[0]);
      StepEvolves(s, steps[0], j);
      StepKeepsConsistent(s, steps[0]);
      assert JobConsistent(s, j) && JobConsistent(t, j);
      CancellationIsFinal(t, steps[1..], j);
    }
  }

  // ----- Outbox fencing -----

  /** A dispatcher whose outbox lease was cleared or replaced can neither mark nor release the row later. */
  lemma StaleDispatcherIsPowerless(s: Store, steps: seq<Step>, j: Id, l: Id, d: Id, at: Time)
    requires Consistent(s) && Legal(s, steps) && j in s.jobs && l in s.issued && s.outboxes[j].leaseId != Some(l)
    ensures var t := Execute(s, steps); MarkDispatched(t, j, l, d, at) == t && ReleaseOutbox(t, j, l, at) == t
  {
    RunContinues(s, steps, j);
  }

  /** The step was one of those that ask for a fresh delivery of job `j`, and it took effect. */
  predicate AsksForRedelivery(s: Store, step: Step, j: Id)
  {
    && (step.RecoverLeaseStep? || step.RequeueDueRetryStep? || step.RequeueStrandedStep? || step.RetryStep?
        || step.RecoverWriteStep? || step.RetryWriteStep?)
    && step.job == j && j in s.jobs && j in Apply(s, step).jobs
    && Apply(s, step).jobs[j].version != s.jobs[j].version && Apply(s, step).jobs[j].state == Queued
  }

  /** Such a step leaves a row the dispatcher may lease at once, and no mark under a lease issued before it
      can ever take that away: the request for redelivery is never swallowed by a stale mark. */
  lemma RedeliveryIsNotSwallowed(s: Store, step: Step, steps: seq<Step>, j: Id, l: Id, d: Id, at: Time)
    requires Consistent(s) && Admissible(s, step) && AsksForRedelivery(s, step, j) && l in s.issued
    requires Legal(Apply(s, step), steps)
    ensures Leasable(Apply(s, step).outboxes[j], step.now)
    ensures var t := Execute(Apply(s, step), steps); MarkDispatched(t, j, l, d, at) == t
  {
    assert JobConsistent(s, j);
    RedeliveryClearsLease(s, step, j);
    StepEvolves(s, step, j);
    StepKeepsConsistent(s, step);
    StaleDispatcherIsPowerless(Apply(s, step), steps, j, l, d, at);
  }

  predicate DueWithoutLease(t: Store, j: Id, now: Time)
  {
    j in t.outboxes && t.outboxes[j].leaseId.None? && Leasable(t.outboxes[j], now)
  }

  lemma RedeliveryClearsLease(s: Store, step: Step, j: Id)
    requires j in s.jobs && JobConsistent(s, j) && Admissible(s, step) && AsksForRedelivery(s, step, j)
    ensures DueWithoutLease(Apply(s, step), j, step.now)
  {
    match step
    case RecoverWriteStep(_, seen, now) => RecoveryClearsLease(s, j, seen, now);
    case RecoverLeaseStep(_, _, now) => RecoveryClearsLease(s, j, s.jobs[j], now);
    case RetryWriteStep(op, _, seen, refusal, code, now) => RetryClearsLease(s, op, j, seen, refusal, code, now);
    case RetryStep(op, _, code, met, now) =>
      RetryClearsLease(s, op, j, s.jobs[j], RetryRefusal(s, j, s.jobs[j], met), code, now);
    case _ =>
  }

  lemma RecoveryClearsLease(s: Store, j: Id, seen: Job, now: Time)
    requires j in s.jobs && JobConsistent(s, j) && Remembered(s, j, seen)
    ensures var t := RecoverWrite(s, j, seen, now);
            j in t.jobs && t.jobs[j].version != s.jobs[j].version && t.jobs[j].state == Queued ==> DueWithoutLease(t, j, now)
  {
  }

  lemma RetryClearsLease(s: Store, op: Operator, j: Id, seen: Job, refusal: Option<(Outcome, Reason)>, code: string, now: Time)
    requires j in s.jobs && JobConsistent(s, j)
    ensures var t := SettleRetry(s, op, j, seen, refusal, code, now);
            j in t.jobs && t.jobs[j].version != s.jobs[j].version ==> DueWithoutLease(t, j, now)
  {
  }

  /** In every run the dispatch status of a job says what its outbox row says, except that a failed job can say
      Pending over a dispatched row. */
  lemma DispatchStatusExact(steps: seq<Step>, j: Id)
    requires Legal(EmptyStore, steps) && j in Execute(EmptyStore, steps).jobs
    ensures var s := Execute(EmptyStore, steps);
            && j in s.outboxes
            && (s.jobs[j].dispatchStatus == DispatchCancelled <==> s.outboxes[j].cancelledAt.Some?)
            && (s.jobs[j].dispatchStatus == DispatchStatusOf(s.outboxes[j]) <==> !Drifted(s.jobs[j], s.outboxes[j]))
  {
    ReachableConsistent(steps);
    assert JobConsistent(Execute(EmptyStore, steps), j);
  }

  /** The recovery that lets the two drift apart: it gives up on the job, and the delivery was marked after it
      had read the job and before it writes. */
  predicate DriftingStep(s: Store, step: Step, j: Id)
  {
    && step.RecoverWriteStep? && step.job == j && StillCurrent(s, j, step.seen)
    && LeaseLapsed(s.jobs[j], step.now) && RecoveredState(step.seen) == FailedAttention
    && step.seen.dispatchStatus == Pending && s.jobs[j].dispatchStatus == Dispatched
  }

  predicate DriftedIn(s: Store, j: Id) { j in s.jobs && j in s.outboxes && Drifted(s.jobs[j], s.outboxes[j]) }

  predicate DriftFollows(s: Store, t: Store, j: Id, begins: bool)
  {
    DriftedIn(t, j) <==> begins || (DriftedIn(s, j) && j in t.jobs && t.jobs[j].state == FailedAttention)
  }

  lemma DriftByWorker(s: Store, step: Step, j: Id)
    requires j in s.jobs && JobConsistent(s, j) && IsWorkerStep(step)
    ensures DriftFollows(s, Apply(s, step), j, false)
  {
  }

  lemma DriftByRecovery(s: Store, i: Id, seen: Job, now: Time, j: Id)
    requires j in s.jobs && JobConsistent(s, j) && Remembered(s, i, seen)
    ensures DriftFollows(s, RecoverWrite(s, i, seen, now), j, DriftingStep(s, RecoverWriteStep(i, seen, now), j))
  {
  }

  lemma DriftByReconciler(s: Store, step: Step, j: Id)
    requires j in s.jobs && JobConsistent(s, j) && IsReconcilerStep(step) && Admissible(s, step)
    requires step.job in s.jobs ==> JobConsistent(s, step.job)
    ensures DriftFollows(s, Apply(s, step), j, DriftingStep(s, step, j))
  {
    if step.RecoverWriteStep? {
      DriftByRecovery(s, step.job, step.seen, step.now, j);
    } else if step.RecoverLeaseStep? {
      if step.job in s.jobs { DriftByRecovery(s, step.job, s.jobs[step.job], step.now, j); }
    } else {
      DriftByRequeue(s, step, j);
    }
  }

  lemma DriftByRequeue(s: Store, step: Step, j: Id)
    requires j in s.jobs && JobConsistent(s, j) && IsReconcilerStep(step) && Admissible(s, step)
    requires !step.RecoverWriteStep? && !step.RecoverLeaseStep? && (step.job in s.jobs ==> JobConsistent(s, step.job))
    ensures DriftFollows(s, Apply(s, step), j, false)
  {
    if step.RepairMissingOutboxStep? || step.RepairCommittedResultStep? { assert Apply(s, step) == s; }
  }

  lemma DriftByCancellation(s: Store, op: Operator, i: Id, seen: Job, code: string, now: Time, j: Id)
    requires j in s.jobs && JobConsistent(s, j) && Remembered(s, i, seen)
    ensures DriftFollows(s, FinishCancel(s, op, i, seen, code, now), j, false)
  {
  }

  lemma DriftByRetry(s: Store, op: Operator, i: Id, seen: Job, refusal: Option<(Outcome, Reason)>, code: string, now: Time, j: Id)
    requires j in s.jobs && JobConsistent(s, j)
    ensures DriftFollows(s, SettleRetry(s, op, i, seen, refusal, code, now), j, false)
  {
  }

  lemma DriftByCancelJob(s: Store, op: Operator, i: Id, code: string, now: Time, j: Id)
    requires j in s.jobs && JobConsistent(s, j)
    ensures DriftFollows(s, CancelJob(s, op, i, code, now), j, false)
  {
    if i in s.jobs { DriftByCancellation(s, op, i, s.jobs[i], code, now, j); }
  }

  lemma DriftByRetryJob(s: Store, op: Operator, i: Id, code: string, met: bool, now: Time, j: Id)
    requires j in s.jobs && JobConsistent(s, j)
    ensures DriftFollows(s, RetryJob(s, op, i, code, met, now), j, false)
  {
    if i in s.jobs { DriftByRetry(s, op, i, s.jobs[i], RetryRefusal(s, i, s.jobs[i], met), code, now, j); }
  }

  lemma DriftByOperator(s: Store, step: Step, j: Id)
    requires j in s.jobs && JobConsistent(s, j) && IsOperatorStep(step) && Admissible(s, step)
    ensures DriftFollows(s, Apply(s, step), j, false)
  {
    match step
    case CancelStep(op, i, code, now) => DriftByCancelJob(s, op, i, code, now, j);
    case RetryStep(op, i, code, met, now) => DriftByRetryJob(s, op, i, code, met, now, j);
    case CancelWriteStep(op, i, seen, code, now) => DriftByCancellation(s, op, i, seen, code, now, j);
    case RetryWriteStep(op, i, seen, refusal, code, now) => DriftByRetry(s, op, i, seen, refusal, code, now, j);
    case AuditStep(_, _, _, _, _, _) =>
  }

  lemma DriftByOthers(s: Store, step: Step, j: Id)
    requires j in s.jobs && JobConsistent(s, j) && Admissible(s, step)
    requires !IsWorkerStep(step) && !IsReconcilerStep(step) && !IsOperatorStep(step)
    ensures DriftFollows(s, Apply(s, step), j, false)
  {
  }

  /** Status and row drift apart at exactly that step, and stay apart exactly until the job is retried. */
  lemma DriftsExactly(s: Store, step: Step, j: Id)
    requires Consistent(s) && Admissible(s, step) && j in s.jobs
    ensures DriftFollows(s, Apply(s, step), j, DriftingStep(s, step, j))
  {
    assert JobConsistent(s, j);
    if IsWorkerStep(step) {
      DriftByWorker(s, step, j);
    } else if IsReconcilerStep(step) {
      DriftByReconciler(s, step, j);
    } else if IsOperatorStep(step) {
      DriftByOperator(s, step, j);
    } else {
      DriftByOthers(s, step, j);
    }
  }
}
