/** How long a worker keeps its job: only its own last step, or a recovery after its lease ended, takes it away. */
module JobLeases {
  import opened Options
  import opened JobLifecycle
  import opened JobStore
  import opened JobTransactions
  import opened JobProtocol
  import opened JobEvolution

  /** The worker holds the job until at least the given time. */
  predicate HoldsUntil(s: Store, w: Id, j: Id, l: Id, until: Time)
  {
    && j in s.jobs && s.jobs[j].workspaceId == w && s.jobs[j].state == Processing && s.jobs[j].leaseId == Some(l)
    && s.jobs[j].leaseExpiresAt.Some? && until <= s.jobs[j].leaseExpiresAt.value
  }

  /** The holder's own last step: it settles the job or honours a cancellation. */
  predicate LetsGo(step: Step, j: Id, l: Id)
  {
    (step.HonourCancellationStep? || step.CommitSuccessStep? || step.SettleFailureStep?) && step.job == j && step.lease == l
  }

  /** Recoveries of the job come before the given time, and the holder's heartbeats reach at least to it. */
  predicate InTime(step: Step, j: Id, l: Id, until: Time)
  {
    && ((step.RecoverLeaseStep? || step.RecoverWriteStep?) && step.job == j ==> step.now < until)
    && (step.HeartbeatStep? && step.job == j && step.lease == l ==> until <= step.now + step.leaseMs)
  }

  lemma WorkerStepKeepsHold(s: Store, step: Step, w: Id, j: Id, l: Id, until: Time)
    requires JobConsistentAt(s, j) && HoldsUntil(s, w, j, l, until) && IsWorkerStep(step) && !LetsGo(step, j, l) && InTime(step, j, l, until)
    ensures HoldsUntil(Apply(s, step), w, j, l, until)
  {
  }

  predicate JobConsistentAt(s: Store, j: Id) { j in s.jobs && JobConsistent(s, j) }

  lemma ReconcilerStepKeepsHold(s: Store, step: Step, w: Id, j: Id, l: Id, until: Time)
    requires JobConsistentAt(s, j) && HoldsUntil(s, w, j, l, until) && IsReconcilerStep(step) && Admissible(s, step) && InTime(step, j, l, until)
    requires step.job in s.jobs ==> JobConsistent(s, step.job)
    ensures HoldsUntil(Apply(s, step), w, j, l, until)
  {
    if step.RepairMissingOutboxStep? || step.RepairCommittedResultStep? { assert Apply(s, step) == s; }
  }

  lemma CancellationKeepsHold(s: Store, op: Operator, i: Id, seen: Job, code: string, now: Time, w: Id, j: Id, l: Id, until: Time)
    requires JobConsistentAt(s, j) && HoldsUntil(s, w, j, l, until) && Remembered(s, i, seen)
    ensures HoldsUntil(FinishCancel(s, op, i, seen, code, now), w, j, l, until)
  {
  }

  lemma RetryKeepsHold(s: Store, op: Operator, i: Id, seen: Job, refusal: Option<(Outcome, Reason)>, code: string, now: Time, w: Id, j: Id, l: Id, until: Time)
    requires HoldsUntil(s, w, j, l, until)
    ensures HoldsUntil(SettleRetry(s, op, i, seen, refusal, code, now), w, j, l, until)
  {
  }

  lemma CancelJobKeepsHold(s: Store, op: Operator, i: Id, code: string, now: Time, w: Id, j: Id, l: Id, until: Time)
    requires JobConsistentAt(s, j) && HoldsUntil(s, w, j, l, until)
    ensures HoldsUntil(CancelJob(s, op, i, code, now), w, j, l, until)
  {
    if i in s.jobs { CancellationKeepsHold(s, op, i, s.jobs[i], code, now, w, j, l, until); }
  }

  lemma RetryJobKeepsHold(s: Store, op: Operator, i: Id, code: string, met: bool, now: Time, w: Id, j: Id, l: Id, until: Time)
    requires HoldsUntil(s, w, j, l, until)
    ensures HoldsUntil(RetryJob(s, op, i, code, met, now), w, j, l, until)
  {
    if i in s.jobs { RetryKeepsHold(s, op, i, s.jobs[i], RetryRefusal(s, i, s.jobs[i], met), code, now, w, j, l, until); }
  }

  lemma OperatorStepKeepsHold(s: Store, step: Step, w: Id, j: Id, l: Id, until: Time)
    requires JobConsistentAt(s, j) && HoldsUntil(s, w, j, l, until) && IsOperatorStep(step) && Admissible(s, step)
    ensures HoldsUntil(Apply(s, step), w, j, l, until)
  {
    match step
    case CancelStep(op, i, code, now) => CancelJobKeepsHold(s, op, i, code, now, w, j, l, until);
    case RetryStep(op, i, code, met, now) => RetryJobKeepsHold(s, op, i, code, met, now, w, j, l, until);
    case CancelWriteStep(op, i, seen, code, now) => CancellationKeepsHold(s, op, i, seen, code, now, w, j, l, until);
    case RetryWriteStep(op, i, seen, refusal, code, now) => RetryKeepsHold(s, op, i, seen, refusal, code, now, w, j, l, until);
    case AuditStep(_, _, _, _, _, _) =>
  }

  lemma OtherStepKeepsHold(s: Store, step: Step, w: Id, j: Id, l: Id, until: Time)
    requires JobConsistentAt(s, j) && HoldsUntil(s, w, j, l, until) && Admissible(s, step)
    requires !IsWorkerStep(step) && !IsReconcilerStep(step) && !IsOperatorStep(step)
    ensures HoldsUntil(Apply(s, step), w, j, l, until)
  {
  }

  lemma StepKeepsHold(s: Store, step: Step, w: Id, j: Id, l: Id, until: Time)
    requires Consistent(s) && Admissible(s, step) && HoldsUntil(s, w, j, l, until) && !LetsGo(step, j, l) && InTime(step, j, l, until)
    ensures HoldsUntil(Apply(s, step), w, j, l, until)
  {
    assert JobConsistent(s, j);
    if IsWorkerStep(step) {
      WorkerStepKeepsHold(s, step, w, j, l, until);
    } else if IsReconcilerStep(step) {
      ReconcilerStepKeepsHold(s, step, w, j, l, until);
    } else if IsOperatorStep(step) {
      OperatorStepKeepsHold(s, step, w, j, l, until);
    } else {
      OtherStepKeepsHold(s, step, w, j, l, until);
    }
  }

  /** Whatever the others do, a worker keeps its job up to any time that its lease and all its later heartbeats
      reach, as long as no recovery comes with a later clock and it does not let go itself. */
  lemma {:induction false} HolderKeepsJob(s: Store, steps: seq<Step>, w: Id, j: Id, l: Id, until: Time)
    requires Consistent(s) && Legal(s, steps) && HoldsUntil(s, w, j, l, until)
    requires forall i | 0 <= i < |steps| :: !LetsGo(steps[i], j, l) && InTime(steps[i], j, l, until)
    ensures HoldsUntil(Execute(s, steps), w, j, l, until)
    decreases |steps|
  {
    if steps != [] {
      StepKeepsHold(s, steps[0], w, j, l, until);
      StepKeepsConsistent(s, steps[0]);
      HolderKeepsJob(Apply(s, steps[0]), steps[1..], w, j, l, until);
    }
  }

  /** A claim of a queued job, or a heartbeat of its holder. */
  predicate TakesOrRenews(s: Store, step: Step, w: Id, j: Id, l: Id)
  {
    && (step.HeartbeatStep? || step.ClaimStep?) && step.workspace == w && step.job == j && step.lease == l
    && (if step.HeartbeatStep? then Holds(s, w, j, l) else Owned(s, w, j) && s.jobs[j].state == Queued)
  }

  /** A claim or a heartbeat at `now` keeps the job for its worker until `now + leaseMs`: no recovery with an earlier
      clock takes it, in any continuation in which the worker goes on and its later heartbeats do not shorten that. */
  lemma HeartbeatProtects(s: Store, step: Step, steps: seq<Step>, w: Id, j: Id, l: Id)
    requires Consistent(s) && Admissible(s, step) && Legal(Apply(s, step), steps)
    requires TakesOrRenews(s, step, w, j, l)
    requires forall i | 0 <= i < |steps| :: !LetsGo(steps[i], j, l) && InTime(steps[i], j, l, step.now + step.leaseMs)
    ensures Holds(Execute(Apply(s, step), steps), w, j, l)
  {
    assert JobConsistent(s, j);
    TakesHold(s, step, w, j, l);
    StepKeepsConsistent(s, step);
    HolderKeepsJob(Apply(s, step), steps, w, j, l, step.now + step.leaseMs);
  }

  lemma TakesHold(s: Store, step: Step, w: Id, j: Id, l: Id)
    requires JobConsistentAt(s, j)
    requires TakesOrRenews(s, step, w, j, l)
    requires step.HeartbeatStep? ==> l in s.attempts && s.attempts[l].workspaceId == w
    ensures HoldsUntil(Apply(s, step), w, j, l, step.now + step.leaseMs)
  {
  }

  predicate Beats(step: Step, w: Id, j: Id, l: Id)
  {
    step.HeartbeatStep? && step.workspace == w && step.job == j && step.lease == l
  }

  /** Every recovery of the job comes before the end that the worker's last heartbeat has set, `until` being the first. */
  predicate Timely(steps: seq<Step>, w: Id, j: Id, l: Id, until: Time)
    decreases |steps|
  {
    steps == []
    || var step := steps[0];
       && !LetsGo(step, j, l)
       && ((step.RecoverLeaseStep? || step.RecoverWriteStep?) && step.job == j ==> step.now < until)
       && Timely(steps[1..], w, j, l, if Beats(step, w, j, l) then step.now + step.leaseMs else until)
  }

  /** A worker that heartbeats in time is never recovered, however long it works and whatever the others do. */
  lemma {:induction false} TimelyWorkerIsNeverRecovered(s: Store, steps: seq<Step>, w: Id, j: Id, l: Id, until: Time)
    requires Consistent(s) && Legal(s, steps) && HoldsUntil(s, w, j, l, until) && Timely(steps, w, j, l, until)
    ensures Holds(Execute(s, steps), w, j, l)
    decreases |steps|
  {
    if steps != [] {
      var step := steps[0];
      assert JobConsistent(s, j);
      StepKeepsConsistent(s, step);
      TimelyStep(s, step, w, j, l, until);
      TimelyWorkerIsNeverRecovered(Apply(s, step), steps[1..], w, j, l, if Beats(step, w, j, l) then step.now + step.leaseMs else until);
    }
  }

  lemma TimelyStep(s: Store, step: Step, w: Id, j: Id, l: Id, until: Time)
    requires Consistent(s) && Admissible(s, step) && HoldsUntil(s, w, j, l, until) && !LetsGo(step, j, l)
    requires (step.RecoverLeaseStep? || step.RecoverWriteStep?) && step.job == j ==> step.now < until
    ensures HoldsUntil(Apply(s, step), w, j, l, if Beats(step, w, j, l) then step.now + step.leaseMs else until)
  {
    assert JobConsistent(s, j);
    if Beats(step, w, j, l) {
      assert AttemptConsistent(s, l);
      TakesHold(s, step, w, j, l);
    } else if step.HeartbeatStep? && step.job == j && step.lease == l {
      assert Apply(s, step) == s;
    } else {
      StepKeepsHold(s, step, w, j, l, until);
    }
  }

  /** Once the lease has ended a recovery does take the job. */
  lemma LapsedLeaseIsTaken(s: Store, w: Id, j: Id, now: Time)
    requires Consistent(s) && Owned(s, w, j) && s.jobs[j].state == Processing && s.jobs[j].leaseExpiresAt.value <= now
    ensures var t := Apply(s, RecoverLeaseStep(w, j, now)); j in t.jobs && t.jobs[j].leaseId == None && t.jobs[j].state != Processing
  {
    assert JobConsistent(s, j);
  }
}
