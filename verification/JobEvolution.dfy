/** What one step can do to one job, and what any run of steps can do to it. */
module JobEvolution {
  import opened Options
  import opened JobLifecycle
  import opened JobRetry
  import opened JobStore
  import opened JobTransactions
  import opened JobProtocol

  // ----- Composition of runs -----

  lemma {:induction false} RunSplits(s: Store, first: seq<Step>, second: seq<Step>)
    ensures Execute(s, first + second) == Execute(Execute(s, first), second)
    ensures Legal(s, first + second) <==> Legal(s, first) && Legal(Execute(s, first), second)
    decreases |first|
  {
    if first == [] {
      assert first + second == second;
    } else {
      assert (first + second)[0] == first[0] && (first + second)[1..] == first[1..] + second;
      RunSplits(Apply(s, first[0]), first[1..], second);
    }
  }

  lemma RunOfOne(s: Store, x: Step)
    ensures Execute(s, [x]) == Apply(s, x)
    ensures Legal(s, [x]) <==> Admissible(s, x)
  {
    assert [x][1..] == [];
    assert Execute(Apply(s, x), []) == Apply(s, x) && Legal(Apply(s, x), []);
  }

  lemma RunOfThree(s: Store, x: Step, y: Step, z: Step)
    ensures Execute(s, [x, y, z]) == Apply(Apply(Apply(s, x), y), z)
    ensures Legal(s, [x, y, z]) <==> Admissible(s, x) && Admissible(Apply(s, x), y) && Admissible(Apply(Apply(s, x), y), z)
  {
    assert [x, y, z][1..] == [y, z] && [y, z][1..] == [z];
    RunOfOne(Apply(Apply(s, x), y), z);
    assert Execute(Apply(s, x), [y, z]) == Execute(Apply(Apply(s, x), y), [z]);
  }

  // ----- One step -----

  /** A lease column keeps its value, is cleared, or takes an id that had not been issued. */
  predicate LeaseMoves(before: Option<Id>, after: Option<Id>, issued: set<Id>)
  {
    after == before || after == None || after.value !in issued
  }

  /** What holds between any store and any later one, as seen from job `j`. */
  predicate Continues(s: Store, t: Store, j: Id)
  {
    && s.issued <= t.issued && s.results <= t.results
    && j in s.jobs && j in s.outboxes && j in t.jobs && j in t.outboxes
    && RowContinues(s.jobs[j], t.jobs[j], s.issued)
    && LeaseMoves(s.outboxes[j].leaseId, t.outboxes[j].leaseId, s.issued)
    && (s.jobs[j].version == t.jobs[j].version ==> DeliveryKept(s.outboxes[j], t.outboxes[j]))
  }

  predicate RowContinues(a: Job, b: Job, issued: set<Id>)
  {
    && b.workspaceId == a.workspaceId && b.key == a.key && b.payload == a.payload && b.createdAt == a.createdAt
    && (a.state == Succeeded || a.state == Cancelled ==> b.state == a.state)
    && a.version <= b.version
    && (a.version == b.version ==> SameButMark(a, b))
    && LeaseMoves(a.leaseId, b.leaseId, issued)
    && (a.cancellationRequestedAt.Some? ==> b.cancellationRequestedAt == a.cancellationRequestedAt)
  }

  /** An outbox row whose job version stood still was neither cancelled, un-cancelled nor reset. */
  predicate DeliveryKept(a: Outbox, b: Outbox)
  {
    b.cancelledAt == a.cancelledAt && (a.dispatchedAt.Some? ==> b.dispatchedAt == a.dispatchedAt)
  }

  /** One step of any kind, as seen from job `j`: a change of state is one the transition table allows, and a
      job that stays Processing stays with the attempt it has. */
  predicate Evolves(s: Store, t: Store, j: Id)
  {
    && Continues(s, t, j)
    && (t.jobs[j].state == s.jobs[j].state || CanTransition(s.jobs[j].state, t.jobs[j].state))
    && (s.jobs[j].state == t.jobs[j].state == Processing ==>
      t.jobs[j].leaseId == s.jobs[j].leaseId && t.jobs[j].attemptCount == s.jobs[j].attemptCount)
  }

  lemma HeartbeatEvolves(s: Store, w: Id, i: Id, l: Id, at: Time, ms: int, j: Id)
    requires j in s.jobs && JobConsistent(s, j)
    ensures Evolves(s, Heartbeat(s, w, i, l, at, ms), j)
  {
  }

  lemma RecordStageEvolves(s: Store, w: Id, i: Id, l: Id, stage: string, at: Time, j: Id)
    requires j in s.jobs && JobConsistent(s, j)
    ensures Evolves(s, RecordStage(s, w, i, l, stage, at), j)
  {
  }

  lemma HonourCancellationEvolves(s: Store, w: Id, i: Id, l: Id, at: Time, j: Id)
    requires j in s.jobs && JobConsistent(s, j)
    ensures Evolves(s, HonourCancellation(s, w, i, l, at), j)
  {
  }

  lemma CommitSuccessEvolves(s: Store, w: Id, i: Id, l: Id, at: Time, j: Id)
    requires j in s.jobs && JobConsistent(s, j)
    ensures Evolves(s, CommitSuccess(s, w, i, l, at), j)
  {
  }

  lemma SettleFailureEvolves(s: Store, w: Id, i: Id, l: Id, f: Failure, r: real, at: Time, j: Id)
    requires j in s.jobs && JobConsistent(s, j)
    ensures Evolves(s, SettleFailure(s, w, i, l, f, r, at), j)
  {
  }

  lemma RecoverLeaseEvolves(s: Store, w: Id, i: Id, now: Time, j: Id)
    requires j in s.jobs && JobConsistent(s, j)
    ensures Evolves(s, RecoverLease(s, w, i, now), j)
  {
    if i in s.jobs { RecoverWriteEvolves(s, i, s.jobs[i], now, j); }
  }

  lemma RecoverWriteEvolves(s: Store, i: Id, seen: Job, now: Time, j: Id)
    requires j in s.jobs && JobConsistent(s, j) && Remembered(s, i, seen)
    ensures Evolves(s, RecoverWrite(s, i, seen, now), j)
  {
    if i == j { OwnRecoveryEvolves(s, seen, now, j); } else { OtherRecoveryEvolves(s, i, seen, now, j); }
  }

  lemma OwnRecoveryEvolves(s: Store, seen: Job, now: Time, j: Id)
    requires j in s.jobs && JobConsistent(s, j) && Remembered(s, j, seen)
    ensures Evolves(s, RecoverWrite(s, j, seen, now), j)
  {
  }

  lemma OtherRecoveryEvolves(s: Store, i: Id, seen: Job, now: Time, j: Id)
    requires j in s.jobs && JobConsistent(s, j) && i != j
    ensures Evolves(s, RecoverWrite(s, i, seen, now), j)
  {
  }

  lemma UnusualRepairEvolves(s: Store, step: Step, j: Id)
    requires j in s.jobs && JobConsistent(s, j) && Admissible(s, step)
    requires step.RepairMissingOutboxStep? || step.RepairCommittedResultStep? || step.FlagAmbiguousStep?
    requires step.job in s.jobs ==> JobConsistent(s, step.job)
    ensures Evolves(s, Apply(s, step), j)
  {
    if !step.FlagAmbiguousStep? { assert Apply(s, step) == s; }
  }

  lemma ReconcilerStepEvolves(s: Store, step: Step, j: Id)
    requires j in s.jobs && JobConsistent(s, j) && IsReconcilerStep(step) && Admissible(s, step)
    requires step.job in s.jobs ==> JobConsistent(s, step.job)
    ensures Evolves(s, Apply(s, step), j)
  {
    match step
    case RecoverLeaseStep(w, i, now) => RecoverLeaseEvolves(s, w, i, now, j);
    case RequeueDueRetryStep(w, i, now) => RequeueDueRetryEvolves(s, w, i, now, j);
    case RequeueStrandedStep(w, i, now) => RequeueStrandedEvolves(s, w, i, now, j);
    case RecoverWriteStep(i, seen, now) => RecoverWriteEvolves(s, i, seen, now, j);
    case _ => UnusualRepairEvolves(s, step, j);
  }

  lemma RequeueDueRetryEvolves(s: Store, w: Id, i: Id, now: Time, j: Id)
    requires j in s.jobs && JobConsistent(s, j)
    ensures Evolves(s, RequeueDueRetry(s, w, i, now), j)
  {
  }

  lemma RequeueStrandedEvolves(s: Store, w: Id, i: Id, now: Time, j: Id)
    requires j in s.jobs && JobConsistent(s, j)
    ensures Evolves(s, RequeueStranded(s, w, i, now), j)
  {
  }

  lemma CancelEvolves(s: Store, op: Operator, i: Id, code: string, now: Time, j: Id)
    requires j in s.jobs && JobConsistent(s, j)
    ensures Evolves(s, CancelJob(s, op, i, code, now), j)
  {
    if Authorise(s, op, CancelAction, now).Allowed? && Owned(s, op.workspaceId, i) {
      FinishCancelEvolves(s, op, i, s.jobs[i], code, now, j);
    } else {
      AuditEvolves(s, CancelJob(s, op, i, code, now).audit, j);
    }
  }

  lemma AuditEvolves(s: Store, audit: seq<AuditEvent>, j: Id)
    requires j in s.jobs && JobConsistent(s, j)
    ensures Evolves(s, s.(audit := audit), j)
  {
  }

  lemma FinishCancelEvolves(s: Store, op: Operator, i: Id, seen: Job, code: string, now: Time, j: Id)
    requires j in s.jobs && JobConsistent(s, j) && Remembered(s, i, seen)
    ensures Evolves(s, FinishCancel(s, op, i, seen, code, now), j)
  {
    if PlanCancel(seen).Attempted? { CancelWriteEvolves(s, i, seen, now, j); }
  }

  lemma CancelWriteEvolves(s: Store, i: Id, seen: Job, now: Time, j: Id)
    requires j in s.jobs && JobConsistent(s, j) && Remembered(s, i, seen) && PlanCancel(seen).Attempted?
    ensures var w := CancelWrite(s, i, seen, now); w.Some? ==> Evolves(s, w.value, j)
  {
    if i == j { OwnCancelEvolves(s, seen, now, j); } else { OtherCancelEvolves(s, i, seen, now, j); }
  }

  lemma OwnCancelEvolves(s: Store, seen: Job, now: Time, j: Id)
    requires j in s.jobs && JobConsistent(s, j) && Remembered(s, j, seen) && PlanCancel(seen).Attempted?
    ensures var w := CancelWrite(s, j, seen, now); w.Some? ==> Evolves(s, w.value, j)
  {
  }

  lemma OtherCancelEvolves(s: Store, i: Id, seen: Job, now: Time, j: Id)
    requires j in s.jobs && JobConsistent(s, j) && i != j
    ensures var w := CancelWrite(s, i, seen, now); w.Some? ==> Evolves(s, w.value, j)
  {
  }

  lemma RetryEvolves(s: Store, op: Operator, i: Id, code: string, met: bool, now: Time, j: Id)
    requires j in s.jobs && JobConsistent(s, j)
    ensures Evolves(s, RetryJob(s, op, i, code, met, now), j)
  {
    if Authorise(s, op, RetryAction, now).Allowed? && Owned(s, op.workspaceId, i) {
      SettleRetryEvolves(s, op, i, s.jobs[i], RetryRefusal(s, i, s.jobs[i], met), code, now, j);
    } else {
      AuditEvolves(s, RetryJob(s, op, i, code, met, now).audit, j);
    }
  }

  lemma SettleRetryEvolves(s: Store, op: Operator, i: Id, seen: Job, refusal: Option<(Outcome, Reason)>, code: string, now: Time, j: Id)
    requires j in s.jobs && JobConsistent(s, j) && Remembered(s, i, seen)
    ensures Evolves(s, SettleRetry(s, op, i, seen, refusal, code, now), j)
  {
    RetryWriteEvolves(s, i, seen, now, j);
  }

  lemma RetryWriteEvolves(s: Store, i: Id, seen: Job, now: Time, j: Id)
    requires j in s.jobs && JobConsistent(s, j) && Remembered(s, i, seen)
    ensures var w := RetryWrite(s, i, seen, now); w.Some? ==> Evolves(s, w.value, j)
  {
  }

  lemma OperatorStepEvolves(s: Store, step: Step, j: Id)
    requires j in s.jobs && JobConsistent(s, j) && IsOperatorStep(step) && Admissible(s, step)
    ensures Evolves(s, Apply(s, step), j)
  {
    match step
    case CancelStep(op, i, code, now) => CancelEvolves(s, op, i, code, now, j);
    case RetryStep(op, i, code, met, now) => RetryEvolves(s, op, i, code, met, now, j);
    case CancelWriteStep(op, i, seen, code, now) => FinishCancelEvolves(s, op, i, seen, code, now, j);
    case RetryWriteStep(op, i, seen, refusal, code, now) => SettleRetryEvolves(s, op, i, seen, refusal, code, now, j);
    case AuditStep(_, _, _, _, _, _) =>
  }

  lemma DispatchStepEvolves(s: Store, step: Step, j: Id)
    requires j in s.jobs && JobConsistent(s, j) && Admissible(s, step)
    requires step.LeaseOutboxStep? || step.MarkDispatchedStep? || step.ReleaseOutboxStep?
    ensures Evolves(s, Apply(s, step), j)
  {
  }

  lemma EnqueueEvolves(s: Store, i: Id, w: Id, key: Id, payload: Id, m: int, now: Time, j: Id)
    requires j in s.jobs && JobConsistent(s, j) && i !in s.jobs
    ensures Evolves(s, Enqueue(s, i, w, key, payload, m, now), j)
  {
  }

  lemma ClaimEvolves(s: Store, w: Id, i: Id, l: Id, now: Time, ms: int, j: Id)
    requires j in s.jobs && JobConsistent(s, j) && l !in s.issued
    ensures Evolves(s, ClaimJob(s, w, i, l, now, ms), j)
  {
  }

  lemma MakeRetryDueEvolves(s: Store, w: Id, i: Id, now: Time, j: Id)
    requires j in s.jobs && JobConsistent(s, j)
    ensures Evolves(s, MakeRetryDue(s, w, i, now), j)
  {
  }

  lemma WorkerStepEvolves(s: Store, step: Step, j: Id)
    requires j in s.jobs && JobConsistent(s, j) && IsWorkerStep(step)
    ensures Evolves(s, Apply(s, step), j)
  {
    match step
    case HeartbeatStep(w, i, l, now, ms) => HeartbeatEvolves(s, w, i, l, now, ms, j);
    case RecordStageStep(w, i, l, stage, now) => RecordStageEvolves(s, w, i, l, stage, now, j);
    case HonourCancellationStep(w, i, l, now) => HonourCancellationEvolves(s, w, i, l, now, j);
    case CommitSuccessStep(w, i, l, now) => CommitSuccessEvolves(s, w, i, l, now, j);
    case SettleFailureStep(w, i, l, f, r, now) => SettleFailureEvolves(s, w, i, l, f, r, now, j);
  }

  lemma RemainingStepEvolves(s: Store, step: Step, j: Id)
    requires j in s.jobs && JobConsistent(s, j) && Admissible(s, step)
    requires !IsWorkerStep(step) && !IsReconcilerStep(step) && !IsOperatorStep(step)
    ensures Evolves(s, Apply(s, step), j)
  {
    match step
    case EnqueueStep(i, w, key, payload, m, now) => EnqueueEvolves(s, i, w, key, payload, m, now, j);
    case ClaimStep(w, i, l, now, ms) => ClaimEvolves(s, w, i, l, now, ms, j);
    case MakeRetryDueStep(w, i, now) => MakeRetryDueEvolves(s, w, i, now, j);
    case _ => DispatchStepEvolves(s, step, j);
  }

  /** Every step moves every job along the transition table. */
  lemma StepEvolves(s: Store, step: Step, j: Id)
    requires Consistent(s) && Admissible(s, step) && j in s.jobs
    ensures Evolves(s, Apply(s, step), j)
  {
    assert JobConsistent(s, j);
    if IsWorkerStep(step) {
      WorkerStepEvolves(s, step, j);
    } else if IsReconcilerStep(step) {
      ReconcilerStepEvolves(s, step, j);
    } else if IsOperatorStep(step) {
      OperatorStepEvolves(s, step, j);
    } else {
      RemainingStepEvolves(s, step, j);
    }
  }

  // ----- Runs -----

  lemma ContinuesTransitive(s: Store, t: Store, u: Store, j: Id)
    requires Continues(s, t, j) && Continues(t, u, j)
    ensures Continues(s, u, j)
  {
  }

  /** A row read once stays one that later transactions may rely on. */
  lemma RememberedStays(s: Store, t: Store, j: Id, seen: Job)
    requires Remembered(s, j, seen) && Continues(s, t, j)
    ensures Remembered(t, j, seen)
  {
  }

  lemma {:induction false} RunContinues(s: Store, steps: seq<Step>, j: Id)
    requires Consistent(s) && Legal(s, steps) && j in s.jobs
    ensures Continues(s, Execute(s, steps), j)
    decreases |steps|
  {
    if steps == [] {
      assert JobConsistent(s, j);
    } else {
      StepEvolves(s, steps[0], j);
      StepKeepsConsistent(s, steps[0]);
      RunContinues(Apply(s, steps[0]), steps[1..], j);
      ContinuesTransitive(s, Apply(s, steps[0]), Execute(s, steps), j);
    }
  }
}
