/**
 Transactions under interference. Between the read of a transaction and its version-guarded write, and
 between the separate reads of a sweep or of a delivery, any run of other transactions may fall.
 */
module JobRefinement {
  import opened Options
  import opened JobLifecycle
  import opened JobStore
  import opened JobTransactions
  import opened JobProtocol
  import opened JobEvolution

  // ----- Read, then guarded write -----

  /** A version that still stands means the row as it was read, up to the dispatch mark, which is written
      without moving the version. */
  lemma VersionDetectsChange(s0: Store, steps: seq<Step>, j: Id)
    requires Consistent(s0) && Legal(s0, steps) && j in s0.jobs
    ensures var s := Execute(s0, steps);
            && j in s.jobs && JobConsistent(s, j)
            && (StillCurrent(s, j, s0.jobs[j]) ==>
              && SameButMark(s0.jobs[j], s.jobs[j])
              && j in s0.outboxes && DeliveryKept(s0.outboxes[j], s.outboxes[j]))
  {
    RunContinues(s0, steps, j);
    RunKeepsConsistent(s0, steps);
    assert JobConsistent(Execute(s0, steps), j);
  }

  /** A claim that read the job earlier either claims the job as it now stands or changes nothing. */
  lemma ClaimRefines(s0: Store, steps: seq<Step>, w: Id, j: Id, l: Id, now: Time, ms: int)
    requires Consistent(s0) && Legal(s0, steps) && Owned(s0, w, j) && Claimable(s0.jobs[j])
    ensures var s, seen := Execute(s0, steps), s0.jobs[j];
            ClaimWrite(s, j, seen, l, now, ms) == if StillCurrent(s, j, seen) then ClaimJob(s, w, j, l, now, ms) else s
  {
    VersionDetectsChange(s0, steps, j);
    var s, seen := Execute(s0, steps), s0.jobs[j];
    if StillCurrent(s, j, seen) { ClaimFromSeen(s, w, j, seen, l, now, ms); }
  }

  lemma ClaimFromSeen(s: Store, w: Id, j: Id, seen: Job, l: Id, now: Time, ms: int)
    requires Owned(s, w, j) && SameButMark(seen, s.jobs[j]) && Claimable(seen)
    ensures ClaimWrite(s, j, seen, l, now, ms) == ClaimJob(s, w, j, l, now, ms)
  {
  }

  lemma HonourCancellationRefines(s0: Store, steps: seq<Step>, w: Id, j: Id, l: Id, at: Time)
    requires Consistent(s0) && Legal(s0, steps) && Holds(s0, w, j, l) && s0.jobs[j].cancellationRequestedAt.Some?
    ensures var s, seen := Execute(s0, steps), s0.jobs[j];
            CancellationWrite(s, j, seen, l, at) == if StillCurrent(s, j, seen) then HonourCancellation(s, w, j, l, at) else s
  {
    VersionDetectsChange(s0, steps, j);
  }

  lemma RequeueDueRetryRefines(s0: Store, steps: seq<Step>, w: Id, j: Id, now: Time)
    requires Consistent(s0) && Legal(s0, steps) && Owned(s0, w, j) && RetryDue(s0.jobs[j], now)
    ensures var s, seen := Execute(s0, steps), s0.jobs[j];
            RequeueRetryWrite(s, j, seen, now) == if StillCurrent(s, j, seen) then RequeueDueRetry(s, w, j, now) else s
  {
    VersionDetectsChange(s0, steps, j);
  }

  /** The stranded-delivery write checks nothing but the version, and that is enough. */
  lemma RequeueStrandedRefines(s0: Store, steps: seq<Step>, w: Id, j: Id, now: Time)
    requires Consistent(s0) && Legal(s0, steps) && Owned(s0, w, j) && Stranded(s0, j)
    ensures var s, seen := Execute(s0, steps), s0.jobs[j];
            RequeueStrandedWrite(s, j, seen, now) == if StillCurrent(s, j, seen) then RequeueStranded(s, w, j, now) else s
  {
    VersionDetectsChange(s0, steps, j);
  }

  /** A cancellation changes the rows as the atomic one would, or not at all. */
  lemma CancelRefines(s0: Store, steps: seq<Step>, j: Id, now: Time)
    requires Consistent(s0) && Legal(s0, steps) && j in s0.jobs && PlanCancel(s0.jobs[j]).Attempted?
    ensures var s, seen := Execute(s0, steps), s0.jobs[j];
            && CancelWrite(s, j, seen, now) == (if StillCurrent(s, j, seen) then CancelWrite(s, j, s.jobs[j], now) else None)
            && (StillCurrent(s, j, seen) ==> PlanCancel(s.jobs[j]) == PlanCancel(seen) && CancelWrite(s, j, seen, now).Some?)
  {
    VersionDetectsChange(s0, steps, j);
  }

  /** A manual retry whose write succeeds would have been admitted by the checks at the time of the write. */
  lemma RetryRefines(s0: Store, steps: seq<Step>, j: Id, met: bool, now: Time)
    requires Consistent(s0) && Legal(s0, steps) && j in s0.jobs && RetryRefusal(s0, j, s0.jobs[j], met).None?
    ensures var s, seen := Execute(s0, steps), s0.jobs[j];
            && RetryWrite(s, j, seen, now) == (if StillCurrent(s, j, seen) then RetryWrite(s, j, s.jobs[j], now) else None)
            && (StillCurrent(s, j, seen) ==> RetryRefusal(s, j, s.jobs[j], met).None? && RetryWrite(s, j, seen, now).Some?)
  {
    VersionDetectsChange(s0, steps, j);
    var s, seen := Execute(s0, steps), s0.jobs[j];
    if StillCurrent(s, j, seen) { RetryFromSeen(s, j, seen, met, now); }
  }

  lemma RetryFromSeen(s: Store, j: Id, seen: Job, met: bool, now: Time)
    requires j in s.jobs && JobConsistent(s, j) && SameButMark(seen, s.jobs[j]) && met
    requires seen.state == FailedAttention && seen.reconciliationCode.None? && RetryBudget(seen) <= MAX_ATTEMPTS_LIMIT
    ensures RetryWrite(s, j, seen, now) == RetryWrite(s, j, s.jobs[j], now) && RetryWrite(s, j, seen, now).Some?
    ensures RetryRefusal(s, j, s.jobs[j], met).None?
  {
  }

  function WithDispatch(s: Store, j: Id, d: DispatchStatus): Store
    requires j in s.jobs
  {
    s.(jobs := s.jobs[j := s.jobs[j].(dispatchStatus := d)])
  }

  /** Recovery is the exception: when it gives up on an exhausted job it writes back the dispatch status it
      read. It equals the atomic recovery in every other column, and in that one exactly when no mark fell
      in between or the job is not being given up. */
  lemma RecoverRefines(s0: Store, steps: seq<Step>, w: Id, j: Id, now: Time)
    requires Consistent(s0) && Legal(s0, steps) && Owned(s0, w, j) && LeaseLapsed(s0.jobs[j], now)
    ensures var s, seen := Execute(s0, steps), s0.jobs[j];
            var split, atomic := RecoverWrite(s, j, seen, now), RecoverLease(s, w, j, now);
            if !StillCurrent(s, j, seen) then split == s
            else
              && j in atomic.jobs
              && split == WithDispatch(atomic, j, if RecoveredState(seen) == FailedAttention then seen.dispatchStatus else atomic.jobs[j].dispatchStatus)
              && (split == atomic <==> RecoveredState(seen) != FailedAttention || s.jobs[j].dispatchStatus == seen.dispatchStatus)
  {
    VersionDetectsChange(s0, steps, j);
    var s, seen := Execute(s0, steps), s0.jobs[j];
    if StillCurrent(s, j, seen) { RecoverFromSeen(s, w, j, seen, now); }
  }

  lemma RecoverFromSeen(s: Store, w: Id, j: Id, seen: Job, now: Time)
    requires Owned(s, w, j) && JobConsistent(s, j) && SameButMark(seen, s.jobs[j]) && LeaseLapsed(seen, now)
    ensures var split, atomic := RecoverWrite(s, j, seen, now), RecoverLease(s, w, j, now);
            && j in atomic.jobs
            && split == WithDispatch(atomic, j, if RecoveredState(seen) == FailedAttention then seen.dispatchStatus else atomic.jobs[j].dispatchStatus)
            && (split == atomic <==> RecoveredState(seen) != FailedAttention || s.jobs[j].dispatchStatus == seen.dispatchStatus)
  {
    assert RecoveredRow(s.jobs[j], seen, now)
        == RecoveredRow(s.jobs[j], s.jobs[j], now).(dispatchStatus := RecoveredRow(s.jobs[j], seen, now).dispatchStatus);
    assert RecoverLease(s, w, j, now).jobs[j] == RecoveredRow(s.jobs[j], s.jobs[j], now);
    assert RecoverWrite(s, j, seen, now).jobs == s.jobs[j := RecoveredRow(s.jobs[j], seen, now)];
  }

  const UnmarkedDelivery := [EnqueueStep(1, 1, 1, 1, 1, 0), LeaseOutboxStep({1}, 10, 0, 30_000), ClaimStep(1, 1, 11, 1, 120_000)]

  /** The job after those steps. */
  const ClaimedUnmarked :=
    NewJob(1, 1, 1, 1, 0).(attemptCount := 1, heartbeatAt := Some(1), leaseExpiresAt := Some(120_001), leaseId := Some(11),
                           stage := "starting", state := Processing, version := 2)

  lemma UnmarkedDeliveryState()
    ensures Legal(EmptyStore, UnmarkedDelivery)
    ensures var s := Execute(EmptyStore, UnmarkedDelivery);
            && s.jobs == map[1 := ClaimedUnmarked]
            && s.outboxes == map[1 := Outbox(0, 1, Some(10), Some(30_000), None, None, None)]
            && HasActiveAttempt(s, 11)
  {
    var enqueue, lease, claim := UnmarkedDelivery[0], UnmarkedDelivery[1], UnmarkedDelivery[2];
    RunOfThree(EmptyStore, enqueue, lease, claim);
    assert UnmarkedDelivery == [enqueue, lease, claim];
    var a := Enqueue(EmptyStore, 1, 1, 1, 1, 1, 0);
    assert WithKey(EmptyStore, 1, 1) == {};
    assert a.jobs == map[1 := NewJob(1, 1, 1, 1, 0)] && a.outboxes == map[1 := FreshOutbox(0)];
    var b := LeaseOutbox(a, {1}, 10, 0, 30_000);
    assert b.outboxes == map[1 := Outbox(0, 1, Some(10), Some(30_000), None, None, None)];
  }

  /** The mark of the delivery, and the recovery that read the job before it. */
  const MarkThenRecovery := [MarkDispatchedStep(1, 10, 99, 2), RecoverWriteStep(1, ClaimedUnmarked, 200_000)]

  /** A run in which that happens: the message is delivered before the dispatcher marks it, the only attempt's
      lease lapses, and the mark falls between the recovery's read and its write. The failed job then says
      Pending although its outbox row says it was dispatched. */
  lemma StaleRecoveryHappens()
    ensures var s0 := Execute(EmptyStore, UnmarkedDelivery);
            var t := Execute(s0, MarkThenRecovery);
            && Legal(EmptyStore, UnmarkedDelivery) && Legal(s0, MarkThenRecovery)
            && 1 in s0.jobs && s0.jobs[1] == ClaimedUnmarked
            && 1 in t.jobs && 1 in t.outboxes && Drifted(t.jobs[1], t.outboxes[1])
  {
    UnmarkedDeliveryState();
    var s0 := Execute(EmptyStore, UnmarkedDelivery);
    var s := MarkDispatched(s0, 1, 10, 99, 2);
    MarkedThenRecovered(s0, s);
    var mark, recovery := MarkThenRecovery[0], MarkThenRecovery[1];
    assert MarkThenRecovery[1..] == [recovery];
    RunOfOne(s, recovery);
  }

  lemma MarkedThenRecovered(s0: Store, s: Store)
    requires s0.jobs == map[1 := ClaimedUnmarked] && s0.outboxes == map[1 := Outbox(0, 1, Some(10), Some(30_000), None, None, None)]
    requires HasActiveAttempt(s0, 11) && s == MarkDispatched(s0, 1, 10, 99, 2)
    ensures Remembered(s, 1, ClaimedUnmarked)
    ensures var t := RecoverWrite(s, 1, ClaimedUnmarked, 200_000); 1 in t.jobs && 1 in t.outboxes && Drifted(t.jobs[1], t.outboxes[1])
  {
    assert s.jobs[1] == ClaimedUnmarked.(dispatchStatus := Dispatched) && s.attempts == s0.attempts;
  }

  // ----- Separate reads of a delivery -----

  datatype DeliveryCheck = Proceed | AlreadySucceededCheck | IgnoredTerminal | ResultInconsistent | StateInconsistent

  /** What a delivery concludes from the job row it loaded and the result it then looked for. */
  function CheckDelivery(seen: Job, resultExists: bool): DeliveryCheck
  {
    if seen.state == Succeeded then (if resultExists then AlreadySucceededCheck else ResultInconsistent)
    else if seen.state == Cancelled || seen.state == FailedAttention then IgnoredTerminal
    else if resultExists then StateInconsistent
    else Proceed
  }

  /** The job is read in `s0` and the result in a later store. A missing result is never reported; a state
      inconsistency is reported exactly when the job succeeded in between, so it is always a false alarm. */
  lemma DeliveryChecksUnderInterference(s0: Store, steps: seq<Step>, j: Id)
    requires Consistent(s0) && Legal(s0, steps) && j in s0.jobs
    ensures var s := Execute(s0, steps);
            var check := CheckDelivery(s0.jobs[j], s.results[j] > 0);
            && j in s.jobs
            && check != ResultInconsistent
            && (check == StateInconsistent <==> !IsTerminal(s0.jobs[j].state) && s.jobs[j].state == Succeeded)
  {
    VersionDetectsChange(s0, steps, j);
    RunContinues(s0, steps, j);
  }

  // ----- What the result sweep writes -----

  /** A flag is one column, and a failed job that carries one is not retried by hand. */
  lemma FlagBlocksRetry(s: Store, w: Id, j: Id, code: FlagCode, met: bool)
    requires Owned(s, w, j)
    ensures var t := FlagAmbiguous(s, w, j, code);
            && t == s.(jobs := t.jobs) && t.jobs.Keys == s.jobs.Keys && (forall i | i in s.jobs && i != j :: t.jobs[i] == s.jobs[i])
            && t.jobs[j] == s.jobs[j].(reconciliationCode := Some(code), version := t.jobs[j].version)
            && (t.jobs[j].version == s.jobs[j].version + if s.jobs[j].reconciliationCode == Some(code) then 0 else 1)
            && (s.jobs[j].state == FailedAttention ==> RetryRefusal(t, j, t.jobs[j], met) == Some((Refused, ReconciliationRequired)))
  {
  }

  /** The repair of a committed result would complete the job, its attempt and its outbox row. */
  lemma RepairCompletes(s: Store, w: Id, j: Id, now: Time)
    requires Owned(s, w, j) && j in s.outboxes && JobShape(s.jobs[j]) && !IsTerminal(s.jobs[j].state) && s.jobs[j].cancellationRequestedAt.None?
    requires s.jobs[j].leaseId.Some? ==> HasActiveAttempt(s, s.jobs[j].leaseId.value)
    ensures var t, job := RepairCommittedResult(s, w, j, now), s.jobs[j];
            && t.jobs == s.jobs[j := job.(state := Succeeded, stage := "completed", completedAt := Some(now), heartbeatAt := Some(now),
                                          leaseId := None, leaseExpiresAt := None, nextAttemptAt := None, reconciliationCode := None,
                                          version := job.version + 1)]
            && JobShape(t.jobs[j])
            && t.outboxes == s.outboxes[j := s.outboxes[j].(cancelledAt := Some(now), leaseId := None, leaseExpiresAt := None)]
            && (if job.leaseId.None? then t.attempts == s.attempts
                else t.attempts == s.attempts[job.leaseId.value := s.attempts[job.leaseId.value].(
                                                state := AttemptSucceeded, stage := "completed", heartbeatAt := now,
                                                completedAt := Some(now), nextAttemptAt := None)])
  {
  }

  // ----- Separate reads of the result sweep -----

  datatype SweepAction = Nothing | FlagMissing | FlagConflict | TryRepair

  /** What the reconciler's result sweep does about a job it listed as `seen`, given the inspected result. */
  function SweepResult(seen: Job, present: bool): SweepAction
  {
    if !present then (if seen.state == Succeeded then FlagMissing else Nothing)
    else if seen.state == Succeeded then Nothing
    else if seen.state == FailedAttention || seen.cancellationRequestedAt.Some? then FlagConflict
    else TryRepair
  }

  /** The job is listed in `s0`, inspected after `steps` and acted on after `more`. A missing result is never
      flagged and an attempted repair never writes; a conflict is flagged exactly when a job listed as failed
      was retried and succeeded before the inspection. */
  lemma SweepUnderInterference(s0: Store, steps: seq<Step>, more: seq<Step>, j: Id, w: Id, now: Time)
    requires Consistent(s0) && Legal(s0, steps) && Legal(Execute(s0, steps), more) && j in s0.jobs
    ensures var s := Execute(s0, steps);
            var action := SweepResult(s0.jobs[j], s.results[j] > 0);
            && j in s.jobs
            && action != FlagMissing
            && (action == TryRepair ==> RepairCommittedResult(Execute(s, more), w, j, now) == Execute(s, more))
            && (action == FlagConflict <==> s0.jobs[j].state == FailedAttention && s.jobs[j].state == Succeeded)
  {
    var s := Execute(s0, steps);
    VersionDetectsChange(s0, steps, j);
    RunContinues(s0, steps, j);
    RunKeepsConsistent(s0, steps);
    VersionDetectsChange(s, more, j);
    RunContinues(s, more, j);
    assert JobConsistent(s0, j);
  }

  lemma RetryThenClaimable(s: Store, j: Id, op: Operator, now: Time)
    requires j in s.jobs && JobConsistent(s, j) && s.jobs[j].workspaceId == op.workspaceId
    requires RetryRefusal(s, j, s.jobs[j], true).None? && Authorise(s, op, RetryAction, now).Allowed?
    ensures var t := RetryJob(s, op, j, "", true, now);
            Owned(t, op.workspaceId, j) && Claimable(t.jobs[j]) && t.jobs[j].cancellationRequestedAt.None? && t.issued == s.issued
  {
  }

  lemma ClaimThenCommits(s: Store, w: Id, j: Id, l: Id, now: Time)
    requires Owned(s, w, j) && Claimable(s.jobs[j]) && s.jobs[j].cancellationRequestedAt.None? && l !in s.issued
    ensures var steps := [ClaimStep(w, j, l, now, 1), CommitSuccessStep(w, j, l, now)];
            Legal(s, steps) && Execute(s, steps).results[j] > 0
  {
    var claim, commit := ClaimStep(w, j, l, now, 1), CommitSuccessStep(w, j, l, now);
    var t := ClaimJob(s, w, j, l, now, 1);
    assert CommitSuccess(t, w, j, l, now).results[j] > 0;
    RunOfOne(t, commit);
    assert [claim, commit][1..] == [commit];
  }

  /** The false conflict does occur: any failed job an operator may retry can succeed before the inspection,
      and is then flagged although the store is consistent throughout. */
  lemma FalseConflictHappens(s0: Store, j: Id, op: Operator, l: Id, now: Time)
    returns (steps: seq<Step>)
    requires Consistent(s0) && j in s0.jobs && s0.jobs[j].workspaceId == op.workspaceId && l !in s0.issued
    requires RetryRefusal(s0, j, s0.jobs[j], true).None? && Authorise(s0, op, RetryAction, now).Allowed?
    ensures Legal(s0, steps) && Consistent(Execute(s0, steps))
    ensures SweepResult(s0.jobs[j], Execute(s0, steps).results[j] > 0) == FlagConflict
  {
    assert JobConsistent(s0, j);
    var w := op.workspaceId;
    var retry, rest := RetryStep(op, j, "", true, now), [ClaimStep(w, j, l, now, 1), CommitSuccessStep(w, j, l, now)];
    RetryThenClaimable(s0, j, op, now);
    RunOfOne(s0, retry);
    ClaimThenCommits(Execute(s0, [retry]), w, j, l, now);
    RunSplits(s0, [retry], rest);
    steps := [retry] + rest;
    RunKeepsConsistent(s0, steps);
  }
}
