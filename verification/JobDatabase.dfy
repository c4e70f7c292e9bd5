/**
 The shared tables, updated in place. Each method is one transaction written statement by statement, with
 its early answers; its contract ties the new tables to the transaction function and says what it answers.
 Every method keeps the tables consistent.
 */
module JobDatabase {
  import opened Options
  import opened JobLifecycle
  import opened JobRetry
  import opened JobStore
  import opened JobTransactions
  import opened JobProtocol
  import opened OperatorRate
  import opened JobRescue

  datatype ClaimResult = Claimed(leaseId: Id, attemptNumber: int, maxAttempts: int, jobCreatedAt: Time)
                       | Missing | WrongState(state: JobState) | AttemptsExhausted

  datatype CancellationCheck = LeaseLost | NotRequested | NowCancelled

  /** A key that is taken stands for exactly one job, and enqueueing it again changes nothing. */
  lemma TakenKeyChangesNothing(s: Store, j: Id, w: Id, key: Id, payload: Id, m: int, now: Time, winner: Id)
    requires Consistent(s) && winner in WithKey(s, w, key)
    ensures WithKey(s, w, key) == {winner} && Enqueue(s, j, w, key, payload, m, now) == s
  {
    forall i | i in WithKey(s, w, key) ensures i == winner && i in s.outboxes {
      assert i in s.jobs && winner in s.jobs;
    }
    assert (map i | i in WithKey(s, w, key) && i !in s.outboxes :: FreshOutbox(now)) + s.outboxes == s.outboxes;
  }

  lemma SomeMember(ids: set<Id>)
    ensures ids == {} || exists i :: i in ids
  {
    if forall i :: i !in ids {
      assert ids == {};
    }
  }

  // ----- What the contracts say, column by column -----

  /** A row nobody holds, whose time has come, that is neither dispatched nor cancelled. */
  predicate IsDue(box: Outbox, now: Time)
  {
    && box.dispatchedAt == None && box.cancelledAt == None && box.nextAttemptAt <= now
    && (box.leaseExpiresAt.Some? ==> box.leaseExpiresAt.value <= now)
  }

  /** The row asks for a delivery again, from now on. */
  function Redelivered(box: Outbox, now: Time): Outbox
  {
    Outbox(now, box.dispatchAttempts, None, None, None, None, None)
  }

  /** A failed job queued again, with room for at least one more attempt. */
  function Requeued(job: Job): Job
  {
    job.(state := Queued, stage := "queued", cancellationRequestedAt := None, completedAt := None, dispatchStatus := Pending,
         maxAttempts := if job.attemptCount == job.maxAttempts then job.attemptCount + 1 else job.maxAttempts,
         reconciliationCode := None, version := job.version + 1)
  }

  /** A recovery that took effect: a job with a cancellation request is cancelled, one whose attempts are used up
      has failed, and any other is queued and asks for a delivery again; its attempt is over and its lease gone. */
  ghost predicate Recovered(s: Store, t: Store, j: Id, seen: Job, now: Time)
  {
    && j in s.jobs && j in s.outboxes && s.jobs[j].leaseId.Some? && s.jobs[j].leaseId.value in s.attempts
    && var o, box, lease := s.jobs[j], s.outboxes[j], s.jobs[j].leaseId.value;
    && t.jobs.Keys == s.jobs.Keys && t == s.(jobs := t.jobs, attempts := t.attempts, outboxes := t.outboxes)
    && (forall i | i in s.jobs && i != j :: t.jobs[i] == s.jobs[i])
    && (t.jobs[j].state == Cancelled <==> o.cancellationRequestedAt.Some?)
    && (t.jobs[j].state == FailedAttention <==> o.cancellationRequestedAt.None? && o.attemptCount == o.maxAttempts)
    && (t.jobs[j].state == Queued <==> o.cancellationRequestedAt.None? && o.attemptCount < o.maxAttempts)
    && t.jobs[j] == o.(state := t.jobs[j].state, stage := t.jobs[j].stage, dispatchStatus := t.jobs[j].dispatchStatus,
                       completedAt := t.jobs[j].completedAt, leaseId := None, leaseExpiresAt := None, version := o.version + 1)
    && t.jobs[j].completedAt == (if t.jobs[j].state == Queued then None else Some(now))
    && t.jobs[j].stage == (if t.jobs[j].state == Cancelled then "cancelled" else if t.jobs[j].state == Queued then "queued" else "failed_attention")
    && t.jobs[j].dispatchStatus == (if t.jobs[j].state == Cancelled then DispatchCancelled
                                    else if t.jobs[j].state == Queued then Pending else seen.dispatchStatus)
    && t.attempts == s.attempts[lease := s.attempts[lease].(state := if t.jobs[j].state == Cancelled then AttemptCancelled else LeaseExpired,
                                                            completedAt := Some(now), nextAttemptAt := None)]
    && t.outboxes == s.outboxes[j := if t.jobs[j].state == Cancelled then box.(cancelledAt := Some(now), leaseId := None, leaseExpiresAt := None)
                                     else if t.jobs[j].state == Queued then Redelivered(box, now) else box]
  }

  /** A touch by the holder: the heartbeat is now on both rows, the lease ends when it is told to or as before, and the
      stage is the one given on both rows or as before; nothing else changes but the version. */
  ghost predicate Touched(s: Store, t: Store, j: Id, lease: Id, at: Time, expires: Option<Time>, stage: Option<string>)
  {
    && j in s.jobs && lease in s.attempts
    && var o, a := s.jobs[j], s.attempts[lease];
    t == s.(jobs := s.jobs[j := o.(heartbeatAt := Some(at), version := o.version + 1,
                                   leaseExpiresAt := if expires.None? then o.leaseExpiresAt else expires,
                                   stage := if stage.None? then o.stage else stage.value)],
            attempts := s.attempts[lease := a.(heartbeatAt := at, stage := if stage.None? then a.stage else stage.value)])
  }

  lemma TouchExactly(s: Store, w: Id, j: Id, lease: Id, at: Time, expires: Option<Time>, stage: Option<string>)
    requires Consistent(s)
    ensures if Holds(s, w, j, lease) then Touched(s, TouchLease(s, w, j, lease, at, expires, stage), j, lease, at, expires, stage)
            else TouchLease(s, w, j, lease, at, expires, stage) == s
  {
    if Holds(s, w, j, lease) { assert JobConsistent(s, j) && AttemptConsistent(s, lease); }
  }

  /** The key stands for other work exactly when the one job under it has another payload. */
  lemma ConflictExactly(s: Store, w: Id, key: Id, payload: Id, winner: Id)
    requires WithKey(s, w, key) == {winner}
    ensures (exists i | i in s.jobs :: s.jobs[i].workspaceId == w && s.jobs[i].key == key && s.jobs[i].payload != payload) <==>
            winner in s.jobs && s.jobs[winner].payload != payload
  {
    assert winner in WithKey(s, w, key);
    forall i | i in s.jobs && s.jobs[i].workspaceId == w && s.jobs[i].key == key ensures i == winner {
      assert i in WithKey(s, w, key);
    }
  }

  lemma RetriedIsRequeued(job: Job)
    requires JobShape(job)
    ensures RetriedRow(job, job) == Requeued(job)
  {
  }

  lemma ResetIsRedelivered(box: Outbox, now: Time)
    ensures ResetBox(box, now) == Redelivered(box, now)
  {
  }

  /** What a cancellation makes of a job it finds. */
  lemma PlanExactly(job: Job, box: Outbox, commits: nat)
    requires JobShape(job) && RowsAgree(job, box, commits)
    ensures var plan := PlanCancel(job);
            if job.cancellationRequestedAt.Some? then plan == Answer(AlreadyApplied, CancellationAlreadyApplied)
            else if job.state == Queued || job.state == RetryScheduled then plan == Attempted(JobCancelled)
            else if job.state == Processing && job.stage in ["starting", "loading_inputs", "validating_inputs"]
            then plan == Attempted(CancellationRequested)
            else plan == Answer(Refused, if job.state == Processing then StageNotCancellable else JobTerminal)
  {
  }

  /** An operator has queued the job again before. */
  predicate WasRetried(audit: seq<AuditEvent>, workspace: Id, j: Id)
  {
    exists i | 0 <= i < |audit| :: audit[i].action == RetryAction && audit[i].outcome == RetryQueued
                                   && audit[i].jobId == j && audit[i].workspaceId == workspace
  }

  /** Why a manual retry is refused: each answer exactly under its own conditions. */
  lemma RefusalExactly(s: Store, j: Id, met: bool)
    requires j in s.jobs && JobConsistent(s, j)
    ensures var refusal, job := RetryRefusal(s, j, s.jobs[j], met), s.jobs[j];
            var failed := job.state == FailedAttention;
            && (refusal == None <==> failed && job.reconciliationCode.None? && met && job.attemptCount < 100)
            && (refusal == Some((AlreadyApplied, RetryAlreadyQueued)) <==> job.state == Queued && WasRetried(s.audit, job.workspaceId, j))
            && (refusal == Some((Refused, JobNotFailedAttention)) <==> !failed && !(job.state == Queued && WasRetried(s.audit, job.workspaceId, j)))
            && (refusal == Some((Refused, ReconciliationRequired)) <==> failed && job.reconciliationCode.Some?)
            && (refusal == Some((Refused, PrerequisiteMissing)) <==> failed && job.reconciliationCode.None? && !met)
            && (refusal == Some((Refused, AttemptLimitReached)) <==>
                failed && job.reconciliationCode.None? && met && job.attemptCount == 100)
  {
    assert AlreadyRetried(s, s.jobs[j].workspaceId, j) <==> WasRetried(s.audit, s.jobs[j].workspaceId, j);
  }

  /** An operation leaves one event that says who asked for what, when, and the answer; a stranger leaves none. */
  ghost predicate Leaves(before: seq<AuditEvent>, after: seq<AuditEvent>, op: Operator, action: Action, j: Id, outcome: Outcome, now: Time)
  {
    if !op.authorised then after == before
    else exists reason :: after == before + [AuditEvent(action, op.id, op.workspaceId, now, outcome, reason, j)]
  }

  lemma RecoveryExactly(s: Store, j: Id, seen: Job, now: Time)
    requires Remembered(s, j, seen) && JobConsistent(s, j)
    ensures if s.jobs[j].version == seen.version && s.jobs[j].state == Processing && s.jobs[j].leaseExpiresAt.value <= now
            then Recovered(s, RecoverWrite(s, j, seen, now), j, seen, now)
            else RecoverWrite(s, j, seen, now) == s
  {
  }

  class Database {
    var jobs: map<Id, Job>
    var attempts: map<Id, Attempt>
    var outboxes: map<Id, Outbox>
    var results: multiset<Id>
    var audit: seq<AuditEvent>
    ghost var claims: map<Id, Claim>
    ghost var issued: set<Id>

    ghost function Contents(): Store
      reads this
    {
      Store(jobs, attempts, outboxes, results, audit, claims, issued)
    }

    ghost predicate Valid()
      reads this
    {
      Consistent(Contents())
    }

    constructor ()
      ensures Valid() && Contents() == EmptyStore
    {
      jobs, attempts, outboxes, results, audit, claims, issued := map[], map[], map[], multiset{}, [], map[], {};
      new;
      EmptyConsistent();
    }

    // ----- Enqueueing and dispatch -----

    /** Inserts unless the key is taken, reads the job back, and makes sure it has an outbox row. */
    method EnqueueBackgroundJob(jobId: Id, workspace: Id, key: Id, payload: Id, maxAttempts: int, now: Time)
      returns (job: Option<Id>)
      requires Valid() && jobId !in jobs
      modifies this`jobs, this`outboxes
      ensures Valid() && Contents() == Enqueue(old(Contents()), jobId, workspace, key, payload, maxAttempts, now)
      ensures job.Some? ==> job.value in jobs && jobs[job.value].workspaceId == workspace
                            && jobs[job.value].key == key && jobs[job.value].payload == payload
      ensures job.None? ==> Contents() == old(Contents())
      ensures job == Some(jobId) ==>
                && jobs == old(jobs)[jobId := Job(workspace, key, payload, now, Queued, "queued", Pending, 0, maxAttempts, 1,
                                                  None, None, None, None, None, None, None)]
                && outboxes == old(outboxes)[jobId := Outbox(now, 0, None, None, None, None, None)]
      ensures job.None? <==>
                (!(1 <= maxAttempts <= 100)
                 || exists i | i in old(jobs) :: old(jobs)[i].workspaceId == workspace && old(jobs)[i].key == key && old(jobs)[i].payload != payload)
      ensures job.Some? && job.value != jobId ==> job.value in old(jobs) && Contents() == old(Contents())
    {
      ghost var before := Contents();
      EnqueueKeeps(before, jobId, workspace, key, payload, maxAttempts, now);
      if maxAttempts < 1 || maxAttempts > MAX_ATTEMPTS_LIMIT {
        return None;
      }
      var winner := FindByKey(workspace, key);
      if winner.None? {
        InsertJob(jobId, workspace, key, payload, maxAttempts, now);
        return Some(jobId);
      }
      TakenKeyChangesNothing(before, jobId, workspace, key, payload, maxAttempts, now, winner.value);
      ConflictExactly(before, workspace, key, payload, winner.value);
      return if jobs[winner.value].payload != payload then None else winner;
    }

    method InsertJob(jobId: Id, workspace: Id, key: Id, payload: Id, maxAttempts: int, now: Time)
      requires jobId !in jobs && 1 <= maxAttempts <= 100 && WithKey(Contents(), workspace, key) == {}
      modifies this`jobs, this`outboxes
      ensures Contents() == Enqueue(old(Contents()), jobId, workspace, key, payload, maxAttempts, now)
      ensures jobs == old(jobs)[jobId := Job(workspace, key, payload, now, Queued, "queued", Pending, 0, maxAttempts, 1,
                                             None, None, None, None, None, None, None)]
      ensures outboxes == old(outboxes)[jobId := Outbox(now, 0, None, None, None, None, None)]
      ensures forall i | i in old(jobs) && old(jobs)[i].workspaceId == workspace :: old(jobs)[i].key != key
    {
      assert forall i | i in jobs && jobs[i].workspaceId == workspace && jobs[i].key == key :: i in WithKey(Contents(), workspace, key);
      jobs := jobs[jobId := NewJob(workspace, key, payload, maxAttempts, now)];
      outboxes := outboxes[jobId := FreshOutbox(now)];
    }

    method FindByKey(workspace: Id, key: Id) returns (job: Option<Id>)
      ensures job.None? ==> WithKey(Contents(), workspace, key) == {}
      ensures job.Some? ==> job.value in WithKey(Contents(), workspace, key)
    {
      var same := set i | i in jobs && jobs[i].workspaceId == workspace && jobs[i].key == key;
      assert same == WithKey(Contents(), workspace, key);
      if same == {} {
        return None;
      }
      SomeMember(same);
      var winner :| winner in same;
      return Some(winner);
    }

    /** Leases due rows one by one until the batch is full or nothing is due. */
    method LeasePendingOutbox(lease: Id, now: Time, leaseMs: int, batchSize: nat)
      returns (leased: set<Id>)
      requires Valid() && lease !in issued
      modifies this`outboxes, this`issued
      ensures Valid() && Contents() == LeaseOutbox(old(Contents()), leased, lease, now, leaseMs)
      ensures |leased| <= batchSize
      ensures forall j | j in leased :: j in old(outboxes) && IsDue(old(outboxes)[j], now)
      ensures |leased| < batchSize ==> forall j | j in old(outboxes) && IsDue(old(outboxes)[j], now) :: j in leased
      ensures forall j | j in outboxes && j !in leased :: j in old(outboxes) && outboxes[j] == old(outboxes)[j]
      ensures forall j | j in leased :: j in outboxes && outboxes[j].leaseId == Some(lease) && outboxes[j].leaseExpiresAt == Some(now + leaseMs)
    {
      ghost var before := Contents();
      leased := LeaseDueRows(lease, now, leaseMs, batchSize);
      issued := issued + {lease};
      LeaseOutboxKeeps(before, leased, lease, now, leaseMs);
    }

    method LeaseDueRows(lease: Id, now: Time, leaseMs: int, batchSize: nat)
      returns (leased: set<Id>)
      modifies this`outboxes
      ensures |leased| <= batchSize
      ensures forall j | j in leased :: j in old(outboxes) && IsDue(old(outboxes)[j], now)
      ensures |leased| < batchSize ==> forall j | j in old(outboxes) && IsDue(old(outboxes)[j], now) :: j in leased
      ensures outboxes == LeaseOutbox(old(Contents()), leased, lease, now, leaseMs).outboxes
      ensures outboxes.Keys == old(outboxes).Keys
      ensures forall j | j in outboxes ::
                outboxes[j] == if j in leased
                               then old(outboxes)[j].(leaseId := Some(lease), leaseExpiresAt := Some(now + leaseMs),
                                                      dispatchAttempts := old(outboxes)[j].dispatchAttempts + 1)
                               else old(outboxes)[j]
    {
      var before := outboxes;
      leased := {};
      var due := set j | j in outboxes && Leasable(outboxes[j], now);
      while due != {} && |leased| < batchSize
        invariant |leased| <= batchSize && leased !! due
        invariant forall j | j in leased || j in due :: j in before && Leasable(before[j], now)
        invariant forall j | j in before && Leasable(before[j], now) :: j in leased || j in due
        invariant outboxes.Keys == before.Keys
        invariant forall j | j in before ::
                    outboxes[j] == if j in leased then LeasedBox(before[j], lease, now, leaseMs) else before[j]
        decreases due
      {
        SomeMember(due);
        var j :| j in due;
        outboxes := outboxes[j := LeasedBox(outboxes[j], lease, now, leaseMs)];
        due := due - {j};
        leased := leased + {j};
      }
      ghost var after := LeaseOutbox(old(Contents()), leased, lease, now, leaseMs).outboxes;
      assert forall j | j in after :: outboxes[j] == after[j];
      assert outboxes == after;
    }

    /** One leased record: publish, then mark; or release it for a later attempt when publishing fails. */
    method DispatchOutboxRecord(job: Id, lease: Id, published: Option<Id>, now: Time, failureDelayMs: int)
      returns (dispatched: bool)
      requires Valid()
      modifies this`jobs, this`outboxes
      ensures Valid()
      ensures dispatched == published.Some?
      ensures Contents() == if published.Some? then MarkDispatched(old(Contents()), job, lease, published.value, now)
                            else ReleaseOutbox(old(Contents()), job, lease, now + failureDelayMs)
    {
      if published.Some? {
        MarkOutboxDispatched(job, lease, published.value, now);
      } else {
        ReleaseOutboxRecord(job, lease, now + failureDelayMs);
      }
      dispatched := published.Some?;
    }

    method MarkOutboxDispatched(job: Id, lease: Id, delivery: Id, now: Time)
      requires Valid()
      modifies this`jobs, this`outboxes
      ensures Valid() && Contents() == MarkDispatched(old(Contents()), job, lease, delivery, now)
      ensures if job in old(outboxes) && old(outboxes)[job].leaseId == Some(lease)
              then && outboxes == old(outboxes)[job := old(outboxes)[job].(dispatchedAt := Some(now), deliveryId := Some(delivery),
                                                                           leaseId := None, leaseExpiresAt := None)]
                   && job in old(jobs) && jobs == old(jobs)[job := old(jobs)[job].(dispatchStatus := Dispatched)]
              else Contents() == old(Contents())
    {
      if job in outboxes { assert JobConsistent(Contents(), job); }
      MarkDispatchedKeeps(Contents(), job, lease, delivery, now);
      if job in outboxes && outboxes[job].leaseId == Some(lease) && outboxes[job].dispatchedAt.None? && outboxes[job].cancelledAt.None? {
        outboxes := outboxes[job := MarkedBox(outboxes[job], delivery, now)];
        jobs := jobs[job := jobs[job].(dispatchStatus := Dispatched)];
      }
    }

    method ReleaseOutboxRecord(job: Id, lease: Id, retryAt: Time)
      requires Valid()
      modifies this`outboxes
      ensures Valid() && Contents() == ReleaseOutbox(old(Contents()), job, lease, retryAt)
      ensures if job in old(outboxes) && old(outboxes)[job].leaseId == Some(lease)
              then outboxes == old(outboxes)[job := old(outboxes)[job].(leaseId := None, leaseExpiresAt := None, nextAttemptAt := retryAt)]
              else Contents() == old(Contents())
    {
      if job in outboxes { assert JobConsistent(Contents(), job); }
      ReleaseOutboxKeeps(Contents(), job, lease, retryAt);
      if job in outboxes && outboxes[job].leaseId == Some(lease) && outboxes[job].dispatchedAt.None? && outboxes[job].cancelledAt.None? {
        outboxes := outboxes[job := ReleasedBox(outboxes[job], retryAt)];
      }
    }

    // ----- Worker transactions -----

    method ClaimBackgroundJob(workspace: Id, job: Id, lease: Id, now: Time, leaseMs: int) returns (r: ClaimResult)
      requires Valid() && lease !in issued
      modifies this`jobs, this`attempts, this`claims, this`issued
      ensures Valid() && Contents() == ClaimJob(old(Contents()), workspace, job, lease, now, leaseMs)
      ensures r.Claimed? <==> Contents() != old(Contents())
      ensures r.Claimed? <==> Owned(old(Contents()), workspace, job) && old(jobs)[job].state == Queued
      ensures r.Claimed? ==> Holds(Contents(), workspace, job, lease) && HasActiveAttempt(Contents(), lease) && lease in claims
                             && r == Claimed(lease, jobs[job].attemptCount, jobs[job].maxAttempts, jobs[job].createdAt)
      ensures r.WrongState? ==> job in jobs && r.state == jobs[job].state != Queued
      ensures r.Claimed? ==>
                && jobs == old(jobs)[job := old(jobs)[job].(state := Processing, stage := "starting", attemptCount := old(jobs)[job].attemptCount + 1,
                                                            leaseId := Some(lease), leaseExpiresAt := Some(now + leaseMs),
                                                            heartbeatAt := Some(now), version := old(jobs)[job].version + 1)]
                && attempts == old(attempts)[lease := Attempt(workspace, job, jobs[job].attemptCount, Active, "starting", now, None, None)]
    {
      ClaimKeeps(Contents(), workspace, job, lease, now, leaseMs);
      if job !in jobs || jobs[job].workspaceId != workspace {
        return Missing;
      }
      assert JobConsistent(Contents(), job);
      var seen := jobs[job];
      if seen.state != Queued {
        return WrongState(seen.state);
      }
      ClaimRow(job, seen, lease, now, leaseMs);
      return Claimed(lease, seen.attemptCount + 1, seen.maxAttempts, seen.createdAt);
    }

    method ClaimRow(job: Id, seen: Job, lease: Id, now: Time, leaseMs: int)
      requires job in jobs && jobs[job] == seen && Claimable(seen)
      modifies this`jobs, this`attempts, this`claims, this`issued
      ensures Contents() == ClaimWrite(old(Contents()), job, seen, lease, now, leaseMs)
      ensures jobs == old(jobs)[job := seen.(state := Processing, stage := "starting", attemptCount := seen.attemptCount + 1,
                                             leaseId := Some(lease), leaseExpiresAt := Some(now + leaseMs),
                                             heartbeatAt := Some(now), version := seen.version + 1)]
      ensures attempts == old(attempts)[lease := Attempt(seen.workspaceId, job, seen.attemptCount + 1, Active, "starting", now, None, None)]
      ensures lease in claims
    {
      jobs := jobs[job := ClaimedRow(seen, lease, now, leaseMs)];
      attempts := attempts[lease := NewAttempt(seen, job, now)];
      claims := claims[lease := Claim(job, seen.attemptCount + 1, seen.maxAttempts, seen.createdAt)];
      issued := issued + {lease};
    }

    /** The shared body of heartbeats and stage records: job row, attempt row, or neither. */
    method UpdateActiveAttempt(workspace: Id, job: Id, lease: Id, at: Time, expires: Option<Time>, stage: Option<string>)
      returns (held: bool)
      requires Valid()
      modifies this`jobs, this`attempts
      ensures Valid() && Contents() == TouchLease(old(Contents()), workspace, job, lease, at, expires, stage)
      ensures held <==> Holds(old(Contents()), workspace, job, lease)
      ensures held ==> Touched(old(Contents()), Contents(), job, lease, at, expires, stage)
      ensures !held ==> Contents() == old(Contents())
    {
      TouchLeaseKeeps(Contents(), workspace, job, lease, at, expires, stage);
      TouchExactly(Contents(), workspace, job, lease, at, expires, stage);
      var jobsBefore := jobs;
      var jobCount, attemptCount := 0, 0;
      if job in jobs && jobs[job].leaseId == Some(lease) && jobs[job].state == Processing && jobs[job].workspaceId == workspace {
        assert JobConsistent(Contents(), job) && AttemptConsistent(Contents(), lease);
        jobs := jobs[job := TouchedRow(jobs[job], at, expires, stage)];
        jobCount := 1;
      }
      if lease in attempts && attempts[lease].state == Active && attempts[lease].workspaceId == workspace {
        attemptCount := 1;
      }
      if jobCount != 1 || attemptCount != 1 {
        jobs := jobsBefore;
        return false;
      }
      attempts := attempts[lease := TouchedAttempt(attempts[lease], at, stage)];
      return true;
    }

    /** A heartbeat moves the end of the lease to `leaseMs` from now. */
    method HeartbeatBackgroundJob(workspace: Id, job: Id, lease: Id, now: Time, leaseMs: int) returns (held: bool)
      requires Valid()
      modifies this`jobs, this`attempts
      ensures Valid() && Contents() == Heartbeat(old(Contents()), workspace, job, lease, now, leaseMs)
      ensures held <==> Holds(old(Contents()), workspace, job, lease)
      ensures held ==>
                && Holds(Contents(), workspace, job, lease) && jobs[job].leaseExpiresAt == Some(now + leaseMs) && jobs[job].heartbeatAt == Some(now)
                && jobs[job].stage == old(jobs)[job].stage && jobs[job].attemptCount == old(jobs)[job].attemptCount
                && lease in attempts && attempts[lease].heartbeatAt == now && attempts[lease].number == jobs[job].attemptCount
    {
      if job in jobs && jobs[job].leaseId == Some(lease) { assert JobConsistent(Contents(), job); }
      held := UpdateActiveAttempt(workspace, job, lease, now, Some(now + leaseMs), None);
    }

    /** A stage record names the stage on both rows and leaves the lease as it is. */
    method RecordBackgroundJobStage(workspace: Id, job: Id, lease: Id, stage: string, now: Time) returns (held: bool)
      requires Valid()
      modifies this`jobs, this`attempts
      ensures Valid() && Contents() == RecordStage(old(Contents()), workspace, job, lease, stage, now)
      ensures held <==>
                && Holds(old(Contents()), workspace, job, lease) && 1 <= |stage| <= 64 && 'a' <= stage[0] <= 'z'
                && forall i | 1 <= i < |stage| :: 'a' <= stage[i] <= 'z' || '0' <= stage[i] <= '9' || stage[i] == '_'
      ensures held ==>
                && Holds(Contents(), workspace, job, lease) && jobs[job].leaseExpiresAt == old(jobs)[job].leaseExpiresAt
                && lease in attempts && jobs[job].stage == attempts[lease].stage == stage
      ensures !held ==> Contents() == old(Contents())
    {
      held := false;
      if IsSafeStage(stage) {
        held := UpdateActiveAttempt(workspace, job, lease, now, None, Some(stage));
      }
    }

    method ThrowIfCancellationRequested(workspace: Id, job: Id, lease: Id, at: Time) returns (r: CancellationCheck)
      requires Valid()
      modifies this`jobs, this`attempts, this`outboxes
      ensures Valid() && Contents() == HonourCancellation(old(Contents()), workspace, job, lease, at)
      ensures r == LeaseLost <==> !Holds(old(Contents()), workspace, job, lease)
      ensures r == NowCancelled ==> old(jobs[job].cancellationRequestedAt.Some?) && jobs[job].state == Cancelled
      ensures r != NowCancelled ==> Contents() == old(Contents())
      ensures r == NotRequested ==> Holds(Contents(), workspace, job, lease) && jobs[job].cancellationRequestedAt.None?
      ensures r == NowCancelled ==>
                && jobs == old(jobs)[job := old(jobs)[job].(state := Cancelled, stage := "cancelled", dispatchStatus := DispatchCancelled,
                                                            leaseId := None, leaseExpiresAt := None, heartbeatAt := Some(at), nextAttemptAt := None,
                                                            completedAt := Some(at), reconciliationCode := None, version := old(jobs)[job].version + 1)]
                && lease in old(attempts)
                && attempts == old(attempts)[lease := old(attempts)[lease].(state := AttemptCancelled, stage := "cancelled", heartbeatAt := at,
                                                                            completedAt := Some(at), nextAttemptAt := None)]
                && job in old(outboxes)
                && outboxes == old(outboxes)[job := old(outboxes)[job].(cancelledAt := Some(at), leaseId := None, leaseExpiresAt := None)]
    {
      HonourCancellationKeeps(Contents(), workspace, job, lease, at);
      if !(job in jobs && jobs[job].leaseId == Some(lease) && jobs[job].state == Processing && jobs[job].workspaceId == workspace) {
        return LeaseLost;
      }
      assert JobConsistent(Contents(), job) && AttemptConsistent(Contents(), lease);
      if jobs[job].cancellationRequestedAt.None? {
        return NotRequested;
      }
      jobs := jobs[job := HonouredRow(jobs[job], at)];
      attempts := attempts[lease := ClosedAttempt(attempts[lease], AttemptCancelled, at, None, Some("cancelled"))];
      outboxes := outboxes[job := CancelledBox(outboxes[job], at)];
      return NowCancelled;
    }

    /** State, result and attempt in one transaction, refused after a lost lease or a cancellation request.
        Once the job row has matched, the attempt update matches too, so the later check never rolls back. */
    method CommitJobSuccess(workspace: Id, job: Id, lease: Id, at: Time) returns (committed: bool)
      requires Valid()
      modifies this`jobs, this`attempts, this`results
      ensures Valid() && Contents() == CommitSuccess(old(Contents()), workspace, job, lease, at)
      ensures committed <==> Holds(old(Contents()), workspace, job, lease) && old(jobs[job].cancellationRequestedAt).None?
      ensures committed ==> jobs[job].state == Succeeded && results[job] == 1 && old(results)[job] == 0
      ensures committed ==>
                && jobs == old(jobs)[job := old(jobs)[job].(state := Succeeded, stage := "completed", leaseId := None, leaseExpiresAt := None,
                                                            heartbeatAt := Some(at), completedAt := Some(at), version := old(jobs)[job].version + 1)]
                && lease in old(attempts)
                && attempts == old(attempts)[lease := old(attempts)[lease].(state := AttemptSucceeded, stage := "completed", heartbeatAt := at,
                                                                            completedAt := Some(at), nextAttemptAt := None)]
                && results == old(results) + multiset{job}
      ensures !committed ==> Contents() == old(Contents())
    {
      CommitSuccessKeeps(Contents(), workspace, job, lease, at);
      if !(job in jobs && jobs[job].leaseId == Some(lease) && jobs[job].state == Processing && jobs[job].workspaceId == workspace
           && jobs[job].cancellationRequestedAt.None?) {
        return false;
      }
      assert JobConsistent(Contents(), job) && AttemptConsistent(Contents(), lease);
      jobs := jobs[job := SucceededRow(jobs[job], at)];
      results := results + multiset{job};
      assert HasActiveAttempt(Contents(), lease);
      attempts := attempts[lease := ClosedAttempt(attempts[lease], AttemptSucceeded, at, None, Some("completed"))];
      return true;
    }

    /** The failure path of a worker, deciding from what its claim returned. */
    method SettleHandlerFailure(workspace: Id, job: Id, claim: ClaimResult, failure: Failure, random: real, now: Time)
      returns (decision: Option<Decision>)
      requires Valid() && claim.Claimed?
      requires claim.leaseId in claims && claims[claim.leaseId] == Claim(job, claim.attemptNumber, claim.maxAttempts, claim.jobCreatedAt)
      modifies this`jobs, this`attempts
      ensures Valid() && Contents() == SettleFailure(old(Contents()), workspace, job, claim.leaseId, failure, random, now)
      ensures decision.Some? <==> Holds(old(Contents()), workspace, job, claim.leaseId) && old(jobs[job].cancellationRequestedAt).None?
      ensures decision.Some? ==> decision.value == DecideJobRetry(claim.attemptNumber, claim.maxAttempts, failure, claim.jobCreatedAt, now, random)
      ensures decision.Some? ==>
                var retry, at := decision.value.Retry?, if decision.value.Retry? then Some(decision.value.nextAttemptAt) else None;
                && jobs == old(jobs)[job := old(jobs)[job].(state := if retry then RetryScheduled else FailedAttention,
                                                            stage := if retry then "retry_scheduled" else "failed_attention",
                                                            leaseId := None, leaseExpiresAt := None, heartbeatAt := Some(now), nextAttemptAt := at,
                                                            completedAt := if retry then None else Some(now), version := old(jobs)[job].version + 1)]
                && claim.leaseId in old(attempts)
                && attempts == old(attempts)[claim.leaseId := old(attempts)[claim.leaseId].(
                                               state := if retry then AttemptRetryScheduled else AttemptFailed, completedAt := Some(now), nextAttemptAt := at,
                                               stage := if retry then "retry_scheduled" else "failed_attention", heartbeatAt := now)]
      ensures decision.None? ==> Contents() == old(Contents())
    {
      SettleFailureKeeps(Contents(), workspace, job, claim.leaseId, failure, random, now);
      var lease := claim.leaseId;
      var d := DecideJobRetry(claim.attemptNumber, claim.maxAttempts, failure, claim.jobCreatedAt, now, random);
      if !(job in jobs && jobs[job].leaseId == Some(lease) && jobs[job].state == Processing && jobs[job].workspaceId == workspace
           && jobs[job].cancellationRequestedAt.None?) {
        return None;
      }
      assert JobConsistent(Contents(), job) && AttemptConsistent(Contents(), lease);
      jobs := jobs[job := FailedRow(jobs[job], d, now)];
      attempts := attempts[lease := ClosedAttempt(attempts[lease], if d.Retry? then AttemptRetryScheduled else AttemptFailed, now, RetryTime(d),
                                                 Some(FailedStage(d)))];
      return Some(d);
    }

    method MakeBackgroundJobRetryDue(workspace: Id, job: Id, now: Time) returns (released: bool)
      requires Valid()
      modifies this`jobs
      ensures Valid() && Contents() == MakeRetryDue(old(Contents()), workspace, job, now)
      ensures released <==>
                job in old(jobs) && old(jobs)[job].workspaceId == workspace && old(jobs)[job].state == RetryScheduled
                && old(jobs)[job].nextAttemptAt.value <= now
      ensures jobs == if released then old(jobs)[job := old(jobs)[job].(state := Queued, stage := "queued", nextAttemptAt := None,
                                                                        version := old(jobs)[job].version + 1)]
                      else old(jobs)
    {
      if job in jobs { assert JobConsistent(Contents(), job); }
      MakeRetryDueKeeps(Contents(), workspace, job, now);
      if job in jobs && jobs[job].workspaceId == workspace && jobs[job].state == RetryScheduled
         && jobs[job].nextAttemptAt.Some? && jobs[job].nextAttemptAt.value <= now
      {
        jobs := jobs[job := ReleasedRow(jobs[job])];
        return true;
      }
      return false;
    }

    // ----- Reconciliation -----

    method RecoverExpiredLease(workspace: Id, job: Id, now: Time) returns (recovered: bool)
      requires Valid()
      modifies this`jobs, this`attempts, this`outboxes
      ensures Valid() && Contents() == RecoverLease(old(Contents()), workspace, job, now)
      ensures recovered <==>
                job in old(jobs) && old(jobs)[job].workspaceId == workspace && old(jobs)[job].state == Processing
                && old(jobs)[job].leaseExpiresAt.value <= now
      ensures recovered ==> job in old(jobs) && Recovered(old(Contents()), Contents(), job, old(jobs)[job], now)
      ensures !recovered ==> Contents() == old(Contents())
    {
      if job in jobs { assert JobConsistent(Contents(), job); }
      if !(job in jobs && jobs[job].workspaceId == workspace && jobs[job].state == Processing
           && jobs[job].leaseExpiresAt.Some? && jobs[job].leaseExpiresAt.value <= now) {
        return false;
      }
      assert JobConsistent(Contents(), job);
      recovered := RecoverFromRead(job, jobs[job], now);
    }

    /** The write half of a recovery, with the row `seen` that it read: between the two, other transactions may
        have run. */
    method RecoverFromRead(job: Id, seen: Job, now: Time) returns (recovered: bool)
      requires Valid() && Remembered(Contents(), job, seen)
      modifies this`jobs, this`attempts, this`outboxes
      ensures Valid() && Contents() == RecoverWrite(old(Contents()), job, seen, now)
      ensures recovered <==>
                old(jobs)[job].version == seen.version && old(jobs)[job].state == Processing && old(jobs)[job].leaseExpiresAt.value <= now
      ensures recovered ==> Recovered(old(Contents()), Contents(), job, seen, now)
      ensures !recovered ==> Contents() == old(Contents())
    {
      assert JobConsistent(Contents(), job);
      RecoveryExactly(Contents(), job, seen, now);
      RecoverWriteKeeps(Contents(), job, seen, now);
      if !(LeaseLapsed(jobs[job], now) && jobs[job].version == seen.version) {
        return false;
      }
      assert JobConsistent(Contents(), job) && AttemptConsistent(Contents(), jobs[job].leaseId.value);
      WriteRecovery(job, seen, now);
      return true;
    }

    method WriteRecovery(job: Id, seen: Job, now: Time)
      requires job in jobs && LeaseLapsed(jobs[job], now) && job in outboxes
      requires seen.cancellationRequestedAt.None? ==> outboxes[job].cancelledAt.None?
      requires jobs[job].version == seen.version && jobs[job].leaseId == seen.leaseId && jobs[job].workspaceId == seen.workspaceId
      requires HasActiveAttempt(Contents(), jobs[job].leaseId.value)
      modifies this`jobs, this`attempts, this`outboxes
      ensures Contents() == RecoverWrite(old(Contents()), job, seen, now)
    {
      var lease := jobs[job].leaseId.value;
      var next := RecoveredState(seen);
      jobs := jobs[job := RecoveredRow(jobs[job], seen, now)];
      attempts := attempts[lease := ClosedAttempt(attempts[lease], if next == Cancelled then AttemptCancelled else LeaseExpired, now, None, None)];
      if next == Cancelled {
        outboxes := outboxes[job := CancelledBox(outboxes[job], now)];
      } else if next == Queued {
        outboxes := outboxes[job := ResetBox(outboxes[job], now)];
      }
    }

    method RequeueDueRetryJob(workspace: Id, job: Id, now: Time) returns (requeued: bool)
      requires Valid()
      modifies this`jobs, this`outboxes
      ensures Valid() && Contents() == RequeueDueRetry(old(Contents()), workspace, job, now)
      ensures requeued <==>
                job in old(jobs) && old(jobs)[job].workspaceId == workspace && old(jobs)[job].state == RetryScheduled
                && old(jobs)[job].nextAttemptAt.value <= now
      ensures requeued ==>
                && jobs == old(jobs)[job := old(jobs)[job].(state := Queued, stage := "queued", nextAttemptAt := None, dispatchStatus := Pending,
                                                            version := old(jobs)[job].version + 1)]
                && job in old(outboxes) && outboxes == old(outboxes)[job := Redelivered(old(outboxes)[job], now)]
      ensures !requeued ==> Contents() == old(Contents())
    {
      if job in jobs { assert JobConsistent(Contents(), job); }
      RequeueDueRetryKeeps(Contents(), workspace, job, now);
      if !(job in jobs && jobs[job].workspaceId == workspace && RetryDue(jobs[job], now)) {
        return false;
      }
      jobs := jobs[job := ReleasedRow(jobs[job]).(dispatchStatus := Pending)];
      outboxes := outboxes[job := ResetBox(outboxes[job], now)];
      return true;
    }

    method RequeueStrandedDelivery(workspace: Id, job: Id, now: Time) returns (requeued: bool)
      requires Valid()
      modifies this`jobs, this`outboxes
      ensures Valid() && Contents() == RequeueStranded(old(Contents()), workspace, job, now)
      ensures requeued <==>
                job in old(jobs) && old(jobs)[job].workspaceId == workspace && old(jobs)[job].state == Queued
                && job in old(outboxes) && old(outboxes)[job].dispatchedAt.Some?
      ensures requeued ==>
                && jobs == old(jobs)[job := old(jobs)[job].(dispatchStatus := Pending, version := old(jobs)[job].version + 1)]
                && outboxes == old(outboxes)[job := Redelivered(old(outboxes)[job], now)]
      ensures !requeued ==> Contents() == old(Contents())
    {
      if job in jobs { assert JobConsistent(Contents(), job); }
      RequeueStrandedKeeps(Contents(), workspace, job, now);
      if !(job in jobs && jobs[job].workspaceId == workspace && jobs[job].leaseId.None? && jobs[job].state == Queued
           && outboxes[job].cancelledAt.None? && outboxes[job].dispatchedAt.Some?) {
        return false;
      }
      jobs := jobs[job := jobs[job].(dispatchStatus := Pending, version := jobs[job].version + 1)];
      outboxes := outboxes[job := ResetBox(outboxes[job], now)];
      return true;
    }

    // ----- Operators -----

    /** Appends the record of an operator action. */
    method Record(op: Operator, action: Action, job: Id, outcome: Outcome, reason: Reason, now: Time)
      requires Valid()
      modifies this`audit
      ensures Valid() && Contents() == Audited(old(Contents()), op, action, job, outcome, reason, now)
      ensures audit == old(audit) + [AuditEvent(action, op.id, op.workspaceId, now, outcome, reason, job)]
    {
      AuditKeeps(Contents(), audit + [AuditEvent(action, op.id, op.workspaceId, now, outcome, reason, job)]);
      audit := audit + [AuditEvent(action, op.id, op.workspaceId, now, outcome, reason, job)];
    }

    /** An operation is allowed exactly for an authorised administrator with fewer recent events than the limit;
        every other answer but that to a stranger is recorded. */
    method AuthoriseOperation(op: Operator, action: Action, now: Time) returns (guard: Guard)
      ensures guard == Authorise(Contents(), op, action, now)
      ensures guard.Allowed? <==>
                op.authorised && op.admin
                && |RecentEvents(audit, action, op.id, op.workspaceId, now - 60_000)| < (match action case CancelAction => 10 case RetryAction => 5)
      ensures guard.Denied? ==> (guard.audited <==> op.authorised) && (guard.outcome == RateLimited <==> op.authorised && op.admin)
    {
      if !op.authorised {
        return Denied(Refused, OperatorNotAuthorised, false);
      }
      if !op.admin {
        return Denied(Refused, AdminRequired, true);
      }
      var since, recent := now - OPERATION_WINDOW_MS, 0;
      for i := 0 to |audit|
        invariant recent == CountRecent(audit[..i], action, op.id, op.workspaceId, since)
      {
        assert audit[..i + 1][..i] == audit[..i];
        if Counted(audit[i], action, op.id, op.workspaceId, since) { recent := recent + 1; }
      }
      assert audit[..|audit|] == audit;
      CountRecentIsSet(audit, action, op.id, op.workspaceId, since);
      return if recent >= OperationLimit(action) then Denied(RateLimited, OperatorRateLimited, true) else Allowed;
    }

    method CancelBackgroundJob(op: Operator, job: Id, code: string, now: Time) returns (outcome: Outcome)
      requires Valid()
      modifies this`jobs, this`outboxes, this`audit
      ensures Valid() && Contents() == CancelJob(old(Contents()), op, job, code, now)
      ensures var allowed := Authorise(old(Contents()), op, CancelAction, now).Allowed?;
              var found := allowed && job in old(jobs) && old(jobs)[job].workspaceId == op.workspaceId;
              && (outcome == NotFound <==> allowed && !found)
              && (outcome == AlreadyApplied <==> found && old(jobs)[job].cancellationRequestedAt.Some?)
              && (outcome == JobCancelled <==> found && (old(jobs)[job].state == Queued || old(jobs)[job].state == RetryScheduled))
              && (outcome == CancellationRequested <==>
                  found && old(jobs)[job].state == Processing && old(jobs)[job].cancellationRequestedAt.None?
                  && old(jobs)[job].stage in ["starting", "loading_inputs", "validating_inputs"])
      ensures outcome == JobCancelled ==>
                && jobs == old(jobs)[job := old(jobs)[job].(state := Cancelled, stage := "cancelled", cancellationRequestedAt := Some(now),
                                                            dispatchStatus := DispatchCancelled, nextAttemptAt := None, completedAt := Some(now),
                                                            reconciliationCode := None, version := old(jobs)[job].version + 1)]
      ensures outcome == CancellationRequested ==>
                jobs == old(jobs)[job := old(jobs)[job].(cancellationRequestedAt := Some(now), dispatchStatus := DispatchCancelled,
                                                         version := old(jobs)[job].version + 1)]
      ensures outcome == JobCancelled || outcome == CancellationRequested ==>
                job in old(outboxes)
                && outboxes == old(outboxes)[job := old(outboxes)[job].(cancelledAt := Some(now), leaseId := None, leaseExpiresAt := None)]
      ensures outcome != JobCancelled && outcome != CancellationRequested ==> jobs == old(jobs) && outboxes == old(outboxes)
      ensures Leaves(old(audit), audit, op, CancelAction, job, outcome, now)
    {
      if job in jobs { assert JobConsistent(Contents(), job); }
      var guard := AuthoriseOperation(op, CancelAction, now);
      if guard.Denied? {
        if guard.audited { Record(op, CancelAction, job, guard.outcome, guard.reason, now); }
        return guard.outcome;
      }
      if job !in jobs || jobs[job].workspaceId != op.workspaceId {
        Record(op, CancelAction, job, NotFound, JobNotFound, now);
        return NotFound;
      }
      var plan := PlanCancel(jobs[job]);
      PlanExactly(jobs[job], outboxes[job], results[job]);
      if plan.Answer? {
        Record(op, CancelAction, job, plan.outcome, plan.reason, now);
        return plan.outcome;
      }
      CancelRow(job, now);
      Record(op, CancelAction, job, plan.outcome, Given(code), now);
      return plan.outcome;
    }

    method CancelRow(job: Id, now: Time)
      requires Valid() && job in jobs && PlanCancel(jobs[job]).Attempted?
      modifies this`jobs, this`outboxes
      ensures Valid() && CancelWrite(old(Contents()), job, old(jobs)[job], now) == Some(Contents())
      ensures jobs == old(jobs)[job := if old(jobs)[job].state == Processing
                                       then old(jobs)[job].(cancellationRequestedAt := Some(now), dispatchStatus := DispatchCancelled,
                                                            version := old(jobs)[job].version + 1)
                                       else old(jobs)[job].(state := Cancelled, stage := "cancelled", cancellationRequestedAt := Some(now),
                                                            dispatchStatus := DispatchCancelled, nextAttemptAt := None, completedAt := Some(now),
                                                            reconciliationCode := None, version := old(jobs)[job].version + 1)]
      ensures job in old(outboxes)
              && outboxes == old(outboxes)[job := old(outboxes)[job].(cancelledAt := Some(now), leaseId := None, leaseExpiresAt := None)]
    {
      ghost var before := Contents();
      assert JobConsistent(before, job);
      CancelRows(before, job, jobs[job], now);
      var seen := jobs[job];
      jobs := jobs[job := if seen.state == Processing then RequestedRow(seen, now) else CancelledRow(seen, now)];
      outboxes := outboxes[job := CancelledBox(outboxes[job], now)];
      LocalKeepsConsistent(before, Contents(), job, None);
    }

    method RetryBackgroundJob(op: Operator, job: Id, code: string, prerequisiteMet: bool, now: Time) returns (outcome: Outcome)
      requires Valid()
      modifies this`jobs, this`outboxes, this`audit
      ensures Valid() && Contents() == RetryJob(old(Contents()), op, job, code, prerequisiteMet, now)
      ensures outcome == RetryQueued <==>
                && Authorise(old(Contents()), op, RetryAction, now).Allowed?
                && job in old(jobs) && old(jobs)[job].workspaceId == op.workspaceId && old(jobs)[job].state == FailedAttention
                && old(jobs)[job].reconciliationCode.None? && prerequisiteMet && old(jobs)[job].attemptCount < 100
      ensures outcome == RetryQueued ==>
                && jobs == old(jobs)[job := Requeued(old(jobs)[job])]
                && job in old(outboxes) && outboxes == old(outboxes)[job := Redelivered(old(outboxes)[job], now)]
      ensures outcome != RetryQueued ==> jobs == old(jobs) && outboxes == old(outboxes)
      ensures Leaves(old(audit), audit, op, RetryAction, job, outcome, now)
    {
      if job in jobs { assert JobConsistent(Contents(), job); }
      var guard := AuthoriseOperation(op, RetryAction, now);
      if guard.Denied? {
        if guard.audited { Record(op, RetryAction, job, guard.outcome, guard.reason, now); }
        return guard.outcome;
      }
      if job !in jobs || jobs[job].workspaceId != op.workspaceId {
        Record(op, RetryAction, job, NotFound, JobNotFound, now);
        return NotFound;
      }
      var refusal := RefuseRetry(job, prerequisiteMet);
      if refusal.Some? {
        Record(op, RetryAction, job, refusal.value.0, refusal.value.1, now);
        return refusal.value.0;
      }
      RetryRow(job, prerequisiteMet, now);
      Record(op, RetryAction, job, RetryQueued, Given(code), now);
      return RetryQueued;
    }

    method RefuseRetry(job: Id, prerequisiteMet: bool) returns (refusal: Option<(Outcome, Reason)>)
      requires job in jobs
      ensures refusal == RetryRefusal(Contents(), job, jobs[job], prerequisiteMet)
    {
      var view := Store(jobs, attempts, outboxes, results, audit, map[], {});
      assert AlreadyRetried(view, jobs[job].workspaceId, job) == AlreadyRetried(Contents(), jobs[job].workspaceId, job);
      return RetryRefusal(view, job, jobs[job], prerequisiteMet);
    }

    method RetryRow(job: Id, ghost prerequisiteMet: bool, now: Time)
      requires Valid() && job in jobs && RetryRefusal(Contents(), job, jobs[job], prerequisiteMet).None?
      modifies this`jobs, this`outboxes
      ensures Valid() && RetryWrite(old(Contents()), job, old(jobs)[job], now) == Some(Contents())
      ensures jobs == old(jobs)[job := Requeued(old(jobs)[job])]
      ensures job in old(outboxes) && outboxes == old(outboxes)[job := Redelivered(old(outboxes)[job], now)]
    {
      ghost var before := Contents();
      assert JobConsistent(before, job);
      RetryRows(before, job, jobs[job], now);
      RetriedIsRequeued(jobs[job]);
      ResetIsRedelivered(outboxes[job], now);
      jobs := jobs[job := RetriedRow(jobs[job], jobs[job])];
      outboxes := outboxes[job := ResetBox(outboxes[job], now)];
      LocalKeepsConsistent(before, Contents(), job, None);
    }
  }
}
