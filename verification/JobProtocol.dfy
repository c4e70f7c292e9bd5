/**
 The protocol as a state machine. A step is one transaction by any worker, dispatcher, operator or
 reconciler, in any order and with any clock reading; a crash is simply the absence of further steps.
 The `...WriteStep`s are the write halves of transactions whose read lies further back, wherever such a write
 can differ from a transaction that reads and writes at once; AuditStep is the record of an operation that was
 turned away.
 Workers and dispatchers may act with any lease id they like, so a stale holder is always covered.
 */
module JobProtocol {
  import opened Options
  import opened JobLifecycle
  import opened JobRetry
  import opened JobStore
  import opened JobTransactions

  datatype Step =
    | EnqueueStep(job: Id, workspace: Id, key: Id, payload: Id, maxAttempts: int, now: Time)
    | LeaseOutboxStep(chosen: set<Id>, lease: Id, now: Time, leaseMs: int)
    | MarkDispatchedStep(job: Id, lease: Id, delivery: Id, now: Time)
    | ReleaseOutboxStep(job: Id, lease: Id, retryAt: Time)
    | ClaimStep(workspace: Id, job: Id, lease: Id, now: Time, leaseMs: int)
    | HeartbeatStep(workspace: Id, job: Id, lease: Id, now: Time, leaseMs: int)
    | RecordStageStep(workspace: Id, job: Id, lease: Id, stage: string, now: Time)
    | HonourCancellationStep(workspace: Id, job: Id, lease: Id, now: Time)
    | CommitSuccessStep(workspace: Id, job: Id, lease: Id, now: Time)
    | SettleFailureStep(workspace: Id, job: Id, lease: Id, failure: Failure, random: real, now: Time)
    | MakeRetryDueStep(workspace: Id, job: Id, now: Time)
    | RecoverLeaseStep(workspace: Id, job: Id, now: Time)
    | RequeueDueRetryStep(workspace: Id, job: Id, now: Time)
    | RequeueStrandedStep(workspace: Id, job: Id, now: Time)
    | RepairMissingOutboxStep(workspace: Id, job: Id, now: Time)
    | RepairCommittedResultStep(workspace: Id, job: Id, now: Time)
    | FlagAmbiguousStep(workspace: Id, job: Id, flag: FlagCode)
    | CancelStep(op: Operator, job: Id, code: string, now: Time)
    | RetryStep(op: Operator, job: Id, code: string, prerequisiteMet: bool, now: Time)
    | RecoverWriteStep(job: Id, seen: Job, now: Time)
    | CancelWriteStep(op: Operator, job: Id, seen: Job, code: string, now: Time)
    | RetryWriteStep(op: Operator, job: Id, seen: Job, refusal: Option<(Outcome, Reason)>, code: string, now: Time)
    | AuditStep(op: Operator, action: Action, job: Id, outcome: Outcome, reason: Reason, now: Time)

  function Apply(s: Store, step: Step): Store
  {
    match step
    case EnqueueStep(j, w, key, payload, m, now) => Enqueue(s, j, w, key, payload, m, now)
    case LeaseOutboxStep(chosen, l, now, ms) => LeaseOutbox(s, chosen, l, now, ms)
    case MarkDispatchedStep(j, l, d, now) => MarkDispatched(s, j, l, d, now)
    case ReleaseOutboxStep(j, l, at) => ReleaseOutbox(s, j, l, at)
    case ClaimStep(w, j, l, now, ms) => ClaimJob(s, w, j, l, now, ms)
    case HeartbeatStep(w, j, l, now, ms) => Heartbeat(s, w, j, l, now, ms)
    case RecordStageStep(w, j, l, stage, now) => RecordStage(s, w, j, l, stage, now)
    case HonourCancellationStep(w, j, l, now) => HonourCancellation(s, w, j, l, now)
    case CommitSuccessStep(w, j, l, now) => CommitSuccess(s, w, j, l, now)
    case SettleFailureStep(w, j, l, f, r, now) => SettleFailure(s, w, j, l, f, r, now)
    case MakeRetryDueStep(w, j, now) => MakeRetryDue(s, w, j, now)
    case RecoverLeaseStep(w, j, now) => RecoverLease(s, w, j, now)
    case RequeueDueRetryStep(w, j, now) => RequeueDueRetry(s, w, j, now)
    case RequeueStrandedStep(w, j, now) => RequeueStranded(s, w, j, now)
    case RepairMissingOutboxStep(w, j, now) => RepairMissingOutbox(s, w, j, now)
    case RepairCommittedResultStep(w, j, now) => RepairCommittedResult(s, w, j, now)
    case FlagAmbiguousStep(w, j, code) => FlagAmbiguous(s, w, j, code)
    case CancelStep(op, j, code, now) => CancelJob(s, op, j, code, now)
    case RetryStep(op, j, code, met, now) => RetryJob(s, op, j, code, met, now)
    case RecoverWriteStep(j, seen, now) => RecoverWrite(s, j, seen, now)
    case CancelWriteStep(op, j, seen, code, now) => FinishCancel(s, op, j, seen, code, now)
    case RetryWriteStep(op, j, seen, refusal, code, now) => SettleRetry(s, op, j, seen, refusal, code, now)
    case AuditStep(op, action, j, outcome, reason, now) => Audited(s, op, action, j, outcome, reason, now)
  }

  /** A manual retry that was not refused had read a failed job with room for another attempt. */
  predicate RetryPlanned(seen: Job)
  {
    seen.state == FailedAttention && RetryBudget(seen) <= MAX_ATTEMPTS_LIMIT
  }

  /** Generated ids are new, a row read earlier is one the job had, and the committed-result repair runs only after a result was seen (results are
      never removed, so one seen earlier is still there). Nothing else is assumed about any step. */
  predicate Admissible(s: Store, step: Step)
  {
    match step
    case EnqueueStep(j, _, _, _, _, _) => j !in s.jobs
    case LeaseOutboxStep(_, l, _, _) => l !in s.issued
    case ClaimStep(_, _, l, _, _) => l !in s.issued
    case RepairCommittedResultStep(_, j, _) => s.results[j] > 0
    case RecoverWriteStep(j, seen, _) => Remembered(s, j, seen)
    case CancelWriteStep(_, j, seen, _, _) => Remembered(s, j, seen)
    case RetryWriteStep(_, j, seen, refusal, _, _) => Remembered(s, j, seen) && (refusal.None? ==> RetryPlanned(seen))
    case _ => true
  }

  predicate Legal(s: Store, steps: seq<Step>)
    decreases |steps|
  {
    steps == [] || (Admissible(s, steps[0]) && Legal(Apply(s, steps[0]), steps[1..]))
  }

  function Execute(s: Store, steps: seq<Step>): Store
    decreases |steps|
  {
    if steps == [] then s else Execute(Apply(s, steps[0]), steps[1..])
  }

  // ----- Consistency is kept by every step -----

  /** Attempt numbering survives any change that keeps the attempts of a job and its attempt count. */
  lemma NumberingKept(s: Store, t: Store, j: Id)
    requires j in s.jobs && Numbered(s, j) && j in t.jobs && t.jobs[j].attemptCount == s.jobs[j].attemptCount
    requires forall l, n :: IsAttempt(s, l, j, n) <==> IsAttempt(t, l, j, n)
    ensures Numbered(t, j)
  {
    forall n | 1 <= n <= t.jobs[j].attemptCount ensures HasNumber(t, j, n) {
      assert HasNumber(s, j, n);
      var l :| IsAttempt(s, l, j, n);
      assert IsAttempt(t, l, j, n);
    }
  }

  /** The shape of a transaction that rewrites one job, its outbox row and at most one of its attempts. */
  ghost predicate Local(s: Store, t: Store, j: Id, touched: Option<Id>)
  {
    && j in s.jobs && t.jobs.Keys == s.jobs.Keys && t.outboxes.Keys == s.outboxes.Keys && t.attempts.Keys == s.attempts.Keys
    && (forall i | i in s.jobs && i != j :: t.jobs[i] == s.jobs[i] && t.results[i] == s.results[i])
    && (forall i | i in s.outboxes && i != j :: t.outboxes[i] == s.outboxes[i])
    && (forall m | m in s.attempts && touched != Some(m) :: t.attempts[m] == s.attempts[m])
    && (forall i | i in t.results :: i in s.results || i == j)
    && t.claims == s.claims && t.issued == s.issued
    && t.jobs[j].workspaceId == s.jobs[j].workspaceId && t.jobs[j].key == s.jobs[j].key
    && t.jobs[j].attemptCount == s.jobs[j].attemptCount
    && (touched.Some? ==> touched.value in s.attempts && SameAttempt(s.attempts[touched.value], t.attempts[touched.value], j))
  }

  predicate SameAttempt(a: Attempt, b: Attempt, j: Id)
  {
    a.jobId == j && b.jobId == j && b.number == a.number && b.workspaceId == a.workspaceId
  }

  /** The rows a local transaction leaves behind are in order. */
  ghost predicate RowsConsistent(t: Store, j: Id, touched: Option<Id>)
    requires j in t.jobs
  {
    && JobConsistent(t, j)
    && (touched.Some? && touched.value in t.attempts ==>
      AttemptShape(t.attempts[touched.value])
      && (t.attempts[touched.value].state == Active ==> t.jobs[j].leaseId == touched))
  }

  /** A local transaction keeps the store consistent when the rows it rewrote are consistent. */
  lemma LocalKeepsConsistent(s: Store, t: Store, j: Id, touched: Option<Id>)
    requires Consistent(s) && Local(s, t, j, touched) && RowsConsistent(t, j, touched)
    requires s.jobs[j].leaseId != t.jobs[j].leaseId ==> s.jobs[j].leaseId == touched
    ensures Consistent(t)
  {
    LocalKeepsAttempts(s, t, j, touched);
    LocalKeepsJobs(s, t, j, touched);
  }

  lemma LocalKeepsJobs(s: Store, t: Store, j: Id, touched: Option<Id>)
    requires forall i | i in s.jobs :: JobConsistent(s, i) && Numbered(s, i)
    requires Local(s, t, j, touched) && RowsConsistent(t, j, touched)
    ensures forall i | i in t.jobs :: JobConsistent(t, i) && Numbered(t, i)
  {
    forall i | i in t.jobs ensures JobConsistent(t, i) && Numbered(t, i) {
      assert JobConsistent(s, i) && Numbered(s, i);
      NumberingKept(s, t, i);
    }
  }

  lemma LocalKeepsAttempts(s: Store, t: Store, j: Id, touched: Option<Id>)
    requires forall l | l in s.attempts :: AttemptConsistent(s, l)
    requires Local(s, t, j, touched) && RowsConsistent(t, j, touched)
    requires s.jobs[j].leaseId != t.jobs[j].leaseId ==> s.jobs[j].leaseId == touched
    ensures forall l | l in t.attempts :: AttemptConsistent(t, l)
  {
    forall l | l in t.attempts ensures AttemptConsistent(t, l) {
      assert AttemptConsistent(s, l);
    }
  }

  lemma EnqueueKeeps(s: Store, j: Id, w: Id, key: Id, payload: Id, m: int, now: Time)
    requires Consistent(s) && j !in s.jobs
    ensures Consistent(Enqueue(s, j, w, key, payload, m, now))
  {
    if 1 <= m <= MAX_ATTEMPTS_LIMIT && WithKey(s, w, key) == {} {
      InsertKeeps(s, j, NewJob(w, key, payload, m, now), now);
    } else {
      assert forall i | i in WithKey(s, w, key) :: i in s.outboxes;
      assert Enqueue(s, j, w, key, payload, m, now).outboxes == s.outboxes;
    }
  }

  lemma InsertKeeps(s: Store, j: Id, row: Job, now: Time)
    requires Consistent(s) && j !in s.jobs && WithKey(s, row.workspaceId, row.key) == {}
    requires row == NewJob(row.workspaceId, row.key, row.payload, row.maxAttempts, now) && 1 <= row.maxAttempts <= MAX_ATTEMPTS_LIMIT
    ensures Consistent(s.(jobs := s.jobs[j := row], outboxes := s.outboxes[j := FreshOutbox(now)]))
  {
    var t := s.(jobs := s.jobs[j := row], outboxes := s.outboxes[j := FreshOutbox(now)]);
    assert forall l | l in s.attempts :: AttemptConsistent(s, l);
    InsertedRow(s, t, j, row, now);
    InsertKeepsRows(s, t, j, row, now);
    InsertKeepsKeys(s, t, j, row);
  }

  lemma InsertKeepsRows(s: Store, t: Store, j: Id, row: Job, now: Time)
    requires forall i | i in s.jobs :: JobConsistent(s, i) && Numbered(s, i)
    requires forall l | l in s.attempts :: AttemptConsistent(s, l)
    requires j !in s.jobs && t == s.(jobs := s.jobs[j := row], outboxes := s.outboxes[j := FreshOutbox(now)])
    ensures forall i | i in s.jobs :: JobConsistent(t, i) && Numbered(t, i)
    ensures forall l | l in t.attempts :: AttemptConsistent(t, l)
  {
    forall i | i in s.jobs ensures JobConsistent(t, i) && Numbered(t, i) {
      assert JobConsistent(s, i);
      NumberingKept(s, t, i);
    }
    forall l | l in t.attempts ensures AttemptConsistent(t, l) {
      assert AttemptConsistent(s, l);
    }
  }

  lemma InsertKeepsKeys(s: Store, t: Store, j: Id, row: Job)
    requires forall h, i | h in s.jobs && i in s.jobs && s.jobs[h].workspaceId == s.jobs[i].workspaceId
                           && s.jobs[h].key == s.jobs[i].key :: h == i
    requires j !in s.jobs && WithKey(s, row.workspaceId, row.key) == {} && t.jobs == s.jobs[j := row]
    ensures forall h, i | h in t.jobs && i in t.jobs && t.jobs[h].workspaceId == t.jobs[i].workspaceId
                          && t.jobs[h].key == t.jobs[i].key :: h == i
  {
    forall i | i in s.jobs && s.jobs[i].workspaceId == row.workspaceId ensures s.jobs[i].key != row.key {
      assert i !in WithKey(s, row.workspaceId, row.key);
    }
  }

  lemma InsertedRow(s: Store, t: Store, j: Id, row: Job, now: Time)
    requires j !in s.jobs && j !in s.results
    requires forall l | l in s.attempts :: s.attempts[l].jobId in s.jobs
    requires row == NewJob(row.workspaceId, row.key, row.payload, row.maxAttempts, now) && 1 <= row.maxAttempts <= MAX_ATTEMPTS_LIMIT
    requires t == s.(jobs := s.jobs[j := row], outboxes := s.outboxes[j := FreshOutbox(now)])
    ensures JobConsistent(t, j) && Numbered(t, j)
  {
  }

  lemma LeaseOutboxKeeps(s: Store, chosen: set<Id>, lease: Id, now: Time, ms: int)
    requires Consistent(s)
    ensures Consistent(LeaseOutbox(s, chosen, lease, now, ms))
  {
    var t := LeaseOutbox(s, chosen, lease, now, ms);
    forall i | i in t.jobs ensures JobConsistent(t, i) && Numbered(t, i) {
      assert JobConsistent(s, i);
      NumberingKept(s, t, i);
    }
    forall l | l in t.attempts ensures AttemptConsistent(t, l) {
      assert AttemptConsistent(s, l);
    }
  }

  lemma ClaimKeeps(s: Store, w: Id, j: Id, lease: Id, now: Time, ms: int)
    requires Consistent(s) && lease !in s.issued
    ensures Consistent(ClaimJob(s, w, j, lease, now, ms))
  {
    var t := ClaimJob(s, w, j, lease, now, ms);
    if t != s {
      assert JobConsistent(s, j) && Numbered(s, j);
      assert forall l | l in s.attempts :: AttemptConsistent(s, l) && l != lease;
      ClaimRows(s, t, w, j, lease, now, ms);
      forall i | i in t.jobs ensures Numbered(t, i) {
        if i == j { ClaimNumbers(s, t, j, lease); } else { NumberingKept(s, t, i); }
      }
    }
  }

  lemma ClaimRows(s: Store, t: Store, w: Id, j: Id, lease: Id, now: Time, ms: int)
    requires Consistent(s) && lease !in s.issued && lease !in s.attempts
    requires t == ClaimJob(s, w, j, lease, now, ms) && t != s
    ensures forall i | i in t.jobs :: JobConsistent(t, i)
    ensures forall l | l in t.attempts :: AttemptConsistent(t, l)
  {
    forall i | i in t.jobs ensures JobConsistent(t, i) {
      assert JobConsistent(s, i);
    }
    forall l | l in t.attempts ensures AttemptConsistent(t, l) {
      if l != lease { assert AttemptConsistent(s, l); }
    }
  }

  /** A claim appends the next attempt number. */
  lemma ClaimNumbers(s: Store, t: Store, j: Id, lease: Id)
    requires j in s.jobs && Numbered(s, j) && lease !in s.attempts
    requires forall l | l in s.attempts :: AttemptConsistent(s, l)
    requires j in t.jobs && t.jobs[j].attemptCount == s.jobs[j].attemptCount + 1
    requires t.attempts.Keys == s.attempts.Keys + {lease} && forall l | l in s.attempts :: t.attempts[l] == s.attempts[l]
    requires IsAttempt(t, lease, j, t.jobs[j].attemptCount)
    ensures Numbered(t, j)
  {
    forall n | 1 <= n <= t.jobs[j].attemptCount ensures HasNumber(t, j, n) {
      if n <= s.jobs[j].attemptCount {
        assert HasNumber(s, j, n);
        var l :| IsAttempt(s, l, j, n);
        assert IsAttempt(t, l, j, n);
      }
    }
    forall l, m, n | IsAttempt(t, l, j, n) && IsAttempt(t, m, j, n) ensures l == m {
      if l != lease { assert IsAttempt(s, l, j, n) && AttemptConsistent(s, l); }
      if m != lease { assert IsAttempt(s, m, j, n) && AttemptConsistent(s, m); }
    }
  }

  lemma MarkDispatchedKeeps(s: Store, j: Id, lease: Id, d: Id, at: Time)
    requires Consistent(s)
    ensures Consistent(MarkDispatched(s, j, lease, d, at))
  {
    if OutboxLeasedBy(s, j, lease) {
      assert JobConsistent(s, j);
      MarkDispatchedRows(s, j, lease, d, at);
      LocalKeepsConsistent(s, MarkDispatched(s, j, lease, d, at), j, None);
    }
  }

  lemma MarkDispatchedRows(s: Store, j: Id, lease: Id, d: Id, at: Time)
    requires j in s.jobs && JobConsistent(s, j) && OutboxLeasedBy(s, j, lease)
    ensures var t := MarkDispatched(s, j, lease, d, at); Local(s, t, j, None) && RowsConsistent(t, j, None)
  {
  }

  lemma ReleaseOutboxKeeps(s: Store, j: Id, lease: Id, at: Time)
    requires Consistent(s)
    ensures Consistent(ReleaseOutbox(s, j, lease, at))
  {
    if OutboxLeasedBy(s, j, lease) {
      assert JobConsistent(s, j);
      ReleaseOutboxRows(s, j, lease, at);
      LocalKeepsConsistent(s, ReleaseOutbox(s, j, lease, at), j, None);
    }
  }

  lemma ReleaseOutboxRows(s: Store, j: Id, lease: Id, at: Time)
    requires j in s.jobs && JobConsistent(s, j) && OutboxLeasedBy(s, j, lease)
    ensures var t := ReleaseOutbox(s, j, lease, at); Local(s, t, j, None) && RowsConsistent(t, j, None)
  {
  }

  lemma TouchLeaseKeeps(s: Store, w: Id, j: Id, lease: Id, at: Time, expires: Option<Time>, stage: Option<string>)
    requires Consistent(s)
    ensures Consistent(TouchLease(s, w, j, lease, at, expires, stage))
  {
    if Holds(s, w, j, lease) {
      assert JobConsistent(s, j) && AttemptConsistent(s, lease);
      TouchLeaseRows(s, w, j, lease, at, expires, stage);
      LocalKeepsConsistent(s, TouchLease(s, w, j, lease, at, expires, stage), j, Some(lease));
    }
  }

  lemma TouchLeaseRows(s: Store, w: Id, j: Id, lease: Id, at: Time, expires: Option<Time>, stage: Option<string>)
    requires j in s.jobs && JobConsistent(s, j) && Holds(s, w, j, lease) && AttemptConsistent(s, lease)
    ensures var t := TouchLease(s, w, j, lease, at, expires, stage); Local(s, t, j, Some(lease)) && RowsConsistent(t, j, Some(lease))
  {
  }

  lemma HeartbeatKeeps(s: Store, w: Id, j: Id, lease: Id, at: Time, ms: int)
    requires Consistent(s)
    ensures Consistent(Heartbeat(s, w, j, lease, at, ms))
  {
    TouchLeaseKeeps(s, w, j, lease, at, Some(at + ms), None);
  }

  lemma RecordStageKeeps(s: Store, w: Id, j: Id, lease: Id, stage: string, at: Time)
    requires Consistent(s)
    ensures Consistent(RecordStage(s, w, j, lease, stage, at))
  {
    TouchLeaseKeeps(s, w, j, lease, at, None, Some(stage));
  }

  lemma HonourCancellationKeeps(s: Store, w: Id, j: Id, lease: Id, at: Time)
    requires Consistent(s)
    ensures Consistent(HonourCancellation(s, w, j, lease, at))
  {
    if Holds(s, w, j, lease) {
      assert JobConsistent(s, j) && AttemptConsistent(s, lease);
      HonourCancellationRows(s, w, j, lease, at);
      LocalKeepsConsistent(s, HonourCancellation(s, w, j, lease, at), j, Some(lease));
    }
  }

  lemma HonourCancellationRows(s: Store, w: Id, j: Id, lease: Id, at: Time)
    requires j in s.jobs && JobConsistent(s, j) && Holds(s, w, j, lease) && AttemptConsistent(s, lease)
    ensures var t := HonourCancellation(s, w, j, lease, at); Local(s, t, j, Some(lease)) && RowsConsistent(t, j, Some(lease))
  {
  }

  lemma CommitSuccessKeeps(s: Store, w: Id, j: Id, lease: Id, at: Time)
    requires Consistent(s)
    ensures Consistent(CommitSuccess(s, w, j, lease, at))
  {
    if Holds(s, w, j, lease) {
      assert JobConsistent(s, j) && AttemptConsistent(s, lease);
      CommitSuccessRows(s, w, j, lease, at);
      LocalKeepsConsistent(s, CommitSuccess(s, w, j, lease, at), j, Some(lease));
    }
  }

  lemma CommitSuccessRows(s: Store, w: Id, j: Id, lease: Id, at: Time)
    requires j in s.jobs && JobConsistent(s, j) && Holds(s, w, j, lease) && AttemptConsistent(s, lease)
    ensures var t := CommitSuccess(s, w, j, lease, at); Local(s, t, j, Some(lease)) && RowsConsistent(t, j, Some(lease))
  {
  }

  lemma SettleFailureKeeps(s: Store, w: Id, j: Id, lease: Id, f: Failure, random: real, at: Time)
    requires Consistent(s)
    ensures Consistent(SettleFailure(s, w, j, lease, f, random, at))
  {
    if Holds(s, w, j, lease) {
      assert JobConsistent(s, j) && AttemptConsistent(s, lease);
      SettleFailureRows(s, w, j, lease, f, random, at);
      LocalKeepsConsistent(s, SettleFailure(s, w, j, lease, f, random, at), j, Some(lease));
    }
  }

  lemma SettleFailureRows(s: Store, w: Id, j: Id, lease: Id, f: Failure, random: real, at: Time)
    requires j in s.jobs && JobConsistent(s, j) && Holds(s, w, j, lease) && AttemptConsistent(s, lease)
    ensures var t := SettleFailure(s, w, j, lease, f, random, at); Local(s, t, j, Some(lease)) && RowsConsistent(t, j, Some(lease))
  {
  }

  lemma MakeRetryDueKeeps(s: Store, w: Id, j: Id, now: Time)
    requires Consistent(s)
    ensures Consistent(MakeRetryDue(s, w, j, now))
  {
    if j in s.jobs {
      assert JobConsistent(s, j);
      MakeRetryDueRows(s, w, j, now);
      LocalKeepsConsistent(s, MakeRetryDue(s, w, j, now), j, None);
    }
  }

  lemma MakeRetryDueRows(s: Store, w: Id, j: Id, now: Time)
    requires j in s.jobs && JobConsistent(s, j)
    ensures var t := MakeRetryDue(s, w, j, now); Local(s, t, j, None) && RowsConsistent(t, j, None)
  {
  }

  lemma RecoverLeaseKeeps(s: Store, w: Id, j: Id, now: Time)
    requires Consistent(s)
    ensures Consistent(RecoverLease(s, w, j, now))
  {
    if j in s.jobs { RecoverWriteKeeps(s, j, s.jobs[j], now); }
  }

  /** A recovery keeps the rows consistent whenever it read the row. */
  lemma RecoverWriteKeeps(s: Store, j: Id, seen: Job, now: Time)
    requires Consistent(s) && Remembered(s, j, seen)
    ensures Consistent(RecoverWrite(s, j, seen, now))
  {
    if RecoverWrite(s, j, seen, now) != s {
      var lease := s.jobs[j].leaseId.value;
      assert JobConsistent(s, j) && AttemptConsistent(s, lease);
      RecoverWriteRows(s, j, seen, now, lease);
      LocalKeepsConsistent(s, RecoverWrite(s, j, seen, now), j, Some(lease));
    }
  }

  lemma RecoverWriteRows(s: Store, j: Id, seen: Job, now: Time, lease: Id)
    requires Remembered(s, j, seen) && JobConsistent(s, j) && lease in s.attempts && AttemptConsistent(s, lease)
    requires RecoverWrite(s, j, seen, now) != s && s.jobs[j].leaseId == Some(lease)
    ensures var t := RecoverWrite(s, j, seen, now); Local(s, t, j, Some(lease)) && RowsConsistent(t, j, Some(lease))
  {
    RecoverWriteIsLocal(s, j, seen, now, lease);
    RecoveredRows(s, j, seen, now, lease);
  }

  lemma RecoverWriteIsLocal(s: Store, j: Id, seen: Job, now: Time, lease: Id)
    requires j in s.jobs && j in s.outboxes && lease in s.attempts && s.attempts[lease].jobId == j && s.jobs[j].leaseId == Some(lease)
    ensures Local(s, RecoverWrite(s, j, seen, now), j, Some(lease))
  {
  }

  lemma RecoveredRows(s: Store, j: Id, seen: Job, now: Time, lease: Id)
    requires Remembered(s, j, seen) && JobConsistent(s, j) && lease in s.attempts && AttemptConsistent(s, lease)
    requires RecoverWrite(s, j, seen, now) != s && s.jobs[j].leaseId == Some(lease)
    ensures RowsConsistent(RecoverWrite(s, j, seen, now), j, Some(lease))
  {
  }

  lemma RequeueDueRetryKeeps(s: Store, w: Id, j: Id, now: Time)
    requires Consistent(s)
    ensures Consistent(RequeueDueRetry(s, w, j, now))
  {
    if j in s.jobs {
      assert JobConsistent(s, j);
      RequeueDueRetryRows(s, w, j, now);
      LocalKeepsConsistent(s, RequeueDueRetry(s, w, j, now), j, None);
    }
  }

  lemma RequeueDueRetryRows(s: Store, w: Id, j: Id, now: Time)
    requires j in s.jobs && JobConsistent(s, j)
    ensures var t := RequeueDueRetry(s, w, j, now); Local(s, t, j, None) && RowsConsistent(t, j, None)
  {
  }

  lemma RequeueStrandedKeeps(s: Store, w: Id, j: Id, now: Time)
    requires Consistent(s)
    ensures Consistent(RequeueStranded(s, w, j, now))
  {
    if j in s.jobs {
      assert JobConsistent(s, j);
      RequeueStrandedRows(s, w, j, now);
      LocalKeepsConsistent(s, RequeueStranded(s, w, j, now), j, None);
    }
  }

  lemma RequeueStrandedRows(s: Store, w: Id, j: Id, now: Time)
    requires j in s.jobs && JobConsistent(s, j)
    ensures var t := RequeueStranded(s, w, j, now); Local(s, t, j, None) && RowsConsistent(t, j, None)
  {
  }

  lemma FlagKeeps(s: Store, w: Id, j: Id, code: FlagCode)
    requires Consistent(s)
    ensures Consistent(FlagAmbiguous(s, w, j, code))
  {
    if j in s.jobs {
      assert JobConsistent(s, j);
      FlagRows(s, w, j, code);
      LocalKeepsConsistent(s, FlagAmbiguous(s, w, j, code), j, None);
    }
  }

  lemma FlagRows(s: Store, w: Id, j: Id, code: FlagCode)
    requires j in s.jobs && JobConsistent(s, j)
    ensures var t := FlagAmbiguous(s, w, j, code); Local(s, t, j, None) && RowsConsistent(t, j, None)
  {
  }

  /** In a consistent store the repairs for a missing outbox row and for an unrecorded result find nothing. */
  lemma DeadRepairs(s: Store, w: Id, j: Id, now: Time)
    requires Consistent(s)
    ensures RepairMissingOutbox(s, w, j, now) == s
    ensures s.results[j] > 0 ==> RepairCommittedResult(s, w, j, now) == s
  {
    if j in s.jobs { assert JobConsistent(s, j); }
  }

  lemma CancelKeeps(s: Store, op: Operator, j: Id, code: string, now: Time)
    requires Consistent(s)
    ensures Consistent(CancelJob(s, op, j, code, now))
  {
    if Authorise(s, op, CancelAction, now).Allowed? && Owned(s, op.workspaceId, j) {
      FinishCancelKeeps(s, op, j, s.jobs[j], code, now);
    } else {
      AuditKeeps(s, CancelJob(s, op, j, code, now).audit);
    }
  }

  lemma FinishCancelKeeps(s: Store, op: Operator, j: Id, seen: Job, code: string, now: Time)
    requires Consistent(s) && Remembered(s, j, seen)
    ensures Consistent(FinishCancel(s, op, j, seen, code, now))
  {
    var u := FinishCancel(s, op, j, seen, code, now);
    if PlanCancel(seen).Attempted? && StillCurrent(s, j, seen) {
      assert JobConsistent(s, j);
      CancelRows(s, j, seen, now);
      var t := CancelWrite(s, j, seen, now).value;
      LocalKeepsConsistent(s, t, j, None);
      AuditKeeps(t, u.audit);
    } else {
      AuditKeeps(s, u.audit);
    }
  }

  /** The row has the version it was read with. */
  predicate StillCurrent(s: Store, j: Id, seen: Job)
  {
    j in s.jobs && s.jobs[j].version == seen.version
  }

  lemma CancelRows(s: Store, j: Id, seen: Job, now: Time)
    requires Remembered(s, j, seen) && StillCurrent(s, j, seen) && JobConsistent(s, j) && PlanCancel(seen).Attempted?
    ensures var w := CancelWrite(s, j, seen, now); w.Some? && Local(s, w.value, j, None) && RowsConsistent(w.value, j, None)
  {
  }

  lemma RetryKeeps(s: Store, op: Operator, j: Id, code: string, met: bool, now: Time)
    requires Consistent(s)
    ensures Consistent(RetryJob(s, op, j, code, met, now))
  {
    if Authorise(s, op, RetryAction, now).Allowed? && Owned(s, op.workspaceId, j) {
      SettleRetryKeeps(s, op, j, s.jobs[j], RetryRefusal(s, j, s.jobs[j], met), code, now);
    } else {
      AuditKeeps(s, RetryJob(s, op, j, code, met, now).audit);
    }
  }

  lemma SettleRetryKeeps(s: Store, op: Operator, j: Id, seen: Job, refusal: Option<(Outcome, Reason)>, code: string, now: Time)
    requires Consistent(s) && Remembered(s, j, seen) && (refusal.None? ==> RetryPlanned(seen))
    ensures Consistent(SettleRetry(s, op, j, seen, refusal, code, now))
  {
    var u := SettleRetry(s, op, j, seen, refusal, code, now);
    if refusal.None? && StillCurrent(s, j, seen) {
      assert JobConsistent(s, j);
      RetryRows(s, j, seen, now);
      var t := RetryWrite(s, j, seen, now).value;
      LocalKeepsConsistent(s, t, j, None);
      AuditKeeps(t, u.audit);
    } else {
      AuditKeeps(s, u.audit);
    }
  }

  lemma RetryRows(s: Store, j: Id, seen: Job, now: Time)
    requires Remembered(s, j, seen) && StillCurrent(s, j, seen) && JobConsistent(s, j) && RetryPlanned(seen)
    ensures var w := RetryWrite(s, j, seen, now); w.Some? && Local(s, w.value, j, None) && RowsConsistent(w.value, j, None)
  {
  }

  lemma AuditKeeps(s: Store, audit: seq<AuditEvent>)
    requires Consistent(s)
    ensures Consistent(s.(audit := audit))
  {
    var t := s.(audit := audit);
    forall i | i in t.jobs ensures JobConsistent(t, i) && Numbered(t, i) {
      assert JobConsistent(s, i);
      NumberingKept(s, t, i);
    }
    forall l | l in t.attempts ensures AttemptConsistent(t, l) {
      assert AttemptConsistent(s, l);
    }
  }

  predicate IsWorkerStep(step: Step)
  {
    step.HeartbeatStep? || step.RecordStageStep? || step.HonourCancellationStep? || step.CommitSuccessStep? || step.SettleFailureStep?
  }

  predicate IsReconcilerStep(step: Step)
  {
    step.RecoverLeaseStep? || step.RequeueDueRetryStep? || step.RequeueStrandedStep? || step.RepairMissingOutboxStep?
    || step.RepairCommittedResultStep? || step.FlagAmbiguousStep? || step.RecoverWriteStep?
  }

  predicate IsOperatorStep(step: Step)
  {
    step.CancelStep? || step.RetryStep? || step.CancelWriteStep? || step.RetryWriteStep? || step.AuditStep?
  }

  lemma WorkerStepKeeps(s: Store, step: Step)
    requires Consistent(s) && IsWorkerStep(step)
    ensures Consistent(Apply(s, step))
  {
    match step
    case HeartbeatStep(w, j, l, now, ms) => HeartbeatKeeps(s, w, j, l, now, ms);
    case RecordStageStep(w, j, l, stage, now) => RecordStageKeeps(s, w, j, l, stage, now);
    case HonourCancellationStep(w, j, l, now) => HonourCancellationKeeps(s, w, j, l, now);
    case CommitSuccessStep(w, j, l, now) => CommitSuccessKeeps(s, w, j, l, now);
    case SettleFailureStep(w, j, l, f, r, now) => SettleFailureKeeps(s, w, j, l, f, r, now);
  }

  lemma ReconcilerStepKeeps(s: Store, step: Step)
    requires Consistent(s) && IsReconcilerStep(step) && Admissible(s, step)
    ensures Consistent(Apply(s, step))
  {
    match step
    case RecoverLeaseStep(w, j, now) => RecoverLeaseKeeps(s, w, j, now);
    case RequeueDueRetryStep(w, j, now) => RequeueDueRetryKeeps(s, w, j, now);
    case RequeueStrandedStep(w, j, now) => RequeueStrandedKeeps(s, w, j, now);
    case RecoverWriteStep(j, seen, now) => RecoverWriteKeeps(s, j, seen, now);
    case _ => UnusualStepKeeps(s, step);
  }

  lemma UnusualStepKeeps(s: Store, step: Step)
    requires Consistent(s) && Admissible(s, step)
    requires step.RepairMissingOutboxStep? || step.RepairCommittedResultStep? || step.FlagAmbiguousStep?
    ensures Consistent(Apply(s, step))
  {
    if step.FlagAmbiguousStep? {
      FlagKeeps(s, step.workspace, step.job, step.flag);
    } else {
      DeadRepairs(s, step.workspace, step.job, step.now);
    }
  }

  lemma OperatorStepKeeps(s: Store, step: Step)
    requires Consistent(s) && IsOperatorStep(step) && Admissible(s, step)
    ensures Consistent(Apply(s, step))
  {
    match step
    case CancelStep(op, j, code, now) => CancelKeeps(s, op, j, code, now);
    case RetryStep(op, j, code, met, now) => RetryKeeps(s, op, j, code, met, now);
    case CancelWriteStep(op, j, seen, code, now) => FinishCancelKeeps(s, op, j, seen, code, now);
    case RetryWriteStep(op, j, seen, refusal, code, now) => SettleRetryKeeps(s, op, j, seen, refusal, code, now);
    case AuditStep(op, action, j, outcome, reason, now) => AuditKeeps(s, Apply(s, step).audit);
  }

  /** Every step keeps the store consistent. */
  lemma StepKeepsConsistent(s: Store, step: Step)
    requires Consistent(s) && Admissible(s, step)
    ensures Consistent(Apply(s, step))
  {
    if IsWorkerStep(step) {
      WorkerStepKeeps(s, step);
    } else if IsReconcilerStep(step) {
      ReconcilerStepKeeps(s, step);
    } else if IsOperatorStep(step) {
      OperatorStepKeeps(s, step);
    } else {
      match step
      case EnqueueStep(j, w, key, payload, m, now) => EnqueueKeeps(s, j, w, key, payload, m, now);
      case LeaseOutboxStep(chosen, l, now, ms) => LeaseOutboxKeeps(s, chosen, l, now, ms);
      case MarkDispatchedStep(j, l, d, now) => MarkDispatchedKeeps(s, j, l, d, now);
      case ReleaseOutboxStep(j, l, at) => ReleaseOutboxKeeps(s, j, l, at);
      case ClaimStep(w, j, l, now, ms) => ClaimKeeps(s, w, j, l, now, ms);
      case MakeRetryDueStep(w, j, now) => MakeRetryDueKeeps(s, w, j, now);
    }
  }

  /** So does every run. */
  lemma {:induction false} RunKeepsConsistent(s: Store, steps: seq<Step>)
    requires Consistent(s) && Legal(s, steps)
    ensures Consistent(Execute(s, steps))
    decreases |steps|
  {
    if steps != [] {
      StepKeepsConsistent(s, steps[0]);
      RunKeepsConsistent(Apply(s, steps[0]), steps[1..]);
    }
  }

  lemma EmptyConsistent()
    ensures Consistent(EmptyStore)
  {
  }
}
