/** The two services that string transactions together: the reconciler's sweeps and the delivery handler. */
module JobServices {
  import opened Options
  import opened JobLifecycle
  import opened JobRetry
  import opened JobStore
  import opened JobTransactions
  import opened JobProtocol
  import opened JobEvolution
  import opened JobRescue
  import opened JobRefinement
  import opened JobDatabase

  // ----- Reconciliation -----

  datatype Query = Expired | DueRetries | StrandedDeliveries

  predicate Listed(s: Store, q: Query, j: Id, now: Time)
  {
    match q
    case Expired => ListedAsExpired(s, j, now)
    case DueRetries => ListedAsDueRetry(s, j, now)
    case StrandedDeliveries => ListedAsStranded(s, j, now)
  }

  function RepairStep(q: Query, workspace: Id, j: Id, now: Time): Step
  {
    match q
    case Expired => RecoverLeaseStep(workspace, j, now)
    case DueRetries => RequeueDueRetryStep(workspace, j, now)
    case StrandedDeliveries => RequeueStrandedStep(workspace, j, now)
  }

  /** Nothing is listed by `t` that `s` did not list. */
  ghost predicate ListsOnlyShrink(s: Store, t: Store, now: Time)
  {
    forall q, j :: Listed(t, q, j, now) ==> Listed(s, q, j, now)
  }

  /** A repair takes its job off every list, puts no job on any list, and leaves the rows of other jobs alone. */
  lemma RepairSettles(s: Store, q: Query, j: Id, now: Time)
    requires j in s.jobs && JobConsistent(s, j) && Listed(s, q, j, now)
    ensures var t := Apply(s, RepairStep(q, s.jobs[j].workspaceId, j, now));
            && ListsOnlyShrink(s, t, now)
            && (forall p :: !Listed(t, p, j, now))
            && (forall i :: i != j ==> RowsUnchanged(s, t, i))
            && t.jobs.Keys == s.jobs.Keys && t.jobs[j].workspaceId == s.jobs[j].workspaceId
  {
    forall i ensures i != j ==> RowsUnchanged(s, Apply(s, RepairStep(q, s.jobs[j].workspaceId, j, now)), i) {
      if i != j { RepairIsLocal(s, q, j, now, i); }
    }
    RepairTakesOff(s, q, j, now);
    UnchangedRowsStayListed(s, Apply(s, RepairStep(q, s.jobs[j].workspaceId, j, now)), j, now);
  }

  lemma UnchangedRowsStayListed(s: Store, t: Store, j: Id, now: Time)
    requires forall i :: i != j ==> RowsUnchanged(s, t, i)
    requires forall p :: !Listed(t, p, j, now)
    ensures ListsOnlyShrink(s, t, now)
  {
    forall q, i | Listed(t, q, i, now) ensures Listed(s, q, i, now) {
      assert RowsUnchanged(s, t, i);
    }
  }

  predicate RowsUnchanged(s: Store, t: Store, i: Id)
  {
    && (i in t.jobs <==> i in s.jobs) && (i in t.outboxes <==> i in s.outboxes)
    && (i in s.jobs ==> t.jobs[i] == s.jobs[i]) && (i in s.outboxes ==> t.outboxes[i] == s.outboxes[i])
  }

  lemma RepairIsLocal(s: Store, q: Query, j: Id, now: Time, i: Id)
    requires j in s.jobs && JobConsistent(s, j) && i != j
    ensures RowsUnchanged(s, Apply(s, RepairStep(q, s.jobs[j].workspaceId, j, now)), i)
  {
  }

  lemma RepairTakesOff(s: Store, q: Query, j: Id, now: Time)
    requires j in s.jobs && JobConsistent(s, j) && Listed(s, q, j, now)
    ensures var t := Apply(s, RepairStep(q, s.jobs[j].workspaceId, j, now));
            && j in t.jobs && t.jobs[j].workspaceId == s.jobs[j].workspaceId
            && t.jobs.Keys == s.jobs.Keys
            && forall p :: !Listed(t, p, j, now)
  {
  }

  /** The transactions one sweep starts, in order. */
  function SweepSteps(s: Store, q: Query, ids: seq<Id>, now: Time): (steps: seq<Step>)
    ensures |steps| == |ids|
    ensures forall k | 0 <= k < |ids| && ids[k] in s.jobs :: steps[k] == RepairStep(q, s.jobs[ids[k]].workspaceId, ids[k], now)
  {
    seq(|ids|, k requires 0 <= k < |ids| => RepairStep(q, if ids[k] in s.jobs then s.jobs[ids[k]].workspaceId else 0, ids[k], now))
  }

  predicate Distinct(ids: seq<Id>)
  {
    forall a, b | 0 <= a < b < |ids| :: ids[a] != ids[b]
  }

  /** Reads at most a batch of the jobs a query lists, in no particular order. */
  method ListJobs(db: Database, q: Query, now: Time, batchSize: nat) returns (ids: seq<Id>)
    requires db.Valid()
    ensures Distinct(ids) && |ids| <= batchSize
    ensures forall k | 0 <= k < |ids| :: Listed(db.Contents(), q, ids[k], now)
    ensures |ids| < batchSize ==> forall j :: Listed(db.Contents(), q, j, now) ==> j in ids
  {
    ids := [];
    var view := Store(db.jobs, db.attempts, db.outboxes, db.results, db.audit, map[], {});
    var matching := set j | j in db.jobs && Listed(view, q, j, now);
    ghost var all := matching;
    while matching != {} && |ids| < batchSize
      invariant |ids| <= batchSize && Distinct(ids)
      invariant forall k | 0 <= k < |ids| :: ids[k] in all && ids[k] !in matching
      invariant forall j | j in all :: j in matching || j in ids
      invariant matching <= all
      decreases matching
    {
      SomeMember(matching);
      var j :| j in matching;
      matching := matching - {j};
      ids := ids + [j];
    }
    assert forall j :: j in all <==> Listed(db.Contents(), q, j, now);
  }

  method Repair(db: Database, q: Query, j: Id, now: Time) returns (repaired: bool)
    requires db.Valid() && j in db.jobs
    modifies db
    ensures db.Valid() && db.Contents() == Apply(old(db.Contents()), RepairStep(q, old(db.jobs)[j].workspaceId, j, now))
    ensures old(Listed(db.Contents(), q, j, now)) ==> repaired
  {
    var workspace := db.jobs[j].workspaceId;
    if q == Expired {
      repaired := db.RecoverExpiredLease(workspace, j, now);
    } else {
      repaired := Requeue(db, q, workspace, j, now);
    }
  }

  method Requeue(db: Database, q: Query, workspace: Id, j: Id, now: Time) returns (repaired: bool)
    requires db.Valid() && q != Expired
    modifies db
    ensures db.Valid() && db.Contents() == Apply(old(db.Contents()), RepairStep(q, workspace, j, now))
    ensures old(Owned(db.Contents(), workspace, j) && Listed(db.Contents(), q, j, now)) ==> repaired
  {
    if q == DueRetries {
      repaired := RequeueRetry(db, workspace, j, now);
    } else {
      repaired := RequeueStranding(db, workspace, j, now);
    }
  }

  method RequeueRetry(db: Database, workspace: Id, j: Id, now: Time) returns (repaired: bool)
    requires db.Valid()
    modifies db
    ensures db.Valid() && db.Contents() == RequeueDueRetry(old(db.Contents()), workspace, j, now)
    ensures old(Owned(db.Contents(), workspace, j) && Listed(db.Contents(), DueRetries, j, now)) ==> repaired
  {
    repaired := db.RequeueDueRetryJob(workspace, j, now);
  }

  method RequeueStranding(db: Database, workspace: Id, j: Id, now: Time) returns (repaired: bool)
    requires db.Valid()
    modifies db
    ensures db.Valid() && db.Contents() == RequeueStranded(old(db.Contents()), workspace, j, now)
    ensures old(Owned(db.Contents(), workspace, j) && Listed(db.Contents(), StrandedDeliveries, j, now)) ==> repaired
  {
    repaired := db.RequeueStrandedDelivery(workspace, j, now);
  }

  /** The store `s` is what a sweep has made of `before` after its first `i` repairs. */
  ghost predicate SweepProgress(before: Store, s: Store, q: Query, ids: seq<Id>, i: nat, now: Time)
    requires i <= |ids|
  {
    && s.jobs.Keys == before.jobs.Keys
    && (forall j | j in s.jobs :: s.jobs[j].workspaceId == before.jobs[j].workspaceId)
    && (forall k | i <= k < |ids| :: Listed(s, q, ids[k], now))
    && (forall k | 0 <= k < i :: !Listed(s, q, ids[k], now))
    && ListsOnlyShrink(before, s, now)
    && Legal(before, SweepSteps(before, q, ids[..i], now)) && s == Execute(before, SweepSteps(before, q, ids[..i], now))
  }

  lemma SweepAdvances(before: Store, s: Store, t: Store, q: Query, ids: seq<Id>, i: nat, now: Time)
    requires i < |ids| && Distinct(ids) && SweepProgress(before, s, q, ids, i, now)
    requires ids[i] in s.jobs && JobConsistent(s, ids[i])
    requires t == Apply(s, RepairStep(q, s.jobs[ids[i]].workspaceId, ids[i], now))
    ensures SweepProgress(before, t, q, ids, i + 1, now)
  {
    var j := ids[i];
    assert Listed(s, q, j, now);
    RepairSettles(s, q, j, now);
    forall k | 0 <= k < |ids| && k != i ensures RowsUnchanged(s, t, ids[k]) {
      assert ids[k] != j;
    }
    SweepRunGrows(before, s, t, q, ids, i, now);
    assert forall k | i + 1 <= k < |ids| :: Listed(t, q, ids[k], now);
    assert forall k | 0 <= k < i :: !Listed(t, q, ids[k], now);
    forall i' | i' in t.jobs ensures t.jobs[i'].workspaceId == before.jobs[i'].workspaceId {
      if i' != j { assert RowsUnchanged(s, t, i'); }
    }
  }

  lemma SweepRunGrows(before: Store, s: Store, t: Store, q: Query, ids: seq<Id>, i: nat, now: Time)
    requires i < |ids| && ids[i] in s.jobs && ids[i] in before.jobs && s.jobs[ids[i]].workspaceId == before.jobs[ids[i]].workspaceId
    requires Legal(before, SweepSteps(before, q, ids[..i], now)) && s == Execute(before, SweepSteps(before, q, ids[..i], now))
    requires t == Apply(s, RepairStep(q, s.jobs[ids[i]].workspaceId, ids[i], now))
    ensures Legal(before, SweepSteps(before, q, ids[..i + 1], now)) && t == Execute(before, SweepSteps(before, q, ids[..i + 1], now))
  {
    var step := RepairStep(q, s.jobs[ids[i]].workspaceId, ids[i], now);
    assert SweepSteps(before, q, ids[..i + 1], now) == SweepSteps(before, q, ids[..i], now) + [step];
    RunExtends(before, SweepSteps(before, q, ids[..i], now), s, step);
  }

  lemma RunExtends(before: Store, steps: seq<Step>, s: Store, step: Step)
    requires Legal(before, steps) && s == Execute(before, steps) && Admissible(s, step)
    ensures Legal(before, steps + [step]) && Execute(before, steps + [step]) == Apply(s, step)
  {
    RunSplits(before, steps, [step]);
    RunOfOne(s, step);
  }

  /** One sweep: every listed job is repaired, nothing new is listed anywhere. */
  method Sweep(db: Database, q: Query, ids: seq<Id>, now: Time) returns (repaired: nat)
    requires db.Valid() && Distinct(ids) && forall k | 0 <= k < |ids| :: Listed(db.Contents(), q, ids[k], now)
    modifies db
    ensures db.Valid() && repaired == |ids|
    ensures SweepProgress(old(db.Contents()), db.Contents(), q, ids, |ids|, now)
  {
    repaired := 0;
    ghost var before := db.Contents();
    for i := 0 to |ids|
      invariant db.Valid() && repaired == i
      invariant SweepProgress(before, db.Contents(), q, ids, i, now)
    {
      ghost var s := db.Contents();
      assert Listed(s, q, ids[i], now);
      assert JobConsistent(s, ids[i]);
      var done := Repair(db, q, ids[i], now);
      SweepAdvances(before, s, db.Contents(), q, ids, i, now);
      if done { repaired := repaired + 1; }
    }
  }

  /** One listing and its sweep. A listing that was not cut off by the batch leaves its list empty. */
  method ListAndSweep(db: Database, q: Query, now: Time, batchSize: nat) returns (inspected: nat, repaired: nat)
    requires db.Valid()
    modifies db
    ensures db.Valid() && repaired == inspected <= batchSize
    ensures ListsOnlyShrink(old(db.Contents()), db.Contents(), now)
    ensures db.jobs.Keys == old(db.jobs).Keys
    ensures |old(db.jobs)| < batchSize ==> forall j :: !Listed(db.Contents(), q, j, now)
  {
    var ids := ListJobs(db, q, now, batchSize);
    assert forall k | 0 <= k < |ids| :: Listed(db.Contents(), q, ids[k], now) && ids[k] in db.jobs.Keys;
    BatchFits(ids, db.jobs.Keys);
    inspected := |ids|;
    repaired := Sweep(db, q, ids, now);
  }

  /** The repairing part of the reconciler: three listings, each followed by its sweep. When the batch is
      larger than the number of jobs, no job is left that any of the three queries would list. */
  method ReconcileBackgroundJobs(db: Database, batchSize: int, now: Time) returns (r: Option<(nat, nat)>)
    requires db.Valid()
    modifies db
    ensures db.Valid()
    ensures r.None? <==> !(1 <= batchSize <= 100)
    ensures r.None? ==> db.Contents() == old(db.Contents())
    ensures r.Some? ==> var (inspected, repaired) := r.value; repaired == inspected <= 3 * batchSize
    ensures r.Some? && |old(db.jobs)| < batchSize ==> forall q, j :: !Listed(db.Contents(), q, j, now)
  {
    if batchSize < 1 || batchSize > 100 {
      return None;
    }
    var inspected, repaired := ListAndSweep(db, Expired, now, batchSize);
    ghost var first := db.Contents();
    var more, done := ListAndSweep(db, DueRetries, now, batchSize);
    ghost var second := db.Contents();
    inspected, repaired := inspected + more, repaired + done;
    more, done := ListAndSweep(db, StrandedDeliveries, now, batchSize);
    inspected, repaired := inspected + more, repaired + done;
    if |old(db.jobs)| < batchSize { NothingListed(first, second, db.Contents(), now); }
    return Some((inspected, repaired));
  }

  lemma NothingListed(a: Store, b: Store, c: Store, now: Time)
    requires ListsOnlyShrink(a, b, now) && ListsOnlyShrink(b, c, now)
    requires forall j :: !Listed(a, Expired, j, now) && !Listed(b, DueRetries, j, now) && !Listed(c, StrandedDeliveries, j, now)
    ensures forall q, j :: !Listed(c, q, j, now)
  {
    forall q, j ensures !Listed(c, q, j, now) {
      assert Listed(c, q, j, now) ==> Listed(b, q, j, now) && Listed(a, q, j, now);
    }
  }

  /** Distinct members of a set are no more than the set. */
  lemma BatchFits(ids: seq<Id>, keys: set<Id>)
    requires Distinct(ids) && forall k | 0 <= k < |ids| :: ids[k] in keys
    ensures |ids| <= |keys|
  {
    if ids != [] {
      var last := |ids| - 1;
      forall k | 0 <= k < last ensures ids[..last][k] in keys - {ids[last]} {
        assert ids[k] != ids[last];
      }
      BatchFits(ids[..last], keys - {ids[last]});
    }
  }

  // ----- Handling one delivery -----

  /** What the handler of the queue did once it was given the job. */
  datatype Handler = Produces | Fails(failure: Failure) | IsAborted

  datatype HandlerResult =
    | SucceededNow | AlreadySucceeded | RetryPlanned(at: Time) | GaveUp(action: NextAction) | LeaseAbandoned | LeaseGone
    | Ignored(claim: ClaimResult) | IgnoredAs(check: DeliveryCheck) | NotDue | Leased

  /** A failed handler's answer follows the retry decision for the next attempt of the job, and so does the job's state. */
  predicate Settled(attempt: int, maxAttempts: int, createdAt: Time, failure: Failure, now: Time, random: real, r: HandlerResult, state: JobState)
  {
    match DecideJobRetry(attempt, maxAttempts, failure, createdAt, now, random)
    case Retry(_, at) => r == RetryPlanned(at) && state == RetryScheduled
    case GiveUp(action) => r == GaveUp(action) && state == FailedAttention
  }

  /** Loads the job, looks for an existing result, releases a due retry, claims, runs the handler and settles.
      With no other transaction in between, a delivery runs the handler exactly when the job is Queued or its
      retry is due; a repeated delivery of a settled job changes nothing; at most one result is committed. */
  method RunIdempotentJobHandler(db: Database, workspace: Id, job: Id, lease: Id, now: Time, leaseMs: int, handler: Handler, random: real)
    returns (r: HandlerResult)
    requires db.Valid() && lease !in db.issued
    modifies db
    ensures db.Valid()
    ensures var s := old(db.Contents());
            var runs := Owned(s, workspace, job) && (s.jobs[job].state == Queued || RetryDue(s.jobs[job], now));
            && (!runs ==> db.Contents() == s)
            && (Owned(s, workspace, job) && s.jobs[job].state == Succeeded <==> r == AlreadySucceeded)
            && (runs && handler.Produces? <==> r == SucceededNow)
            && (r == SucceededNow ==> db.results == s.results + multiset{job} && db.jobs[job].state == Succeeded)
            && (r != SucceededNow ==> db.results == s.results)
            && (runs && handler.Fails? ==>
                  job in db.jobs && Settled(s.jobs[job].attemptCount + 1, s.jobs[job].maxAttempts, s.jobs[job].createdAt, handler.failure, now, random, r, db.jobs[job].state))
            && (runs && handler.IsAborted? ==> Holds(db.Contents(), workspace, job, lease))
  {
    if job !in db.jobs || db.jobs[job].workspaceId != workspace {
      return Ignored(Missing);
    }
    assert JobConsistent(db.Contents(), job);
    var check := CheckDelivery(db.jobs[job], db.results[job] > 0);
    if check != Proceed {
      return if check == AlreadySucceededCheck then AlreadySucceeded else IgnoredAs(check);
    }
    if db.jobs[job].state == Processing {
      return Leased;
    }
    r := ReleaseAndHandle(db, workspace, job, lease, now, leaseMs, handler, random);
  }

  method ReleaseAndHandle(db: Database, workspace: Id, job: Id, lease: Id, now: Time, leaseMs: int, handler: Handler, random: real)
    returns (r: HandlerResult)
    requires db.Valid() && lease !in db.issued
    requires Owned(db.Contents(), workspace, job) && (db.jobs[job].state == Queued || db.jobs[job].state == RetryScheduled)
    modifies db
    ensures db.Valid() && r != AlreadySucceeded && job in db.jobs
    ensures var o := old(db.jobs)[job];
            if o.state == Queued || RetryDue(o, now)
            then && (handler.Produces? <==> r == SucceededNow)
                 && (r == SucceededNow ==> db.results == old(db.results) + multiset{job} && db.jobs[job].state == Succeeded)
                 && (r != SucceededNow ==> db.results == old(db.results))
                 && (handler.Fails? ==> Settled(o.attemptCount + 1, o.maxAttempts, o.createdAt, handler.failure, now, random, r, db.jobs[job].state))
                 && (handler.IsAborted? ==> Holds(db.Contents(), workspace, job, lease))
            else db.Contents() == old(db.Contents()) && r == NotDue
  {
    var claimable := ReleaseIfScheduled(db, workspace, job, now);
    if !claimable {
      return NotDue;
    }
    r := ClaimAndHandle(db, workspace, job, lease, now, leaseMs, handler, random);
  }

  /** A scheduled retry is released when it is due; a Queued job is left as it is. */
  method ReleaseIfScheduled(db: Database, workspace: Id, job: Id, now: Time) returns (claimable: bool)
    requires db.Valid() && Owned(db.Contents(), workspace, job) && (db.jobs[job].state == Queued || db.jobs[job].state == RetryScheduled)
    modifies db`jobs
    ensures db.Valid()
    ensures claimable <==> old(db.jobs)[job].state == Queued || RetryDue(old(db.jobs)[job], now)
    ensures claimable ==> Owned(db.Contents(), workspace, job) && db.jobs[job].state == Queued
                          && db.jobs[job].attemptCount == old(db.jobs)[job].attemptCount && db.jobs[job].maxAttempts == old(db.jobs)[job].maxAttempts
                          && db.jobs[job].createdAt == old(db.jobs)[job].createdAt
    ensures !claimable ==> db.jobs == old(db.jobs)
  {
    assert JobConsistent(db.Contents(), job);
    if db.jobs[job].state == Queued {
      return true;
    }
    claimable := db.MakeBackgroundJobRetryDue(workspace, job, now);
  }

  method ClaimAndHandle(db: Database, workspace: Id, job: Id, lease: Id, now: Time, leaseMs: int, handler: Handler, random: real)
    returns (r: HandlerResult)
    requires db.Valid() && lease !in db.issued && Owned(db.Contents(), workspace, job) && db.jobs[job].state == Queued
    modifies db
    ensures db.Valid()
    ensures handler.Produces? <==> r == SucceededNow
    ensures r != AlreadySucceeded
    ensures job in db.jobs
    ensures r == SucceededNow ==> db.results == old(db.results) + multiset{job} && db.jobs[job].state == Succeeded
    ensures r != SucceededNow ==> db.results == old(db.results)
    ensures handler.Fails? ==> Settled(old(db.jobs)[job].attemptCount + 1, old(db.jobs)[job].maxAttempts, old(db.jobs)[job].createdAt, handler.failure, now, random, r, db.jobs[job].state)
    ensures handler.IsAborted? ==> Holds(db.Contents(), workspace, job, lease)
  {
    assert JobConsistent(db.Contents(), job);
    var claim := db.ClaimBackgroundJob(workspace, job, lease, now, leaseMs);
    assert JobConsistent(db.Contents(), job);
    var check := db.ThrowIfCancellationRequested(workspace, job, lease, now);
    assert check == NotRequested;
    match handler
    case Produces =>
      var committed := db.CommitJobSuccess(workspace, job, lease, now);
      r := if committed then SucceededNow else LeaseGone;
    case Fails(failure) =>
      var decision := db.SettleHandlerFailure(workspace, job, claim, failure, random, now);
      r := match decision
        case Some(Retry(_, at)) => RetryPlanned(at)
        case Some(GiveUp(action)) => GaveUp(action)
        case None => LeaseGone;
    case IsAborted =>
      r := LeaseAbandoned;
  }
}
