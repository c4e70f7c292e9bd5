/**
 The operator rate limit: the guard counts the audit events of the last minute, and every attempt that
 reaches the guard as an administrator appends one, so admissions are bounded in every window of time.
 */
module OperatorRate {
  import opened Options
  import opened JobStore
  import opened JobTransactions
  import opened JobProtocol
  import opened JobInterleaving

  /** The operation got past the guard. */
  predicate Admitted(e: AuditEvent)
  {
    e.outcome != RateLimited && e.reason != AdminRequired
  }

  predicate InWindow(e: AuditEvent, action: Action, actor: Id, workspace: Id, from: Time)
  {
    Admitted(e) && Counted(e, action, actor, workspace, from) && e.occurredAt <= from + 60_000
  }

  /** Operations of one actor admitted within the window of 60 seconds that starts at `from`. */
  function CountAdmitted(audit: seq<AuditEvent>, action: Action, actor: Id, workspace: Id, from: Time): nat
  {
    if audit == [] then 0
    else CountAdmitted(audit[..|audit| - 1], action, actor, workspace, from)
         + (if InWindow(audit[|audit| - 1], action, actor, workspace, from) then 1 else 0)
  }

  /** The events that the guard counts. */
  function RecentEvents(audit: seq<AuditEvent>, action: Action, actor: Id, workspace: Id, since: Time): set<nat>
  {
    set i: nat | i < |audit| && Counted(audit[i], action, actor, workspace, since)
  }

  lemma {:induction false} CountRecentIsSet(audit: seq<AuditEvent>, action: Action, actor: Id, workspace: Id, since: Time)
    ensures CountRecent(audit, action, actor, workspace, since) == |RecentEvents(audit, action, actor, workspace, since)|
  {
    if audit != [] {
      var n := |audit| - 1;
      var init := audit[..n];
      CountRecentIsSet(init, action, actor, workspace, since);
      assert RecentEvents(audit, action, actor, workspace, since) ==
             RecentEvents(init, action, actor, workspace, since)
             + if Counted(audit[n], action, actor, workspace, since) then {n} else {};
    }
  }

  // ----- The guard holds along every run -----

  /** The event an operation appends. */
  predicate Records(before: seq<AuditEvent>, after: seq<AuditEvent>, action: Action, op: Operator, now: Time, admitted: bool)
  {
    && |after| == |before| + 1 && after[..|before|] == before
    && var e := after[|before|];
       e.action == action && e.actor == op.id && e.workspaceId == op.workspaceId && e.occurredAt == now && Admitted(e) == admitted
  }

  lemma FinishCancelRecords(s: Store, op: Operator, j: Id, seen: Job, code: string, now: Time)
    ensures Records(s.audit, FinishCancel(s, op, j, seen, code, now).audit, CancelAction, op, now, true)
  {
    CancelWriteKeepsTrail(s, j, seen, now);
  }

  lemma CancelWriteKeepsTrail(s: Store, j: Id, seen: Job, now: Time)
    ensures CancelWrite(s, j, seen, now).Some? ==> CancelWrite(s, j, seen, now).value.audit == s.audit
  {
  }

  lemma RetryWriteKeepsTrail(s: Store, j: Id, seen: Job, now: Time)
    ensures RetryWrite(s, j, seen, now).Some? ==> RetryWrite(s, j, seen, now).value.audit == s.audit
  {
  }

  lemma SettleRetryRecords(s: Store, op: Operator, j: Id, seen: Job, refusal: Option<(Outcome, Reason)>, code: string, now: Time)
    requires refusal.Some? ==> refusal.value.0 != RateLimited && refusal.value.1 != AdminRequired
    ensures Records(s.audit, SettleRetry(s, op, j, seen, refusal, code, now).audit, RetryAction, op, now, true)
  {
    RetryWriteKeepsTrail(s, j, seen, now);
  }

  /** An authorised cancellation appends one event, and it is admitted exactly when the guard allowed it. */
  lemma CancelRecords(s: Store, op: Operator, j: Id, code: string, now: Time)
    requires op.authorised
    ensures Records(s.audit, CancelJob(s, op, j, code, now).audit, CancelAction, op, now, Authorise(s, op, CancelAction, now).Allowed?)
  {
    if j in s.jobs { FinishCancelRecords(s, op, j, s.jobs[j], code, now); }
  }

  lemma RetryRecords(s: Store, op: Operator, j: Id, code: string, met: bool, now: Time)
    requires op.authorised
    ensures Records(s.audit, RetryJob(s, op, j, code, met, now).audit, RetryAction, op, now, Authorise(s, op, RetryAction, now).Allowed?)
  {
    if j in s.jobs { SettleRetryRecords(s, op, j, s.jobs[j], RetryRefusal(s, j, s.jobs[j], met), code, now); }
  }

  // ----- Overlapping operations -----

  predicate Mine(r: Request, action: Action, actor: Id, workspace: Id)
  {
    r.Operating? && r.action == action && r.op.id == actor && r.op.workspaceId == workspace
  }

  predicate IsMine(e: AuditEvent, action: Action, actor: Id, workspace: Id)
  {
    e.action == action && e.actor == actor && e.workspaceId == workspace
  }

  /** The actor's open operations of one kind. */
  function OpenMine(w: World, action: Action, actor: Id, workspace: Id): set<Id>
  {
    set tx | tx in w.open && Mine(w.open[tx].request, action, actor, workspace)
  }

  /** Whenever the actor begins such an operation, at most `lag` others of the actor's are open. */
  predicate AtMostOpen(w: World, es: seq<Event>, lag: nat, action: Action, actor: Id, workspace: Id)
    decreases |es|
  {
    es == [] ||
    ((es[0].Read? && Mine(es[0].request, action, actor, workspace) ==> |OpenMine(w, action, actor, workspace)| <= lag)
     && AtMostOpen(Advance(w, es[0]), es[1..], lag, action, actor, workspace))
  }

  /** The begin numbers of the actor's operations that began before a given one and were still open then: they
      have been recorded since, or are open still. */
  function Earlier(w: World, order: nat, start: nat, action: Action, actor: Id, workspace: Id): set<nat>
    requires |w.marks| == |w.store.audit|
  {
    EarlierRecorded(w.store.audit, w.marks, order, start, action, actor, workspace) + EarlierOpen(w.open, order, action, actor, workspace)
  }

  function EarlierRecorded(audit: seq<AuditEvent>, marks: seq<Mark>, order: nat, start: nat, action: Action, actor: Id, workspace: Id): set<nat>
    requires |marks| == |audit|
  {
    set i: nat | start <= i < |marks| && IsMine(audit[i], action, actor, workspace) && marks[i].order < order :: marks[i].order
  }

  function EarlierOpen(open: map<Id, Open>, order: nat, action: Action, actor: Id, workspace: Id): set<nat>
  {
    set tx | tx in open && Mine(open[tx].request, action, actor, workspace) && open[tx].order < order :: open[tx].order
  }

  /** The guard counted fewer events than the limit on the trail as it was when the operation began. */
  predicate BelowLimit(audit: seq<AuditEvent>, start: nat, action: Action, actor: Id, workspace: Id, now: Time)
  {
    start <= |audit| && CountRecent(audit[..start], action, actor, workspace, now - OPERATION_WINDOW_MS) < OperationLimit(action)
  }

  /** The history components are in order: begin numbers are distinct and starts lie back. */
  predicate Numbered(w: World)
  {
    && |w.marks| == |w.store.audit|
    && (forall i | 0 <= i < |w.marks| :: w.marks[i].order < w.begun && w.marks[i].start <= i)
    && (forall tx | tx in w.open :: w.open[tx].order < w.begun && w.open[tx].start <= |w.store.audit|)
    && (forall i, k | 0 <= i < k < |w.marks| :: w.marks[i].order != w.marks[k].order)
    && (forall tx, i | tx in w.open && 0 <= i < |w.marks| :: w.open[tx].order != w.marks[i].order)
    && (forall tx, ty | tx in w.open && ty in w.open && tx != ty :: w.open[tx].order != w.open[ty].order)
  }

  predicate RecordedWell(w: World, i: nat, lag: nat, action: Action, actor: Id, workspace: Id)
    requires |w.marks| == |w.store.audit| && i < |w.marks|
  {
    var e, m := w.store.audit[i], w.marks[i];
    IsMine(e, action, actor, workspace) ==>
      && |Earlier(w, m.order, m.start, action, actor, workspace)| <= lag
      && (Admitted(e) ==> BelowLimit(w.store.audit, m.start, action, actor, workspace, e.occurredAt))
  }

  predicate OpenWell(w: World, o: Open, lag: nat, action: Action, actor: Id, workspace: Id)
    requires |w.marks| == |w.store.audit|
  {
    Mine(o.request, action, actor, workspace) ==>
      && |Earlier(w, o.order, o.start, action, actor, workspace)| <= lag
      && (o.guard.Allowed? ==> BelowLimit(w.store.audit, o.start, action, actor, workspace, o.request.now))
      && TurnsAway(o.guard)
  }

  predicate Tracked(w: World, lag: nat, action: Action, actor: Id, workspace: Id)
  {
    && Numbered(w)
    && (forall i: nat | i < |w.marks| :: RecordedWell(w, i, lag, action, actor, workspace))
    && (forall tx | tx in w.open :: OpenWell(w, w.open[tx], lag, action, actor, workspace))
  }

  // ----- The bound -----

  function AdmittedEvents(audit: seq<AuditEvent>, action: Action, actor: Id, workspace: Id, from: Time): set<nat>
  {
    set i: nat | i < |audit| && InWindow(audit[i], action, actor, workspace, from)
  }

  lemma {:induction false} CountAdmittedIsSet(audit: seq<AuditEvent>, action: Action, actor: Id, workspace: Id, from: Time)
    ensures CountAdmitted(audit, action, actor, workspace, from) == |AdmittedEvents(audit, action, actor, workspace, from)|
  {
    if audit != [] {
      var n := |audit| - 1;
      var init := audit[..n];
      CountAdmittedIsSet(init, action, actor, workspace, from);
      assert AdmittedEvents(audit, action, actor, workspace, from) ==
             AdmittedEvents(init, action, actor, workspace, from) + if InWindow(audit[n], action, actor, workspace, from) then {n} else {};
    }
  }

  lemma SubsetIsSmaller<T>(a: set<T>, b: set<T>)
    requires a <= b
    ensures |a| <= |b|
  {
    assert b == a + (b - a);
  }

  /** The last of some events to begin. */
  lemma {:induction false} LastToBegin(marks: seq<Mark>, events: set<nat>) returns (m: nat)
    requires events != {} && forall i | i in events :: i < |marks|
    requires forall i, k | 0 <= i < k < |marks| :: marks[i].order != marks[k].order
    ensures m in events && forall a | a in events && a != m :: marks[a].order < marks[m].order
    decreases |events|
  {
    var i :| i in events;
    if events == {i} {
      return i;
    }
    var k := LastToBegin(marks, events - {i});
    assert i != k && marks[i].order != marks[k].order;
    m := if marks[i].order < marks[k].order then k else i;
  }

  lemma {:induction false} OrdersOf(marks: seq<Mark>, events: set<nat>, orders: set<nat>)
    requires forall i | i in events :: i < |marks| && marks[i].order in orders
    requires forall i, k | 0 <= i < k < |marks| :: marks[i].order != marks[k].order
    ensures |events| <= |orders|
    decreases |events|
  {
    if events != {} {
      var i :| i in events;
      OrdersOf(marks, events - {i}, orders - {marks[i].order});
    }
  }

  /** Whatever the clocks, at most the limit and `lag` more operations of one actor are admitted in any window. */
  lemma TrackedIsBounded(w: World, lag: nat, action: Action, actor: Id, workspace: Id, from: Time)
    requires Tracked(w, lag, action, actor, workspace)
    ensures CountAdmitted(w.store.audit, action, actor, workspace, from) <= OperationLimit(action) + lag
  {
    var audit := w.store.audit;
    CountAdmittedIsSet(audit, action, actor, workspace, from);
    var admitted := AdmittedEvents(audit, action, actor, workspace, from);
    if admitted != {} {
      var m := LastToBegin(w.marks, admitted);
      assert RecordedWell(w, m, lag, action, actor, workspace);
      AroundTheLast(w, admitted, m, lag, action, actor, workspace, from);
    }
  }

  lemma AroundTheLast(w: World, admitted: set<nat>, m: nat, lag: nat, action: Action, actor: Id, workspace: Id, from: Time)
    requires Numbered(w) && m in admitted
    requires forall a | a in admitted :: a < |w.marks| && InWindow(w.store.audit[a], action, actor, workspace, from)
    requires forall a | a in admitted && a != m :: w.marks[a].order < w.marks[m].order
    requires RecordedWell(w, m, lag, action, actor, workspace)
    ensures |admitted| <= OperationLimit(action) + lag
  {
    var order, start := w.marks[m].order, w.marks[m].start;
    var before := set a | a in admitted && a < start;
    var after := set a | a in admitted && start <= a && a != m;
    AllAround(admitted, before, after, m);
    BeforeAreCounted(w.store.audit, start, before, m, action, actor, workspace, from);
    OrdersOf(w.marks, after, Earlier(w, order, start, action, actor, workspace));
  }

  lemma AllAround(admitted: set<nat>, before: set<nat>, after: set<nat>, m: nat)
    requires forall a | a in admitted :: a in before || a in after || a == m
    ensures |admitted| <= |before| + |after| + 1
  {
    SubsetIsSmaller(admitted, before + after + {m});
  }

  lemma BeforeAreCounted(audit: seq<AuditEvent>, start: nat, before: set<nat>, m: nat, action: Action, actor: Id, workspace: Id, from: Time)
    requires m < |audit| && InWindow(audit[m], action, actor, workspace, from)
    requires BelowLimit(audit, start, action, actor, workspace, audit[m].occurredAt)
    requires forall a | a in before :: a < start && InWindow(audit[a], action, actor, workspace, from)
    ensures |before| < OperationLimit(action)
  {
    var since := audit[m].occurredAt - OPERATION_WINDOW_MS;
    CountRecentIsSet(audit[..start], action, actor, workspace, since);
    SubsetIsSmaller(before, RecentEvents(audit[..start], action, actor, workspace, since));
  }

  // ----- Every event keeps the bookkeeping -----

  lemma WholeKeepsTrail(s: Store, step: Step)
    requires !IsOperatorStep(step)
    ensures Apply(s, step).audit == s.audit
  {
  }

  lemma FinishWriteKeepsTrail(s: Store, r: Request, seen: Job)
    requires !r.Operating?
    ensures FinishWrite(s, r, seen).audit == s.audit
  {
  }

  /** One event of the request is appended; it is admitted only if the guard allowed the operation. */
  predicate Appends(before: seq<AuditEvent>, after: seq<AuditEvent>, r: Request, guard: Guard)
  {
    && r.Operating? && |after| == |before| + 1 && after[..|before|] == before
    && IsMine(after[|before|], r.action, r.op.id, r.op.workspaceId) && after[|before|].occurredAt == r.now
    && (Admitted(after[|before|]) && TurnsAway(guard) ==> guard.Allowed?)
    && (guard.Denied? ==> guard.audited)
  }

  /** A recorded denial is one of the two that count as turned away. */
  predicate TurnsAway(guard: Guard)
  {
    guard.Denied? ==> guard.outcome == RateLimited || guard.reason == AdminRequired || !guard.audited
  }

  /** The writes of a transaction record one event of an operation, or none. */
  lemma FinishRecords(s: Store, o: Open)
    ensures Finish(s, o).audit == s.audit || Appends(s.audit, Finish(s, o).audit, o.request, o.guard)
  {
    match o.request
    case Operating(op, action, j, code, met, now) => OperationRecords(s, o, op, action, j, code, now);
    case _ => if o.seen.Some? { FinishWriteKeepsTrail(s, o.request, o.seen.value); }
  }

  lemma OperationRecords(s: Store, o: Open, op: Operator, action: Action, j: Id, code: string, now: Time)
    requires o.request.Operating? && o.request.op == op && o.request.action == action && o.request.now == now
    ensures var t := FinishOperation(s, o, op, action, j, code, now);
            t.audit == s.audit || Appends(s.audit, t.audit, o.request, o.guard)
  {
    if o.guard.Allowed? && o.seen.Some? {
      CancelWriteKeepsTrail(s, j, o.seen.value, now);
      RetryWriteKeepsTrail(s, j, o.seen.value, now);
    }
  }

  /** What one event does to the trail and to the history components. */
  predicate Trails(w: World, v: World, e: Event)
  {
    || (v.store.audit == w.store.audit && v.marks == w.marks)
    || (e.Write? && e.tx in w.open && var o := w.open[e.tx];
        v.marks == w.marks + [Mark(o.order, o.start)] && Appends(w.store.audit, v.store.audit, o.request, o.guard))
  }

  lemma EventTrails(w: World, e: Event)
    requires Possible(w, e)
    ensures Trails(w, Advance(w, e), e)
  {
    match e
    case Whole(step) => WholeKeepsTrail(w.store, step);
    case Write(tx) => FinishRecords(w.store, w.open[tx]);
    case _ =>
  }

  predicate OpenMoves(w: World, v: World, e: Event)
  {
    && w.begun <= v.begun
    && (forall tx | tx in v.open && !(e.Read? && e.tx == tx) :: tx in w.open && v.open[tx] == w.open[tx])
    && (e.Write? ==> e.tx !in v.open)
    && (e.Read? ==> v.begun == w.begun + 1 && e.tx in v.open && v.open[e.tx] == Begin(w.store, e.request, w.begun)
                    && v.store.audit == w.store.audit && v.marks == w.marks)
  }

  lemma EventMovesOpen(w: World, e: Event)
    requires Possible(w, e)
    ensures OpenMoves(w, Advance(w, e), e)
  {
  }

  lemma KeepsNumbered(w: World, v: World, e: Event)
    requires Numbered(w) && Trails(w, v, e) && OpenMoves(w, v, e)
    ensures Numbered(v)
  {
  }

  lemma EarlierShrinks(w: World, v: World, e: Event, order: nat, start: nat, action: Action, actor: Id, workspace: Id)
    requires Numbered(w) && Numbered(v) && Trails(w, v, e) && OpenMoves(w, v, e) && order < w.begun && start <= |w.store.audit|
    ensures |Earlier(v, order, start, action, actor, workspace)| <= |Earlier(w, order, start, action, actor, workspace)|
  {
    OpenShrinks(w, v, e, order, action, actor, workspace);
    RecordedShrinks(w, v, e, order, start, action, actor, workspace);
    SubsetIsSmaller(Earlier(v, order, start, action, actor, workspace), Earlier(w, order, start, action, actor, workspace));
  }

  lemma OpenShrinks(w: World, v: World, e: Event, order: nat, action: Action, actor: Id, workspace: Id)
    requires OpenMoves(w, v, e) && order < w.begun
    ensures EarlierOpen(v.open, order, action, actor, workspace) <= EarlierOpen(w.open, order, action, actor, workspace)
  {
    forall x | x in EarlierOpen(v.open, order, action, actor, workspace) ensures x in EarlierOpen(w.open, order, action, actor, workspace) {
      var tx :| tx in v.open && Mine(v.open[tx].request, action, actor, workspace) && v.open[tx].order < order && v.open[tx].order == x;
      assert tx in w.open && w.open[tx] == v.open[tx];
    }
  }

  /** What is recorded was recorded before, or was open. */
  lemma RecordedShrinks(w: World, v: World, e: Event, order: nat, start: nat, action: Action, actor: Id, workspace: Id)
    requires Numbered(w) && Numbered(v) && Trails(w, v, e) && start <= |w.store.audit|
    ensures EarlierRecorded(v.store.audit, v.marks, order, start, action, actor, workspace) <=
            Earlier(w, order, start, action, actor, workspace)
  {
    if v.marks != w.marks {
      var n, o := |w.marks|, w.open[e.tx];
      forall x | x in EarlierRecorded(v.store.audit, v.marks, order, start, action, actor, workspace)
        ensures x in Earlier(w, order, start, action, actor, workspace)
      {
        var i: nat :| start <= i < |v.marks| && IsMine(v.store.audit[i], action, actor, workspace) && v.marks[i].order < order && v.marks[i].order == x;
        if i < n {
          assert v.store.audit[i] == v.store.audit[..n][i];
          assert x in EarlierRecorded(w.store.audit, w.marks, order, start, action, actor, workspace);
        } else {
          assert Mine(o.request, action, actor, workspace) && o.order == x;
          assert x in EarlierOpen(w.open, order, action, actor, workspace);
        }
      }
    }
  }

  lemma BelowLimitStays(before: seq<AuditEvent>, after: seq<AuditEvent>, start: nat, action: Action, actor: Id, workspace: Id, now: Time)
    requires BelowLimit(before, start, action, actor, workspace, now) && |before| <= |after| && after[..|before|] == before
    ensures BelowLimit(after, start, action, actor, workspace, now)
  {
    assert after[..start] == before[..start];
  }

  lemma TrailGrows(w: World, v: World, e: Event)
    requires Trails(w, v, e)
    ensures |w.store.audit| <= |v.store.audit| && v.store.audit[..|w.store.audit|] == w.store.audit
  {
  }

  lemma OpenStaysWell(w: World, v: World, e: Event, o: Open, lag: nat, action: Action, actor: Id, workspace: Id)
    requires Numbered(w) && Numbered(v) && Trails(w, v, e) && OpenMoves(w, v, e)
    requires OpenWell(w, o, lag, action, actor, workspace) && o.order < w.begun && o.start <= |w.store.audit|
    ensures OpenWell(v, o, lag, action, actor, workspace)
  {
    EarlierShrinks(w, v, e, o.order, o.start, action, actor, workspace);
    TrailGrows(w, v, e);
    OpenWellOnLongerTrail(w, v, o, lag, action, actor, workspace);
  }

  lemma OpenWellOnLongerTrail(w: World, v: World, o: Open, lag: nat, action: Action, actor: Id, workspace: Id)
    requires |w.marks| == |w.store.audit| <= |v.store.audit| == |v.marks| && v.store.audit[..|w.store.audit|] == w.store.audit
    requires |Earlier(v, o.order, o.start, action, actor, workspace)| <= |Earlier(w, o.order, o.start, action, actor, workspace)|
    requires OpenWell(w, o, lag, action, actor, workspace)
    ensures OpenWell(v, o, lag, action, actor, workspace)
  {
    if Mine(o.request, action, actor, workspace) && o.guard.Allowed? {
      BelowLimitStays(w.store.audit, v.store.audit, o.start, action, actor, workspace, o.request.now);
    }
  }

  lemma RecordStaysWell(w: World, v: World, e: Event, i: nat, lag: nat, action: Action, actor: Id, workspace: Id)
    requires Numbered(w) && Numbered(v) && Trails(w, v, e) && OpenMoves(w, v, e)
    requires i < |w.marks| && RecordedWell(w, i, lag, action, actor, workspace)
    ensures RecordedWell(v, i, lag, action, actor, workspace)
  {
    assert v.marks[i] == w.marks[i] && v.store.audit[i] == v.store.audit[..|w.store.audit|][i] == w.store.audit[i];
    EarlierShrinks(w, v, e, w.marks[i].order, w.marks[i].start, action, actor, workspace);
    var x := w.store.audit[i];
    if IsMine(x, action, actor, workspace) && Admitted(x) {
      BelowLimitStays(w.store.audit, v.store.audit, w.marks[i].start, action, actor, workspace, x.occurredAt);
    }
  }

  /** An operation that begins sees as earlier ones those that are open. */
  lemma BeginsWell(w: World, v: World, e: Event, lag: nat, action: Action, actor: Id, workspace: Id)
    requires Numbered(w) && Numbered(v) && e.Read? && OpenMoves(w, v, e) && e.tx !in w.open
    requires Mine(e.request, action, actor, workspace) ==> |OpenMine(w, action, actor, workspace)| <= lag
    ensures OpenWell(v, v.open[e.tx], lag, action, actor, workspace)
  {
    var o := v.open[e.tx];
    if Mine(o.request, action, actor, workspace) {
      OrdersOfOpen(w, OpenMine(w, action, actor, workspace), Earlier(v, o.order, o.start, action, actor, workspace));
      assert w.store.audit[..|w.store.audit|] == w.store.audit;
    }
  }

  lemma {:induction false} OrdersOfOpen(w: World, txs: set<Id>, orders: set<nat>)
    requires forall x | x in orders :: exists tx | tx in txs :: tx in w.open && w.open[tx].order == x
    ensures |orders| <= |txs|
    decreases |orders|
  {
    if orders != {} {
      var x :| x in orders;
      var tx :| tx in txs && tx in w.open && w.open[tx].order == x;
      forall y | y in orders - {x} ensures exists ty | ty in txs - {tx} :: ty in w.open && w.open[ty].order == y {
        var ty :| ty in txs && ty in w.open && w.open[ty].order == y;
        assert ty != tx;
      }
      OrdersOfOpen(w, txs - {tx}, orders - {x});
    }
  }

  /** An operation is recorded with the begin number and the trail it began with. */
  lemma RecordsWell(w: World, v: World, e: Event, lag: nat, action: Action, actor: Id, workspace: Id)
    requires Numbered(w) && Numbered(v) && Trails(w, v, e) && OpenMoves(w, v, e) && |v.marks| > |w.marks|
    requires e.Write? && e.tx in w.open && OpenWell(w, w.open[e.tx], lag, action, actor, workspace)
    ensures RecordedWell(v, |w.marks|, lag, action, actor, workspace)
  {
    OpenStaysWell(w, v, e, w.open[e.tx], lag, action, actor, workspace);
  }

  lemma EventKeepsTracked(w: World, e: Event, lag: nat, action: Action, actor: Id, workspace: Id)
    requires Tracked(w, lag, action, actor, workspace) && Possible(w, e)
    requires e.Read? && Mine(e.request, action, actor, workspace) ==> |OpenMine(w, action, actor, workspace)| <= lag
    ensures Tracked(Advance(w, e), lag, action, actor, workspace)
  {
    var v := Advance(w, e);
    EventTrails(w, e);
    EventMovesOpen(w, e);
    assert e.Read? ==> e.tx !in w.open;
    TrailsKeepTracked(w, v, e, lag, action, actor, workspace);
  }

  lemma TrailsKeepTracked(w: World, v: World, e: Event, lag: nat, action: Action, actor: Id, workspace: Id)
    requires Tracked(w, lag, action, actor, workspace) && Trails(w, v, e) && OpenMoves(w, v, e) && (e.Read? ==> e.tx !in w.open)
    requires e.Read? && Mine(e.request, action, actor, workspace) ==> |OpenMine(w, action, actor, workspace)| <= lag
    ensures Tracked(v, lag, action, actor, workspace)
  {
    KeepsNumbered(w, v, e);
    forall i: nat | i < |v.marks| ensures RecordedWell(v, i, lag, action, actor, workspace) {
      if i < |w.marks| {
        RecordStaysWell(w, v, e, i, lag, action, actor, workspace);
      } else {
        RecordsWell(w, v, e, lag, action, actor, workspace);
      }
    }
    forall tx | tx in v.open ensures OpenWell(v, v.open[tx], lag, action, actor, workspace) {
      if e.Read? && e.tx == tx {
        BeginsWell(w, v, e, lag, action, actor, workspace);
      } else {
        OpenStaysWell(w, v, e, w.open[tx], lag, action, actor, workspace);
      }
    }
  }

  lemma {:induction false} RunIsTracked(w: World, es: seq<Event>, lag: nat, action: Action, actor: Id, workspace: Id)
    requires Tracked(w, lag, action, actor, workspace) && Playable(w, es) && AtMostOpen(w, es, lag, action, actor, workspace)
    ensures Tracked(Play(w, es), lag, action, actor, workspace)
    decreases |es|
  {
    if es != [] {
      EventKeepsTracked(w, es[0], lag, action, actor, workspace);
      RunIsTracked(Advance(w, es[0]), es[1..], lag, action, actor, workspace);
    }
  }

  /** In every interleaving, with any clock order: when an actor never begins an operation with more than `lag`
      others open, at most `lag` more than 10 cancellations, or 5 retries, get past the guard within any
      60 seconds. One at a time (`lag` 0) the limits are exact. */
  lemma OperatorRateBound(es: seq<Event>, lag: nat, action: Action, actor: Id, workspace: Id, from: Time)
    requires Playable(EmptyWorld, es) && AtMostOpen(EmptyWorld, es, lag, action, actor, workspace)
    ensures CountAdmitted(Play(EmptyWorld, es).store.audit, action, actor, workspace, from)
         <= (match action case CancelAction => 10 case RetryAction => 5) + lag
  {
    RunIsTracked(EmptyWorld, es, lag, action, actor, workspace);
    TrackedIsBounded(Play(EmptyWorld, es), lag, action, actor, workspace, from);
  }
}
