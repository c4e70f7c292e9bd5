/**
 Interleaved transactions. A transaction that reads a row, decides, and then writes under a guard is two events
 here, its read and its write, and any events of other participants may fall between them; one that crashes
 never writes. Every run of these events is a run of the protocol's steps, so what holds of all runs of steps
 holds of all interleavings.
 */
module JobInterleaving {
  import opened Options
  import opened JobLifecycle
  import opened JobStore
  import opened JobTransactions
  import opened JobProtocol
  import opened JobEvolution
  import opened JobRefinement

  /** A transaction that reads before it writes. */
  datatype Request =
    | Claiming(workspace: Id, job: Id, lease: Id, now: Time, leaseMs: int)
    | HonouringCancellation(workspace: Id, job: Id, lease: Id, now: Time)
    | Recovering(workspace: Id, job: Id, now: Time)
    | RequeuingRetry(workspace: Id, job: Id, now: Time)
    | RequeuingDelivery(workspace: Id, job: Id, now: Time)
    | Operating(op: Operator, action: Action, job: Id, code: string, prerequisiteMet: bool, now: Time)

  /** An open transaction and what it has read. The last two components are history: how many transactions had
      begun before it, and how long the audit trail was when it counted. */
  datatype Open = Open(request: Request, seen: Option<Job>, guard: Guard, refusal: Option<(Outcome, Reason)>, order: nat, start: nat)

  /** The row the transaction goes on with, if its checks let it. */
  function Look(s: Store, r: Request): Option<Job>
  {
    var found := match r
      case Claiming(w, j, _, _, _) => Owned(s, w, j) && Claimable(s.jobs[j])
      case HonouringCancellation(w, j, l, _) => Holds(s, w, j, l) && s.jobs[j].cancellationRequestedAt.Some?
      case Recovering(w, j, now) => Owned(s, w, j) && LeaseLapsed(s.jobs[j], now)
      case RequeuingRetry(w, j, now) => Owned(s, w, j) && RetryDue(s.jobs[j], now)
      case RequeuingDelivery(w, j, _) => Owned(s, w, j) && Stranded(s, j)
      case Operating(op, _, j, _, _, _) => Owned(s, op.workspaceId, j);
    if found then Some(s.jobs[r.job]) else None
  }

  function Begin(s: Store, r: Request, order: nat): Open
  {
    Open(r, Look(s, r), if r.Operating? then Authorise(s, r.op, r.action, r.now) else Allowed,
         if r.Operating? && r.action.RetryAction? && r.job in s.jobs then RetryRefusal(s, r.job, s.jobs[r.job], r.prerequisiteMet) else None,
         order, |s.audit|)
  }

  /** The writes of an open transaction. */
  function Finish(s: Store, o: Open): Store
  {
    match o.request
    case Operating(op, action, j, code, _, now) => FinishOperation(s, o, op, action, j, code, now)
    case _ => if o.seen.None? then s else FinishWrite(s, o.request, o.seen.value)
  }

  function FinishWrite(s: Store, r: Request, seen: Job): Store
    requires !r.Operating?
  {
    match r
    case Claiming(_, j, l, now, ms) => ClaimWrite(s, j, seen, l, now, ms)
    case HonouringCancellation(_, j, l, now) => CancellationWrite(s, j, seen, l, now)
    case Recovering(_, j, now) => RecoverWrite(s, j, seen, now)
    case RequeuingRetry(_, j, now) => RequeueRetryWrite(s, j, seen, now)
    case RequeuingDelivery(_, j, now) => RequeueStrandedWrite(s, j, seen, now)
  }

  function FinishOperation(s: Store, o: Open, op: Operator, action: Action, j: Id, code: string, now: Time): Store
  {
    match o.guard
    case Denied(outcome, reason, audited) => if audited then Audited(s, op, action, j, outcome, reason, now) else s
    case Allowed =>
      if o.seen.None? then Audited(s, op, action, j, NotFound, JobNotFound, now)
      else if action.CancelAction? then FinishCancel(s, op, j, o.seen.value, code, now)
      else SettleRetry(s, op, j, o.seen.value, o.refusal, code, now)
  }

  /** The same transaction when nothing falls between its read and its write. */
  function AtOnce(s: Store, r: Request): Store
  {
    match r
    case Claiming(w, j, l, now, ms) => ClaimJob(s, w, j, l, now, ms)
    case HonouringCancellation(w, j, l, now) => HonourCancellation(s, w, j, l, now)
    case Recovering(w, j, now) => RecoverLease(s, w, j, now)
    case RequeuingRetry(w, j, now) => RequeueDueRetry(s, w, j, now)
    case RequeuingDelivery(w, j, now) => RequeueStranded(s, w, j, now)
    case Operating(op, action, j, code, met, now) =>
      if action.CancelAction? then CancelJob(s, op, j, code, now) else RetryJob(s, op, j, code, met, now)
  }

  /** Undisturbed, a read and its write are the whole transaction. */
  lemma UndisturbedIsAtomic(s: Store, r: Request, order: nat)
    ensures Finish(s, Begin(s, r, order)) == AtOnce(s, r)
  {
  }

  // ----- Events -----

  /** For each audit event: the history components of the transaction that wrote it. */
  datatype Mark = Mark(order: nat, start: nat)

  datatype World = World(store: Store, open: map<Id, Open>, begun: nat, marks: seq<Mark>)

  const EmptyWorld := World(EmptyStore, map[], 0, [])

  datatype Event = Whole(step: Step) | Read(tx: Id, request: Request) | Write(tx: Id) | Crash(tx: Id)

  function Without(open: map<Id, Open>, tx: Id): map<Id, Open> { map t | t in open && t != tx :: open[t] }

  function Advance(w: World, e: Event): World
  {
    match e
    case Whole(step) => w.(store := Apply(w.store, step))
    case Read(tx, r) => w.(open := w.open[tx := Begin(w.store, r, w.begun)], begun := w.begun + 1)
    case Write(tx) =>
      if tx !in w.open then w
      else
        var o := w.open[tx];
        var t := Finish(w.store, o);
        World(t, Without(w.open, tx), w.begun, if |t.audit| > |w.store.audit| then w.marks + [Mark(o.order, o.start)] else w.marks)
    case Crash(tx) => w.(open := Without(w.open, tx))
  }

  /** Generated ids are new. Operations, and recoveries that read earlier, occur only as reads and writes. */
  predicate Possible(w: World, e: Event)
  {
    match e
    case Whole(step) => Admissible(w.store, step) && !step.RecoverWriteStep? && !IsOperatorStep(step)
    case Read(tx, _) => tx !in w.open
    case Write(tx) => tx in w.open && (w.open[tx].request.Claiming? ==> w.open[tx].request.lease !in w.store.issued)
    case Crash(_) => true
  }

  function Play(w: World, es: seq<Event>): World
    decreases |es|
  {
    if es == [] then w else Play(Advance(w, es[0]), es[1..])
  }

  predicate Playable(w: World, es: seq<Event>)
    decreases |es|
  {
    es == [] || (Possible(w, es[0]) && Playable(Advance(w, es[0]), es[1..]))
  }

  // ----- What an open transaction knows -----

  predicate Knows(s: Store, o: Open)
  {
    o.seen.Some? ==> Remembered(s, o.request.job, o.seen.value) && Checked(s, o, o.seen.value)
  }

  /** The checks the transaction made on the row it read; they still say something about the row now. */
  predicate Checked(s: Store, o: Open, seen: Job)
  {
    match o.request
    case Claiming(w, _, _, _, _) => seen.workspaceId == w && Claimable(seen)
    case HonouringCancellation(w, _, l, _) =>
      seen.workspaceId == w && seen.leaseId == Some(l) && seen.state == Processing && seen.cancellationRequestedAt.Some?
    case Recovering(w, _, now) => seen.workspaceId == w && LeaseLapsed(seen, now)
    case RequeuingRetry(w, _, now) => seen.workspaceId == w && RetryDue(seen, now)
    case RequeuingDelivery(w, j, _) => seen.workspaceId == w && (StillCurrent(s, j, seen) ==> Stranded(s, j))
    case Operating(op, action, _, _, _, _) => action.RetryAction? && o.refusal.None? ==> RetryPlanned(seen)
  }

  ghost predicate Sound(w: World)
  {
    Consistent(w.store) && forall tx | tx in w.open :: Knows(w.store, w.open[tx])
  }

  lemma BeginKnows(s: Store, r: Request, order: nat)
    ensures Knows(s, Begin(s, r, order))
  {
  }

  lemma KnowsStays(s: Store, t: Store, o: Open)
    requires Knows(s, o) && (o.seen.Some? ==> Continues(s, t, o.request.job))
    ensures Knows(t, o)
  {
    if o.seen.Some? { RememberedStays(s, t, o.request.job, o.seen.value); }
  }

  // ----- Every event is a step or nothing -----

  function StepFor(w: World, e: Event): Option<Step>
  {
    match e
    case Whole(step) => Some(step)
    case Write(tx) => if tx in w.open then StepOfWrite(w.store, w.open[tx]) else None
    case _ => None
  }

  function StepOfWrite(s: Store, o: Open): Option<Step>
  {
    match o.request
    case Operating(op, action, j, code, _, now) => StepOfOperation(o, op, action, j, code, now)
    case Recovering(_, j, now) => if o.seen.Some? then Some(RecoverWriteStep(j, o.seen.value, now)) else None
    case _ => if o.seen.Some? && StillCurrent(s, o.request.job, o.seen.value) then Some(WholeOf(o.request)) else None
  }

  function WholeOf(r: Request): Step
    requires !r.Operating? && !r.Recovering?
  {
    match r
    case Claiming(w, j, l, now, ms) => ClaimStep(w, j, l, now, ms)
    case HonouringCancellation(w, j, l, now) => HonourCancellationStep(w, j, l, now)
    case RequeuingRetry(w, j, now) => RequeueDueRetryStep(w, j, now)
    case RequeuingDelivery(w, j, now) => RequeueStrandedStep(w, j, now)
  }

  function StepOfOperation(o: Open, op: Operator, action: Action, j: Id, code: string, now: Time): Option<Step>
  {
    match o.guard
    case Denied(outcome, reason, audited) => if audited then Some(AuditStep(op, action, j, outcome, reason, now)) else None
    case Allowed =>
      if o.seen.None? then Some(AuditStep(op, action, j, NotFound, JobNotFound, now))
      else if action.CancelAction? then Some(CancelWriteStep(op, j, o.seen.value, code, now))
      else Some(RetryWriteStep(op, j, o.seen.value, o.refusal, code, now))
  }

  predicate IsStep(s: Store, t: Store, step: Option<Step>)
  {
    if step.Some? then Admissible(s, step.value) && t == Apply(s, step.value) else t == s
  }

  lemma WriteIsStep(s: Store, r: Request, seen: Job, o: Open)
    requires o.request == r && o.seen == Some(seen) && !r.Operating? && !r.Recovering?
    requires Knows(s, o) && r.job in s.jobs && JobConsistent(s, r.job)
    requires r.Claiming? ==> r.lease !in s.issued
    ensures IsStep(s, FinishWrite(s, r, seen), StepOfWrite(s, o))
  {
    match r
    case Claiming(w, j, l, now, ms) => if StillCurrent(s, j, seen) { ClaimFromSeen(s, w, j, seen, l, now, ms); }
    case _ =>
  }

  lemma OperationIsStep(s: Store, o: Open)
    requires o.request.Operating? && Knows(s, o)
    ensures IsStep(s, Finish(s, o), StepOfWrite(s, o))
  {
  }

  lemma RecoveryIsStep(s: Store, o: Open)
    requires o.request.Recovering? && Knows(s, o)
    ensures IsStep(s, Finish(s, o), StepOfWrite(s, o))
  {
  }

  lemma FinishIsStep(s: Store, o: Open)
    requires Consistent(s) && Knows(s, o) && (o.request.Claiming? ==> o.request.lease !in s.issued)
    ensures IsStep(s, Finish(s, o), StepOfWrite(s, o))
  {
    if o.request.Operating? {
      OperationIsStep(s, o);
    } else if o.request.Recovering? {
      RecoveryIsStep(s, o);
    } else if o.seen.Some? {
      assert JobConsistent(s, o.request.job);
      WriteIsStep(s, o.request, o.seen.value, o);
    }
  }

  lemma EventIsStep(w: World, e: Event)
    requires Sound(w) && Possible(w, e)
    ensures IsStep(w.store, Advance(w, e).store, StepFor(w, e))
  {
    if e.Write? { FinishIsStep(w.store, w.open[e.tx]); }
  }

  lemma EventKeepsSound(w: World, e: Event)
    requires Sound(w) && Possible(w, e)
    ensures Sound(Advance(w, e))
  {
    var v, step := Advance(w, e), StepFor(w, e);
    EventIsStep(w, e);
    if step.Some? { StepKeepsConsistent(w.store, step.value); }
    forall tx | tx in v.open ensures Knows(v.store, v.open[tx]) {
      if e.Read? && tx == e.tx {
        BeginKnows(w.store, e.request, w.begun);
      } else {
        var o := w.open[tx];
        if o.seen.Some? && step.Some? {
          StepEvolves(w.store, step.value, o.request.job);
          KnowsStays(w.store, v.store, o);
        }
      }
    }
  }

  /** Every interleaving is a run of the protocol: there are steps that lead to the same rows. */
  lemma {:induction false} InterleavingIsRun(w: World, es: seq<Event>) returns (steps: seq<Step>)
    requires Sound(w) && Playable(w, es)
    ensures Sound(Play(w, es))
    ensures Legal(w.store, steps) && Execute(w.store, steps) == Play(w, es).store && |steps| <= |es|
    decreases |es|
  {
    if es == [] {
      return [];
    }
    var step := StepFor(w, es[0]);
    EventIsStep(w, es[0]);
    EventKeepsSound(w, es[0]);
    var rest := InterleavingIsRun(Advance(w, es[0]), es[1..]);
    if step.None? {
      return rest;
    }
    steps := [step.value] + rest;
    assert steps[1..] == rest;
  }

  lemma EmptyWorldSound()
    ensures Sound(EmptyWorld)
  {
    EmptyConsistent();
  }
}
