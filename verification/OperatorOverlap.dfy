/** Overlapping operations do pass the limit: for every `lag` there is a run that admits the limit and `lag` more. */
module OperatorOverlap {
  import opened JobStore
  import opened JobTransactions
  import opened JobInterleaving
  import opened OperatorRate

  /** An administrator's operation on a job that does not exist; it is admitted and recorded like any other. */
  function Attempt(action: Action): Request { Operating(Operator(1, 1, true, true), action, 0, "", true, 0) }

  function Recorded(action: Action): AuditEvent { AuditEvent(action, 1, 1, 0, NotFound, JobNotFound, 0) }

  function Trail(action: Action, n: nat): (audit: seq<AuditEvent>)
    ensures |audit| == n
  {
    if n == 0 then [] else Trail(action, n - 1) + [Recorded(action)]
  }

  lemma {:induction false} TrailCounts(action: Action, n: nat, since: Time)
    requires since <= 0
    ensures CountRecent(Trail(action, n), action, 1, 1, since) == n
    ensures CountAdmitted(Trail(action, n), action, 1, 1, 0) == n
  {
    if n > 0 { TrailCounts(action, n - 1, since); }
  }

  function Below(k: nat): (ids: set<Id>)
    ensures |ids| == k && forall x :: x in ids <==> 0 <= x < k
  {
    if k == 0 then {} else Below(k - 1) + {k - 1}
  }

  /** `n` attempts are recorded, and the transactions 0 to `k` - 1 are open and past the guard. */
  ghost predicate At(w: World, action: Action, n: nat, k: nat)
  {
    && w.store == EmptyStore.(audit := Trail(action, n))
    && (forall tx :: tx in w.open <==> 0 <= tx < k)
    && (forall tx | tx in w.open :: w.open[tx].request == Attempt(action) && w.open[tx].guard.Allowed? && w.open[tx].seen.None?)
  }

  lemma OneMoreOpens(w: World, action: Action, n: nat, k: nat)
    requires At(w, action, n, k) && n < OperationLimit(action)
    ensures Possible(w, Read(k, Attempt(action))) && At(Advance(w, Read(k, Attempt(action))), action, n, k + 1)
    ensures |OpenMine(w, action, 1, 1)| == k
  {
    TrailCounts(action, n, 0 - OPERATION_WINDOW_MS);
    OpenAreBelow(w, action, n, k);
  }

  lemma OpenAreBelow(w: World, action: Action, n: nat, k: nat)
    requires At(w, action, n, k)
    ensures |OpenMine(w, action, 1, 1)| == k
  {
    assert OpenMine(w, action, 1, 1) == Below(k);
  }

  lemma OneRecords(w: World, action: Action, n: nat, k: nat)
    requires At(w, action, n, k + 1)
    ensures Possible(w, Write(k)) && At(Advance(w, Write(k)), action, n + 1, k)
  {
  }

  ghost predicate Reaches(w: World, es: seq<Event>, action: Action, lag: nat, n: nat)
  {
    Playable(w, es) && AtMostOpen(w, es, lag, action, 1, 1) && At(Play(w, es), action, n, 0)
  }

  lemma Prepend(w: World, e: Event, es: seq<Event>, action: Action, lag: nat, n: nat)
    requires Possible(w, e) && (e.Read? && Mine(e.request, action, 1, 1) ==> |OpenMine(w, action, 1, 1)| <= lag)
    requires Reaches(Advance(w, e), es, action, lag, n)
    ensures Reaches(w, [e] + es, action, lag, n)
  {
    assert ([e] + es)[1..] == es;
  }

  /** The open transactions write, one after another. */
  lemma {:induction false} Drain(w: World, action: Action, n: nat, k: nat, lag: nat) returns (es: seq<Event>)
    requires At(w, action, n, k)
    ensures Reaches(w, es, action, lag, n + k)
    decreases k
  {
    es := [];
    if k > 0 {
      OneRecords(w, action, n, k - 1);
      es := Drain(Advance(w, Write(k - 1)), action, n + 1, k - 1, lag);
      Prepend(w, Write(k - 1), es, action, lag, n + k);
      es := [Write(k - 1)] + es;
    }
  }

  /** Attempts one at a time while `lag` others are open, until the limit is recorded. */
  lemma {:induction false} Cycle(w: World, action: Action, n: nat, lag: nat) returns (es: seq<Event>)
    requires At(w, action, n, lag) && n <= OperationLimit(action)
    ensures Reaches(w, es, action, lag, OperationLimit(action) + lag)
    decreases OperationLimit(action) - n
  {
    if n == OperationLimit(action) {
      es := Drain(w, action, n, lag, lag);
    } else {
      var read, write := Read(lag, Attempt(action)), Write(lag);
      OneMoreOpens(w, action, n, lag);
      OneRecords(Advance(w, read), action, n, lag);
      es := Cycle(Advance(Advance(w, read), write), action, n + 1, lag);
      Prepend(Advance(w, read), write, es, action, lag, OperationLimit(action) + lag);
      Prepend(w, read, [write] + es, action, lag, OperationLimit(action) + lag);
      es := [read] + ([write] + es);
    }
  }

  /** First `lag` transactions begin. */
  lemma {:induction false} Fill(w: World, action: Action, k: nat, lag: nat) returns (es: seq<Event>)
    requires At(w, action, 0, k) && k <= lag
    ensures Reaches(w, es, action, lag, OperationLimit(action) + lag)
    decreases lag - k
  {
    if k == lag {
      es := Cycle(w, action, 0, lag);
    } else {
      var read := Read(k, Attempt(action));
      OneMoreOpens(w, action, 0, k);
      es := Fill(Advance(w, read), action, k + 1, lag);
      Prepend(w, read, es, action, lag, OperationLimit(action) + lag);
      es := [read] + es;
    }
  }

  /** The bound is reached for every `lag`; with `lag` 1 that is an eleventh cancellation, or a sixth retry. */
  lemma LimitPlusLagIsReached(action: Action, lag: nat) returns (es: seq<Event>)
    ensures Playable(EmptyWorld, es) && AtMostOpen(EmptyWorld, es, lag, action, 1, 1)
    ensures CountAdmitted(Play(EmptyWorld, es).store.audit, action, 1, 1, 0) == (match action case CancelAction => 10 case RetryAction => 5) + lag
  {
    es := Fill(EmptyWorld, action, 0, lag);
    TrailCounts(action, OperationLimit(action) + lag, 0);
  }
}
