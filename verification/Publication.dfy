/**
 Calculation runs, the statistics they publish and the debounce marker of each account, within one workspace.
 A run's input fingerprint is modelled as the inputs it was computed from.
 */
module Publication {
  import opened Options
  import StatisticReuse
  import FeatureStatistics

  datatype RunState = Building | Active | Superseded | Failed

  datatype FailureCode = CalculationFailed | InputsChanged | NoEligibleAnalyses | StatisticCountMismatch

  /** The analyses and snapshots a run reads; their order does not count. */
  datatype Inputs = Inputs(analyses: multiset<string>, snapshots: multiset<string>)

  /** One account, or every linked account together. */
  type Scope = Option<string>

  datatype Run = Run(
    scope: Scope, state: RunState, inputs: Inputs, startedAt: int, activatedAt: Option<int>, durationMs: Option<int>,
    statisticCount: nat, failure: Option<FailureCode>)

  datatype Marker = Marker(dirtySince: Option<int>, dueAt: Option<int>)

  /** The question a statistic answers and the inputs it answers it from: unique among the stored rows. */
  datatype Key = Key(
    account: Scope, ageWindow: string, metric: string, path: string, value: string, fingerprint: StatisticReuse.Fingerprint)

  datatype Row = Row(id: nat, statistic: FeatureStatistics.Statistic)

  datatype Entry = Entry(key: Key, statistic: FeatureStatistics.Statistic)

  datatype Board = Board(
    runs: map<nat, Run>, markers: map<string, Marker>, rows: map<Key, Row>, published: map<nat, set<nat>>, nextId: nat)

  const Debounce: int := 300000

  // ----- The transactions -----

  /** Only a clean account starts a window. */
  function MarkDirty(b: Board, account: string, now: int): Board
  {
    if account in b.markers && b.markers[account].dirtySince.None?
    then b.(markers := b.markers[account := Marker(Some(now), Some(now + Debounce))])
    else b
  }

  function StartRun(b: Board, id: nat, scope: Scope, inputs: Inputs, now: int): Board
  {
    b.(runs := b.runs[id := Run(scope, Building, inputs, now, None, None, 0, None)])
  }

  function FailRun(b: Board, id: nat, code: FailureCode): Board
  {
    if id in b.runs && b.runs[id].state.Building?
    then b.(runs := b.runs[id := b.runs[id].(state := Failed, failure := Some(code))])
    else b
  }

  function Members(b: Board, run: nat): set<nat>
  {
    if run in b.published then b.published[run] else {}
  }

  function Publish(b: Board, run: nat, statistic: nat): Board
  {
    b.(published := b.published[run := Members(b, run) + {statistic}])
  }

  /** Reuses the row with this key, or writes one, and publishes it in the run. */
  function StoreEntry(b: Board, run: nat, e: Entry): Board
  {
    if e.key in b.rows then Publish(b, run, b.rows[e.key].id)
    else Publish(b.(rows := b.rows[e.key := Row(b.nextId, e.statistic)], nextId := b.nextId + 1), run, b.nextId)
  }

  /** The same when the lookup lies further back: `found` is the row it found. A row with the key that has appeared
      since makes the insert violate the unique key, which aborts it. */
  function StoreFromLookup(b: Board, run: nat, e: Entry, found: Option<nat>): Board
  {
    if found.Some? then Publish(b, run, found.value)
    else if e.key in b.rows then b
    else Publish(b.(rows := b.rows[e.key := Row(b.nextId, e.statistic)], nextId := b.nextId + 1), run, b.nextId)
  }

  function Lookup(b: Board, key: Key): Option<nat> { if key in b.rows then Some(b.rows[key].id) else None }

  datatype Call = Call(id: nat, scope: Scope, marker: Option<int>, expected: nat, inputs: Inputs, now: int)

  datatype Outcome = Activated(superseded: Option<nat>) | Refused(reason: FailureCode) | Aborted

  function Refusal(b: Board, call: Call): (r: Option<FailureCode>)
    ensures r.None? ==> call.id in b.runs
  {
    if call.id !in b.runs || b.runs[call.id].inputs != call.inputs then Some(InputsChanged)
    else if |Members(b, call.id)| != call.expected then Some(StatisticCountMismatch)
    else None
  }

  predicate ActiveIn(b: Board, id: nat, scope: Scope)
  {
    id in b.runs && b.runs[id].scope == scope && b.runs[id].state.Active?
  }

  function Supersede(runs: map<nat, Run>, seen: Option<nat>): (r: map<nat, Run>)
    ensures r.Keys == runs.Keys
  {
    if seen.Some? && seen.value in runs then runs[seen.value := runs[seen.value].(state := Superseded)] else runs
  }

  function Promote(run: Run, now: int, written: nat): Run
  {
    run.(state := Active, activatedAt := Some(now), durationMs := Some(now - run.startedAt), statisticCount := written)
  }

  /** The runs after the two writes of an activation, before the index is checked. */
  function Promoted(b: Board, call: Call, seen: Option<nat>): map<nat, Run>
    requires call.id in b.runs
  {
    var runs := Supersede(b.runs, seen);
    runs[call.id := Promote(runs[call.id], call.now, |Members(b, call.id)|)]
  }

  /** The unique index allows one active run per scope; violating it aborts the transaction. */
  predicate IndexRefuses(runs: map<nat, Run>, id: nat)
    requires id in runs
  {
    exists other | other in runs && other != id :: runs[other].state.Active? && runs[other].scope == runs[id].scope
  }

  /** The marker is cleared only for an account's run and only when it is still the one given. */
  function Cleared(b: Board, call: Call): map<string, Marker>
  {
    if call.scope.Some? && call.marker.Some? && call.scope.value in b.markers && b.markers[call.scope.value].dirtySince == call.marker
    then b.markers[call.scope.value := Marker(None, None)]
    else b.markers
  }

  /** Activation; `seen` is the active run that the transaction read before its writes. */
  function Activate(b: Board, call: Call, seen: Option<nat>): Board
  {
    if Refusal(b, call).Some? then FailRun(b, call.id, Refusal(b, call).value)
    else if IndexRefuses(Promoted(b, call, seen), call.id) then b
    else b.(runs := Promoted(b, call, seen), markers := Cleared(b, call))
  }

  function OutcomeOf(b: Board, call: Call, seen: Option<nat>): Outcome
  {
    if Refusal(b, call).Some? then Refused(Refusal(b, call).value)
    else if IndexRefuses(Promoted(b, call, seen), call.id) then Aborted
    else Activated(seen)
  }

  // ----- Steps and runs of the system -----

  /** The stored tables, and beside them what the outside world has done: the inputs each account has now, and
      when the first change arrived that no activation has taken in. */
  datatype World = World(board: Board, inputs: map<string, Inputs>, firstChange: map<string, int>, clock: int)

  datatype Step =
    | Change(account: string, inputs: Inputs, now: int)
    | Mark(account: string, now: int)
    | Start(id: nat, scope: Scope, inputs: Inputs, now: int)
    | Store(run: nat, entry: Entry)
    | Activation(call: Call, seen: Option<nat>)
    | Fail(id: nat, code: FailureCode)

  function Without<T>(m: map<string, T>, key: string): map<string, T> { map k | k in m && k != key :: m[k] }

  function Apply(w: World, step: Step): World
  {
    match step
    case Change(account, inputs, now) =>
      World(MarkDirty(w.board, account, now), w.inputs[account := inputs],
            if account in w.firstChange then w.firstChange else w.firstChange[account := now], now)
    case Mark(account, now) => w.(board := MarkDirty(w.board, account, now), clock := now)
    case Start(id, scope, inputs, now) => w.(board := StartRun(w.board, id, scope, inputs, now))
    case Store(run, entry) => w.(board := StoreEntry(w.board, run, entry))
    case Activation(call, seen) =>
      w.(board := Activate(w.board, call, seen),
         firstChange := if OutcomeOf(w.board, call, seen).Activated? && call.scope.Some?
                        then Without(w.firstChange, call.scope.value) else w.firstChange)
    case Fail(id, code) => w.(board := FailRun(w.board, id, code))
  }

  /** A run that was active in a scope when it was read. */
  predicate Seen(b: Board, scope: Scope, seen: Option<nat>)
  {
    seen.Some? ==> seen.value in b.runs && b.runs[seen.value].scope == scope
                   && (b.runs[seen.value].state.Active? || b.runs[seen.value].state.Superseded?)
  }

  /** Changes arrive in the order of their times; identifiers are fresh; an activation names its run's scope. */
  predicate Possible(w: World, step: Step)
  {
    match step
    case Change(account, _, now) => account in w.board.markers && w.clock <= now
    case Mark(_, now) => w.clock <= now
    case Start(id, scope, _, _) => id !in w.board.runs && (scope.Some? ==> scope.value in w.board.markers)
    case Store(run, _) => run in w.board.runs
    case Activation(call, seen) =>
      Seen(w.board, call.scope, seen) && (call.id in w.board.runs ==> w.board.runs[call.id].scope == call.scope)
    case Fail(_, _) => true
  }

  function Execute(w: World, steps: seq<Step>): World
    decreases |steps|
  {
    if steps == [] then w else Execute(Apply(w, steps[0]), steps[1..])
  }

  predicate Legal(w: World, steps: seq<Step>)
    decreases |steps|
  {
    steps == [] || (Possible(w, steps[0]) && Legal(Apply(w, steps[0]), steps[1..]))
  }

  // ----- What every step keeps -----

  predicate OneActive(b: Board)
  {
    forall i, j | i in b.runs && j in b.runs && b.runs[i].state.Active? && b.runs[j].state.Active?
                  && b.runs[i].scope == b.runs[j].scope :: i == j
  }

  /** A due time is the marker plus the debounce. */
  predicate Paired(m: Marker)
  {
    m.dueAt == if m.dirtySince.Some? then Some(m.dirtySince.value + Debounce) else None
  }

  predicate SoundRows(b: Board)
  {
    && (forall k | k in b.rows :: b.rows[k].id < b.nextId)
    && (forall k, l | k in b.rows && l in b.rows && b.rows[k].id == b.rows[l].id :: k == l)
    && b.published.Keys <= b.runs.Keys
  }

  predicate Sound(b: Board)
  {
    OneActive(b) && SoundRows(b) && forall a | a in b.markers :: Paired(b.markers[a])
  }

  lemma ActivationKeepsOneActive(b: Board, call: Call, seen: Option<nat>)
    requires OneActive(b)
    ensures OneActive(Activate(b, call, seen))
  {
    var after := Activate(b, call, seen);
    if Refusal(b, call).None? && !IndexRefuses(Promoted(b, call, seen), call.id) {
      var runs := Promoted(b, call, seen);
      forall i | i in runs && i != call.id && runs[i].state.Active?
        ensures b.runs[i] == runs[i] && runs[i].scope != runs[call.id].scope {
      }
    }
  }

  lemma ActivationKeepsSound(b: Board, call: Call, seen: Option<nat>)
    requires Sound(b)
    ensures Sound(Activate(b, call, seen))
  {
    ActivationKeepsOneActive(b, call, seen);
  }

  lemma StoreKeepsRows(b: Board, run: nat, e: Entry)
    requires SoundRows(b) && run in b.runs
    ensures SoundRows(StoreEntry(b, run, e))
  {
  }

  lemma StepKeepsOneActive(w: World, step: Step)
    requires OneActive(w.board) && Possible(w, step)
    ensures OneActive(Apply(w, step).board)
  {
    if step.Activation? { ActivationKeepsOneActive(w.board, step.call, step.seen); }
  }

  lemma StepKeepsRows(w: World, step: Step)
    requires SoundRows(w.board) && Possible(w, step)
    ensures SoundRows(Apply(w, step).board)
  {
    if step.Store? { StoreKeepsRows(w.board, step.run, step.entry); }
  }

  lemma StepKeepsPaired(w: World, step: Step)
    requires forall a | a in w.board.markers :: Paired(w.board.markers[a])
    ensures forall a | a in Apply(w, step).board.markers :: Paired(Apply(w, step).board.markers[a])
  {
  }

  lemma StepKeepsSound(w: World, step: Step)
    requires Sound(w.board) && Possible(w, step)
    ensures Sound(Apply(w, step).board)
  {
    StepKeepsOneActive(w, step);
    StepKeepsRows(w, step);
    StepKeepsPaired(w, step);
  }

  /** In every run of the system at most one run per scope is active and every due time follows its marker. */
  lemma {:induction false} RunKeepsSound(w: World, steps: seq<Step>)
    requires Sound(w.board) && Legal(w, steps)
    ensures Sound(Execute(w, steps).board)
    decreases |steps|
  {
    if steps != [] {
      StepKeepsSound(w, steps[0]);
      RunKeepsSound(Apply(w, steps[0]), steps[1..]);
    }
  }

  // ----- One activation -----

  /** The run now active in a scope, if there is one. */
  predicate Current(b: Board, scope: Scope, current: Option<nat>)
  {
    if current.Some? then ActiveIn(b, current.value, scope) else forall i | i in b.runs :: !ActiveIn(b, i, scope)
  }

  predicate OwnScope(b: Board, call: Call) { call.id in b.runs ==> b.runs[call.id].scope == call.scope }

  /** An activation that is not refused and read the current run succeeds: the run becomes active, the previous
      one superseded, and nothing else changes but the marker of the run's own account. */
  lemma ActivationSupersedes(b: Board, call: Call, current: Option<nat>)
    requires OneActive(b) && Current(b, call.scope, current) && OwnScope(b, call) && Refusal(b, call).None?
    ensures OutcomeOf(b, call, current) == Activated(current)
    ensures var after := Activate(b, call, current);
            && call.id in after.runs
            && after.runs[call.id] == b.runs[call.id].(state := Active, activatedAt := Some(call.now), statisticCount := call.expected,
                                                       durationMs := Some(call.now - b.runs[call.id].startedAt))
            && (current.Some? && current.value != call.id ==> after.runs[current.value] == b.runs[current.value].(state := Superseded))
            && after.runs.Keys == b.runs.Keys
            && (forall i | i in b.runs && i != call.id && Some(i) != current :: after.runs[i] == b.runs[i])
            && (forall a | a in b.markers && Some(a) != call.scope :: a in after.markers && after.markers[a] == b.markers[a])
            && after.rows == b.rows && after.published == b.published
  {
  }

  /** Why an activation is refused. */
  lemma RefusedExactly(b: Board, call: Call, seen: Option<nat>)
    ensures var o := OutcomeOf(b, call, seen);
            && (o == Refused(InputsChanged) <==> call.id !in b.runs || b.runs[call.id].inputs != call.inputs)
            && (o == Refused(StatisticCountMismatch) <==>
                call.id in b.runs && b.runs[call.id].inputs == call.inputs && |Members(b, call.id)| != call.expected)
            && (o.Refused? ==> o.reason == InputsChanged || o.reason == StatisticCountMismatch)
            && (o.Refused? && call.id in b.runs && b.runs[call.id].state.Building? ==>
                  Activate(b, call, seen) == b.(runs := b.runs[call.id := b.runs[call.id].(state := Failed, failure := Some(o.reason))]))
  {
  }

  /** Pooled and account scopes never touch each other's runs. */
  lemma ScopesAreSeparate(b: Board, call: Call, seen: Option<nat>, id: nat)
    requires Seen(b, call.scope, seen) && OwnScope(b, call) && id in b.runs && b.runs[id].scope != call.scope
    ensures id in Activate(b, call, seen).runs && Activate(b, call, seen).runs[id] == b.runs[id]
  {
  }

  /** An activation that does not go through leaves every run but its own, every marker and every row as they
      were, and its own run leaves only the building state. */
  lemma FailureChangesNothingVisible(b: Board, call: Call, seen: Option<nat>)
    requires !OutcomeOf(b, call, seen).Activated?
    ensures var after := Activate(b, call, seen);
            && after == b.(runs := after.runs) && after.runs.Keys == b.runs.Keys
            && forall i | i in b.runs && (i != call.id || !b.runs[i].state.Building?) :: after.runs[i] == b.runs[i]
  {
  }

  /** An activation whose reads are out of date does what one with current reads would do, or nothing. */
  lemma StaleActivationRefines(b: Board, call: Call, seen: Option<nat>, current: Option<nat>)
    requires OneActive(b) && Seen(b, call.scope, seen) && Current(b, call.scope, current) && OwnScope(b, call)
    ensures Activate(b, call, seen) == b || Activate(b, call, seen) == Activate(b, call, current)
  {
    if OutcomeOf(b, call, seen).Activated? {
      SameRunsPromoted(b, call, seen, current);
    }
  }

  lemma SameRunsPromoted(b: Board, call: Call, seen: Option<nat>, current: Option<nat>)
    requires OneActive(b) && Seen(b, call.scope, seen) && Current(b, call.scope, current) && OwnScope(b, call)
    requires call.id in b.runs && !IndexRefuses(Promoted(b, call, seen), call.id)
    ensures Promoted(b, call, seen) == Promoted(b, call, current)
  {
    var p, q := Promoted(b, call, seen), Promoted(b, call, current);
    forall i | i in b.runs ensures p[i] == q[i] {
    }
  }

  // ----- Over whole runs -----

  lemma SeenStaysOnce(w: World, step: Step, scope: Scope, seen: Option<nat>)
    requires Possible(w, step) && Seen(w.board, scope, seen)
    ensures Seen(Apply(w, step).board, scope, seen)
  {
  }

  /** What was read as active stays a run that may be superseded, whatever happens before it is written. */
  lemma {:induction false} SeenStays(w: World, steps: seq<Step>, scope: Scope, seen: Option<nat>)
    requires Legal(w, steps) && Seen(w.board, scope, seen)
    ensures Seen(Execute(w, steps).board, scope, seen)
    decreases |steps|
  {
    if steps != [] {
      SeenStaysOnce(w, steps[0], scope, seen);
      SeenStays(Apply(w, steps[0]), steps[1..], scope, seen);
    }
  }

  /** Rows are never changed or removed. */
  predicate RowsStand(b: Board, c: Board) { forall k | k in b.rows :: k in c.rows && c.rows[k] == b.rows[k] }

  lemma {:induction false} RunKeepsRows(w: World, steps: seq<Step>)
    ensures RowsStand(w.board, Execute(w, steps).board)
    decreases |steps|
  {
    if steps != [] {
      assert RowsStand(w.board, Apply(w, steps[0]).board);
      RunKeepsRows(Apply(w, steps[0]), steps[1..]);
    }
  }

  /** A store whose lookup lies further back does what one that looks now would do, or nothing; and nothing only
      when another run wrote the same row in between. */
  lemma StaleLookupRefines(w: World, steps: seq<Step>, run: nat, e: Entry)
    ensures var b, found := Execute(w, steps).board, Lookup(w.board, e.key);
            StoreFromLookup(b, run, e, found) == if found.None? && e.key in b.rows then b else StoreEntry(b, run, e)
  {
    RunKeepsRows(w, steps);
  }

  predicate Serves(b: Board, scope: Scope) { exists i | i in b.runs :: ActiveIn(b, i, scope) }

  lemma StepKeepsServing(w: World, step: Step, scope: Scope)
    requires Sound(w.board) && Possible(w, step) && Serves(w.board, scope)
    ensures Serves(Apply(w, step).board, scope)
  {
    var i :| i in w.board.runs && ActiveIn(w.board, i, scope);
    var after := Apply(w, step).board;
    if step.Activation? && OutcomeOf(w.board, step.call, step.seen).Activated? && step.call.scope == scope {
      assert ActiveIn(after, step.call.id, scope);
    } else {
      assert ActiveIn(after, i, scope);
    }
  }

  /** Once a scope has published, exactly one of its runs is active, whatever fails afterwards. */
  lemma {:induction false} ScopeKeepsServing(w: World, steps: seq<Step>, scope: Scope)
    requires Sound(w.board) && Legal(w, steps) && Serves(w.board, scope)
    ensures Serves(Execute(w, steps).board, scope) && OneActive(Execute(w, steps).board)
    decreases |steps|
  {
    if steps != [] {
      StepKeepsServing(w, steps[0], scope);
      StepKeepsSound(w, steps[0]);
      ScopeKeepsServing(Apply(w, steps[0]), steps[1..], scope);
    }
  }
}
