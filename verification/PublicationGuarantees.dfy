/** What publication guarantees over whole runs: complete sets, and no change lost. */
module PublicationGuarantees {
  import opened Options
  import opened Publication

  // ----- A published set is complete -----

  /** The run publishes the row that answers this key. */
  predicate Published(b: Board, run: nat, key: Key)
  {
    key in b.rows && b.rows[key].id in Members(b, run)
  }

  /** Everything the run publishes answers one of the keys. */
  predicate Covered(b: Board, run: nat, keys: set<Key>)
  {
    forall id | id in Members(b, run) :: exists k | k in keys :: k in b.rows && b.rows[k].id == id
  }

  /** Every statistic stored for the run is one of its calculated entries. */
  predicate WalksOnly(steps: seq<Step>, run: nat, keys: set<Key>)
  {
    forall i | 0 <= i < |steps| && steps[i].Store? && steps[i].run == run :: steps[i].entry.key in keys
  }

  lemma StepKeepsCovered(w: World, step: Step, run: nat, keys: set<Key>)
    requires Covered(w.board, run, keys) && (step.Store? && step.run == run ==> step.entry.key in keys)
    ensures Covered(Apply(w, step).board, run, keys)
  {
    if step.Store? {
      StoreKeepsCovered(w.board, step.run, step.entry, run, keys);
    } else {
      assert Members(Apply(w, step).board, run) == Members(w.board, run) && Apply(w, step).board.rows == w.board.rows;
    }
  }

  lemma StoreKeepsCovered(b: Board, into: nat, e: Entry, run: nat, keys: set<Key>)
    requires Covered(b, run, keys) && (into == run ==> e.key in keys)
    ensures Covered(StoreEntry(b, into, e), run, keys)
  {
    var after := StoreEntry(b, into, e);
    forall id | id in Members(after, run) ensures exists k | k in keys :: k in after.rows && after.rows[k].id == id {
      if id in Members(b, run) {
        var k :| k in keys && k in b.rows && b.rows[k].id == id;
        assert k in after.rows && after.rows[k].id == id;
      } else {
        assert e.key in after.rows && after.rows[e.key].id == id;
      }
    }
  }

  lemma {:induction false} RunKeepsCovered(w: World, steps: seq<Step>, run: nat, keys: set<Key>)
    requires Sound(w.board) && Legal(w, steps) && Covered(w.board, run, keys) && WalksOnly(steps, run, keys)
    ensures Covered(Execute(w, steps).board, run, keys) && Sound(Execute(w, steps).board)
    decreases |steps|
  {
    if steps != [] {
      StepKeepsCovered(w, steps[0], run, keys);
      StepKeepsSound(w, steps[0]);
      RunKeepsCovered(Apply(w, steps[0]), steps[1..], run, keys);
    }
  }

  /** The rows of different keys are different. */
  lemma {:induction false} RowsOfKeys(b: Board, keys: set<Key>)
    requires SoundRows(b) && keys <= b.rows.Keys
    ensures |set k | k in keys :: b.rows[k].id| == |keys|
    decreases |keys|
  {
    if keys != {} {
      var k :| k in keys;
      var rest := keys - {k};
      RowsOfKeys(b, rest);
      assert (set l | l in keys :: b.rows[l].id) == (set l | l in rest :: b.rows[l].id) + {b.rows[k].id};
    }
  }

  lemma SubsetOfSameSize<T>(a: set<T>, b: set<T>)
    requires a <= b
    ensures |a| <= |b| && (|a| == |b| <==> a == b)
  {
    assert b == a + (b - a);
  }

  /** The number of members equals the number of keys exactly when every key has been published. */
  lemma CountMeansComplete(b: Board, run: nat, keys: set<Key>)
    requires SoundRows(b) && Covered(b, run, keys)
    ensures |Members(b, run)| == |keys| <==> forall k | k in keys :: Published(b, run, k)
  {
    var done := set k | k in keys && Published(b, run, k);
    assert (set k | k in done :: b.rows[k].id) == Members(b, run) by {
      forall id | id in Members(b, run) ensures exists k | k in done :: b.rows[k].id == id {
        var k :| k in keys && k in b.rows && b.rows[k].id == id;
        assert k in done;
      }
    }
    RowsOfKeys(b, done);
    SubsetOfSameSize(done, keys);
  }

  /** However often a family is walked, in whatever order and with whatever crashes and other runs in between,
      an activation that expects as many statistics as there are entries goes through exactly when all of
      them are published and the presented inputs are those of the run. */
  lemma ActivationMeansComplete(w: World, steps: seq<Step>, keys: set<Key>, call: Call, current: Option<nat>)
    requires Sound(w.board) && call.id !in w.board.runs && Legal(w, steps) && WalksOnly(steps, call.id, keys)
    requires call.expected == |keys| && OwnScope(Execute(w, steps).board, call)
    requires Current(Execute(w, steps).board, call.scope, current)
    ensures var b := Execute(w, steps).board;
            OutcomeOf(b, call, current).Activated? <==>
            call.id in b.runs && b.runs[call.id].inputs == call.inputs && forall k | k in keys :: Published(b, call.id, k)
  {
    assert Covered(w.board, call.id, keys);
    RunKeepsCovered(w, steps, call.id, keys);
    var b := Execute(w, steps).board;
    CountMeansComplete(b, call.id, keys);
    if Refusal(b, call).None? { ActivationSupersedes(b, call, current); }
  }

  // ----- Readers find complete sets -----

  /** What each run calculates: it stores nothing else, and its activation expects exactly that many. */
  predicate Planned(step: Step, plan: map<nat, set<Key>>)
  {
    && (step.Store? ==> step.run in plan && step.entry.key in plan[step.run])
    && (step.Activation? ==> step.call.id in plan && step.call.expected == |plan[step.call.id]|)
  }

  predicate AllPublished(b: Board, run: nat, keys: set<Key>) { forall k | k in keys :: Published(b, run, k) }

  predicate Visible(run: Run) { run.state.Active? || run.state.Superseded? }

  /** Every run that readers have been shown publishes all it calculates. */
  predicate Complete(b: Board, plan: map<nat, set<Key>>)
  {
    && (forall r | r in plan :: Covered(b, r, plan[r]))
    && (forall r | r in b.runs && Visible(b.runs[r]) :: r in plan && AllPublished(b, r, plan[r]))
  }

  lemma StepKeepsPublished(w: World, step: Step, run: nat, keys: set<Key>)
    requires AllPublished(w.board, run, keys)
    ensures AllPublished(Apply(w, step).board, run, keys)
  {
    forall k | k in keys ensures Published(Apply(w, step).board, run, k) {
      assert Published(w.board, run, k);
    }
  }

  lemma StepKeepsComplete(w: World, step: Step, plan: map<nat, set<Key>>)
    requires Sound(w.board) && Possible(w, step) && Planned(step, plan) && Complete(w.board, plan)
    ensures Complete(Apply(w, step).board, plan)
  {
    var b, after := w.board, Apply(w, step).board;
    forall r | r in plan ensures Covered(after, r, plan[r]) {
      StepKeepsCovered(w, step, r, plan[r]);
    }
    forall r | r in after.runs && Visible(after.runs[r]) ensures r in plan && AllPublished(after, r, plan[r]) {
      if r in b.runs && Visible(b.runs[r]) {
        StepKeepsPublished(w, step, r, plan[r]);
      } else {
        BecomesVisible(w, step, r);
        CountMeansComplete(b, r, plan[r]);
        StepKeepsPublished(w, step, r, plan[r]);
      }
    }
  }

  /** A run is shown to readers only by its own activation, which found the expected number of members. */
  lemma BecomesVisible(w: World, step: Step, r: nat)
    requires Possible(w, step) && r in Apply(w, step).board.runs && Visible(Apply(w, step).board.runs[r])
    requires !(r in w.board.runs && Visible(w.board.runs[r]))
    ensures step.Activation? && step.call.id == r && |Members(w.board, r)| == step.call.expected
  {
  }

  /** Once a scope has published, readers find exactly one active run in it, and it publishes everything it
      calculates, whatever is started, walked, refused or fails afterwards. */
  lemma {:induction false} ReadersFindOneCompleteSet(w: World, steps: seq<Step>, plan: map<nat, set<Key>>, scope: Scope)
    requires Sound(w.board) && Legal(w, steps) && Complete(w.board, plan) && Serves(w.board, scope)
    requires forall i | 0 <= i < |steps| :: Planned(steps[i], plan)
    ensures var b := Execute(w, steps).board;
            exists r | r in b.runs :: ActiveIn(b, r, scope) && r in plan && AllPublished(b, r, plan[r])
                                      && forall other | other in b.runs && ActiveIn(b, other, scope) :: other == r
    decreases |steps|
  {
    if steps == [] {
      var r :| r in w.board.runs && ActiveIn(w.board, r, scope);
      assert Visible(w.board.runs[r]);
    } else {
      StepKeepsComplete(w, steps[0], plan);
      StepKeepsServing(w, steps[0], scope);
      StepKeepsSound(w, steps[0]);
      ReadersFindOneCompleteSet(Apply(w, steps[0]), steps[1..], plan, scope);
    }
  }

  // ----- Walking a family again -----

  function StoreAll(b: Board, run: nat, entries: seq<Entry>): Board
  {
    if entries == [] then b else StoreEntry(StoreAll(b, run, entries[..|entries| - 1]), run, entries[|entries| - 1])
  }

  predicate Extends(b: Board, after: Board, run: nat)
  {
    && after == b.(rows := after.rows, published := after.published, nextId := after.nextId)
    && (forall k | k in b.rows :: k in after.rows && after.rows[k] == b.rows[k])
    && Members(b, run) <= Members(after, run)
  }

  /** A walk publishes every entry, keeps every stored row as it was and touches no other run. */
  lemma {:induction false} WalkPublishes(b: Board, run: nat, entries: seq<Entry>)
    ensures var after := StoreAll(b, run, entries);
            && Extends(b, after, run)
            && (forall i | 0 <= i < |entries| :: Published(after, run, entries[i].key))
            && (forall other | other != run :: Members(after, other) == Members(b, other))
  {
    if entries != [] {
      var n := |entries| - 1;
      WalkPublishes(b, run, entries[..n]);
      assert forall i | 0 <= i < n :: entries[..n][i] == entries[i];
      EntryPublishes(StoreAll(b, run, entries[..n]), run, entries[n]);
    }
  }

  lemma EntryPublishes(b: Board, run: nat, e: Entry)
    ensures var after := StoreEntry(b, run, e);
            && Extends(b, after, run) && Published(after, run, e.key)
            && (forall k | Published(b, run, k) :: Published(after, run, k))
            && (forall other | other != run :: Members(after, other) == Members(b, other))
  {
  }

  lemma {:induction false} WalkKeepsCovered(b: Board, run: nat, entries: seq<Entry>, keys: set<Key>)
    requires Covered(b, run, keys) && forall i | 0 <= i < |entries| :: entries[i].key in keys
    ensures Covered(StoreAll(b, run, entries), run, keys)
  {
    if entries != [] {
      var n := |entries| - 1;
      WalkKeepsCovered(b, run, entries[..n], keys);
      StoreKeepsCovered(StoreAll(b, run, entries[..n]), run, entries[n], run, keys);
    }
  }

  lemma {:induction false} WalkingPublishedIsIdle(b: Board, run: nat, entries: seq<Entry>)
    requires forall i | 0 <= i < |entries| :: Published(b, run, entries[i].key)
    ensures StoreAll(b, run, entries) == b
  {
    if entries != [] {
      var n := |entries| - 1;
      assert forall i | 0 <= i < n :: entries[..n][i] == entries[i];
      WalkingPublishedIsIdle(b, run, entries[..n]);
      assert Published(b, run, entries[n].key);
      assert Members(b, run) + {b.rows[entries[n].key].id} == Members(b, run);
      assert b.published[run := Members(b, run)] == b.published;
    }
  }

  /** A walk that stopped anywhere and is started again ends where an uninterrupted walk ends, and walking a
      published family again changes nothing. */
  lemma RewalkConverges(b: Board, run: nat, entries: seq<Entry>, stopped: nat)
    requires stopped <= |entries|
    ensures StoreAll(StoreAll(b, run, entries[..stopped]), run, entries) == StoreAll(b, run, entries)
  {
    var partial := StoreAll(b, run, entries[..stopped]);
    WalkPublishes(b, run, entries[..stopped]);
    forall i | 0 <= i < stopped ensures Published(partial, run, entries[i].key) {
      assert entries[..stopped][i] == entries[i];
    }
    assert forall i | 0 <= i < stopped :: entries[..stopped][i] == entries[i];
    WalkingPublishedIsIdle(partial, run, entries[..stopped]);
    SameStartSameEnd(b, partial, run, entries, stopped, |entries|);
    assert entries[..|entries|] == entries;
  }

  lemma OneMoreEntry(b: Board, run: nat, entries: seq<Entry>, n: nat)
    requires n < |entries|
    ensures StoreAll(b, run, entries[..n + 1]) == StoreEntry(StoreAll(b, run, entries[..n]), run, entries[n])
  {
    assert entries[..n + 1][..n] == entries[..n];
  }

  lemma {:induction false} SameStartSameEnd(b: Board, c: Board, run: nat, entries: seq<Entry>, stopped: nat, n: nat)
    requires stopped <= n <= |entries| && StoreAll(b, run, entries[..stopped]) == StoreAll(c, run, entries[..stopped])
    ensures StoreAll(b, run, entries[..n]) == StoreAll(c, run, entries[..n])
    decreases n
  {
    if stopped < n {
      SameStartSameEnd(b, c, run, entries, stopped, n - 1);
      OneMoreEntry(b, run, entries, n - 1);
      OneMoreEntry(c, run, entries, n - 1);
    }
  }

  // ----- No change is lost -----

  /** Activations present the inputs as they stand. */
  predicate Ideal(w: World, step: Step)
  {
    step.Activation? && step.call.scope.Some? ==>
      step.call.scope.value in w.inputs && step.call.inputs == w.inputs[step.call.scope.value]
  }

  predicate AllIdeal(w: World, steps: seq<Step>)
    decreases |steps|
  {
    steps == [] || (Ideal(w, steps[0]) && AllIdeal(Apply(w, steps[0]), steps[1..]))
  }

  /** The active run of an account does not show its inputs. */
  predicate Stale(w: World, account: string)
  {
    exists i | i in w.board.runs ::
      ActiveIn(w.board, i, Some(account)) && (account in w.inputs ==> w.board.runs[i].inputs != w.inputs[account])
  }

  predicate Dirty(w: World, account: string)
  {
    account in w.board.markers && w.board.markers[account].dirtySince.Some?
  }

  /** An unprocessed change leaves its account dirty since that change or earlier. */
  predicate Anchored(w: World, account: string)
  {
    account in w.firstChange ==>
      Dirty(w, account) && w.board.markers[account].dirtySince.value <= w.firstChange[account] <= w.clock
  }

  predicate Accounted(w: World, account: string)
  {
    Anchored(w, account) && (Stale(w, account) ==> account in w.firstChange)
    && (Dirty(w, account) ==> w.board.markers[account].dirtySince.value <= w.clock)
  }

  lemma StepKeepsAccounted(w: World, step: Step, account: string)
    requires Sound(w.board) && Possible(w, step) && Ideal(w, step) && Accounted(w, account)
    ensures Accounted(Apply(w, step), account)
  {
    match step
    case Activation(call, seen) => ActivationKeepsAccounted(w, call, seen, account);
    case Change(a, inputs, now) => ChangeKeepsAccounted(w, a, inputs, now, account);
    case _ => OthersKeepAccounted(w, step, account);
  }

  lemma StaleStays(w: World, after: World, account: string)
    requires Stale(after, account) && after.inputs == w.inputs
    requires forall i | i in after.board.runs && ActiveIn(after.board, i, Some(account)) :: i in w.board.runs && w.board.runs[i] == after.board.runs[i]
    ensures Stale(w, account)
  {
    var i :| i in after.board.runs && ActiveIn(after.board, i, Some(account))
             && (account in after.inputs ==> after.board.runs[i].inputs != after.inputs[account]);
    assert ActiveIn(w.board, i, Some(account));
  }

  lemma OthersKeepAccounted(w: World, step: Step, account: string)
    requires Possible(w, step) && Accounted(w, account) && !step.Activation? && !step.Change?
    ensures Accounted(Apply(w, step), account)
  {
    var after := Apply(w, step);
    if Stale(after, account) { StaleStays(w, after, account); }
  }

  lemma ChangeKeepsAccounted(w: World, a: string, inputs: Inputs, now: int, account: string)
    requires Possible(w, Change(a, inputs, now)) && Accounted(w, account)
    ensures Accounted(Apply(w, Change(a, inputs, now)), account)
  {
    var after := Apply(w, Change(a, inputs, now));
    if a != account && Stale(after, account) {
      var i :| i in after.board.runs && ActiveIn(after.board, i, Some(account))
               && (account in after.inputs ==> after.board.runs[i].inputs != after.inputs[account]);
      assert ActiveIn(w.board, i, Some(account));
    }
  }

  lemma ActivationKeepsAccounted(w: World, call: Call, seen: Option<nat>, account: string)
    requires Sound(w.board) && Possible(w, Activation(call, seen)) && Ideal(w, Activation(call, seen)) && Accounted(w, account)
    ensures Accounted(Apply(w, Activation(call, seen)), account)
  {
    var after := Apply(w, Activation(call, seen));
    if OutcomeOf(w.board, call, seen).Activated? && call.scope == Some(account) {
      ActivationKeepsOneActive(w.board, call, seen);
      assert ActiveIn(after.board, call.id, call.scope) && after.board.runs[call.id].inputs == call.inputs;
    } else if Stale(after, account) {
      StaleStays(w, after, account);
    }
  }

  /** When activations present the inputs as they stand, then in every run an account whose inputs differ from
      its active run is dirty, its window opened no later than its first unprocessed change, and it is due
      five minutes after the window opened. */
  lemma {:induction false} NoChangeIsLost(w: World, steps: seq<Step>, account: string)
    requires Sound(w.board) && Legal(w, steps) && AllIdeal(w, steps) && Accounted(w, account)
    ensures var v := Execute(w, steps);
            && Accounted(v, account)
            && (Stale(v, account) ==>
                  Dirty(v, account) && v.board.markers[account].dueAt.Some?
                  && v.board.markers[account].dueAt.value <= v.firstChange[account] + 300_000)
    decreases |steps|
  {
    if steps != [] {
      StepKeepsAccounted(w, steps[0], account);
      StepKeepsSound(w, steps[0]);
      NoChangeIsLost(Apply(w, steps[0]), steps[1..], account);
    } else if Dirty(w, account) {
      assert Paired(w.board.markers[account]);
    }
  }

  // ----- When the due time is exact -----

  /** Ideal steps whose activations also name the current marker, and no mark without a change. */
  predicate Prompt(w: World, step: Step)
  {
    && Ideal(w, step) && !step.Mark?
    && (step.Activation? && step.call.scope.Some? && step.call.scope.value in w.board.markers ==>
          step.call.marker == w.board.markers[step.call.scope.value].dirtySince)
  }

  predicate AllPrompt(w: World, steps: seq<Step>)
    decreases |steps|
  {
    steps == [] || (Prompt(w, steps[0]) && AllPrompt(Apply(w, steps[0]), steps[1..]))
  }

  /** The marker is the time of the first unprocessed change, or neither is there. */
  predicate MarksFirstChange(w: World, account: string)
  {
    account in w.board.markers &&
    w.board.markers[account].dirtySince == if account in w.firstChange then Some(w.firstChange[account]) else None
  }

  lemma StepKeepsFirstChange(w: World, step: Step, account: string)
    requires Possible(w, step) && Prompt(w, step) && MarksFirstChange(w, account)
    ensures MarksFirstChange(Apply(w, step), account)
  {
  }

  /** Then an account is due exactly five minutes after its first unprocessed change, and clean without one. */
  lemma {:induction false} DueAfterFirstChange(w: World, steps: seq<Step>, account: string)
    requires Sound(w.board) && Legal(w, steps) && AllPrompt(w, steps) && MarksFirstChange(w, account)
    ensures var v := Execute(w, steps);
            && MarksFirstChange(v, account)
            && v.board.markers[account].dueAt == if account in v.firstChange then Some(v.firstChange[account] + 300_000) else None
    decreases |steps|
  {
    if steps != [] {
      StepKeepsFirstChange(w, steps[0], account);
      StepKeepsSound(w, steps[0]);
      DueAfterFirstChange(Apply(w, steps[0]), steps[1..], account);
    } else {
      assert Paired(w.board.markers[account]);
    }
  }

  /** A workspace that has published nothing and whose accounts are clean meets what these results ask for. */
  lemma FreshWorkspace(w: World, account: string, plan: map<nat, set<Key>>)
    requires w.board.runs == map[] && w.board.rows == map[] && w.board.published == map[] && w.firstChange == map[]
    requires forall a | a in w.board.markers :: w.board.markers[a] == Marker(None, None)
    ensures Sound(w.board) && Accounted(w, account) && Complete(w.board, plan)
    ensures account in w.board.markers ==> MarksFirstChange(w, account)
  {
  }

  // ----- When activations present the run's own inputs -----

  /** The recalculation job presents the fingerprint its run was started with, so the comparison with the
      stored one never refuses. Such an activation leaves no stale account clean exactly when the run read
      the inputs as they stand, or the account is dirty by another marker than the one presented. */
  lemma OwnFingerprintIsExact(w: World, call: Call, seen: Option<nat>, account: string)
    requires Sound(w.board) && Possible(w, Activation(call, seen)) && call.scope == Some(account)
    requires account in w.inputs && account in w.board.markers
    requires OutcomeOf(w.board, call, seen).Activated?
    ensures var after := Apply(w, Activation(call, seen));
            (Stale(after, account) ==> Dirty(after, account)) <==>
              w.board.runs[call.id].inputs == w.inputs[account]
              || (Dirty(w, account) && w.board.markers[account].dirtySince != call.marker)
  {
    var after := Apply(w, Activation(call, seen));
    ActivationKeepsOneActive(w.board, call, seen);
    assert ActiveIn(after.board, call.id, call.scope) && after.board.runs[call.id].inputs == w.board.runs[call.id].inputs;
  }

  /** A change that arrives while a run is building does not move the marker of a dirty account, and the run's
      activation then clears it: the account shows old inputs and nothing will recalculate it. */
  lemma MarkerAloneLosesChange(w: World, account: string, before: Inputs, after: Inputs)
    requires w.board == Board(map[], map[account := Marker(None, None)], map[], map[], 0) && w.clock == 0
    requires account !in w.firstChange && before != after
    ensures var call := Call(1, Some(account), Some(0), 0, before, 3);
            var steps := [Change(account, before, 0), Start(1, Some(account), before, 1), Change(account, after, 2), Activation(call, None)];
            && Legal(w, steps)
            && Stale(Execute(w, steps), account) && !Dirty(Execute(w, steps), account)
  {
    var call := Call(1, Some(account), Some(0), 0, before, 3);
    var s1, s2, s3, s4 := Change(account, before, 0), Start(1, Some(account), before, 1), Change(account, after, 2), Activation(call, None);
    var w1 := Apply(w, s1);
    var w2 := Apply(w1, s2);
    var w3 := Apply(w2, s3);
    var w4 := Apply(w3, s4);
    FourSteps(w, s1, s2, s3, s4);
    assert w1.board.markers[account] == Marker(Some(0), Some(Debounce));
    assert w2.board.markers == w1.board.markers && w2.board.runs.Keys == {1};
    assert w3.board.markers == w1.board.markers && w3.board.runs == w2.board.runs;
    assert Refusal(w3.board, call).None?;
    assert ActiveIn(w4.board, 1, Some(account));
  }

  lemma FourSteps(w: World, s1: Step, s2: Step, s3: Step, s4: Step)
    ensures var w1 := Apply(w, s1); var w2 := Apply(w1, s2); var w3 := Apply(w2, s3);
            && Execute(w, [s1, s2, s3, s4]) == Apply(w3, s4)
            && (Possible(w, s1) && Possible(w1, s2) && Possible(w2, s3) && Possible(w3, s4) ==> Legal(w, [s1, s2, s3, s4]))
  {
    assert [s1, s2, s3, s4][1..] == [s2, s3, s4] && [s2, s3, s4][1..] == [s3, s4] && [s3, s4][1..] == [s4] && [s4][1..] == [];
    var w1 := Apply(w, s1);
    var w2 := Apply(w1, s2);
    var w3 := Apply(w2, s3);
    assert Execute(w3, [s4]) == Apply(w3, s4) && (Possible(w3, s4) ==> Legal(w3, [s4]));
    assert Execute(w2, [s3, s4]) == Apply(w3, s4);
  }
}
