/** The analytics tables as an object: each method is one transaction, or the loop that runs one per entry. */
module AnalyticsStore {
  import opened Options
  import opened Publication
  import opened PublicationGuarantees
  import opened StatisticCache
  import opened AnalyticsInputs
  import opened FeatureRequests
  import FeatureFamily

  method CalculateEntries(request: FeatureFamily.Request, how: Method) returns (entries: seq<Entry>)
    requires 0 < how.resamples
    ensures |entries| == |request.candidates|
    ensures forall i | 0 <= i < |entries| :: entries[i].key == KeyFor(request, request.candidates[i]) && entries[i].key in KeysOf(request)
    ensures (set e | e in entries) == AnswersTo(request, how)
  {
    var statistics := FeatureFamily.CalculateFeatureFamily(request, how.seedOf, how.resamples);
    entries := EntriesOf(request, statistics);
    AnswersOfFamily(request, statistics, how);
  }

  class AnalyticsTables {
    var runs: map<nat, Run>
    var markers: map<string, Marker>
    var rows: map<Key, Row>
    var published: map<nat, set<nat>>
    var nextId: nat

    ghost function View(): Board
      reads this
    {
      Board(runs, markers, rows, published, nextId)
    }

    constructor (accounts: set<string>)
      ensures Sound(View())
      ensures View() == Board(map[], map a | a in accounts :: Marker(None, None), map[], map[], 0)
    {
      runs, markers, rows, published, nextId := map[], map a | a in accounts :: Marker(None, None), map[], map[], 0;
    }

    method MarkAnalyticsDirty(account: string, now: int)
      modifies this`markers
      ensures View() == MarkDirty(old(View()), account, now)
      ensures markers == if account in old(markers) && old(markers)[account].dirtySince == None
                         then old(markers)[account := Marker(Some(now), Some(now + 300_000))] else old(markers)
    {
      if account in markers && markers[account].dirtySince.None? {
        markers := markers[account := Marker(Some(now), Some(now + Debounce))];
      }
    }

    method StartAnalyticsRun(id: nat, scope: Scope, inputs: Inputs, now: int)
      requires id !in runs
      modifies this`runs
      ensures View() == StartRun(old(View()), id, scope, inputs, now)
      ensures runs == old(runs)[id := Run(scope, Building, inputs, now, None, None, 0, None)]
    {
      runs := runs[id := Run(scope, Building, inputs, now, None, None, 0, None)];
    }

    method FailAnalyticsRun(id: nat, code: FailureCode)
      modifies this`runs
      ensures View() == FailRun(old(View()), id, code)
      ensures runs == if id in old(runs) && old(runs)[id].state == Building
                      then old(runs)[id := old(runs)[id].(state := Failed, failure := Some(code))] else old(runs)
    {
      if id in runs && runs[id].state.Building? {
        runs := runs[id := runs[id].(state := Failed, failure := Some(code))];
      }
    }

    method FindActive(scope: Scope) returns (current: Option<nat>)
      ensures Current(View(), scope, current)
    {
      if id :| id in runs && runs[id].scope == scope && runs[id].state.Active? {
        return Some(id);
      } else {
        return None;
      }
    }

    /** Publishes a built run or refuses; keeps one active run per scope whatever it is given. */
    method ActivateAnalyticsRun(call: Call) returns (outcome: Outcome)
      requires Sound(View())
      modifies this`runs, this`markers
      ensures Sound(View())
      ensures exists current :: Current(old(View()), call.scope, current)
                && outcome == OutcomeOf(old(View()), call, current) && View() == Activate(old(View()), call, current)
    {
      var previous := FindActive(call.scope);
      ActivationKeepsSound(View(), call, previous);
      if call.id !in runs || runs[call.id].inputs != call.inputs {
        FailAnalyticsRun(call.id, InputsChanged);
        return Refused(InputsChanged);
      }
      var written := if call.id in published then |published[call.id]| else 0;
      if written != call.expected {
        FailAnalyticsRun(call.id, StatisticCountMismatch);
        return Refused(StatisticCountMismatch);
      }
      outcome := SwitchActive(call, previous, written);
    }

    /** The writes of an activation; an index violation leaves the tables as they were. */
    method SwitchActive(call: Call, previous: Option<nat>, written: nat) returns (outcome: Outcome)
      requires Refusal(View(), call).None? && written == |Members(View(), call.id)|
      modifies this`runs, this`markers
      ensures View() == Activate(old(View()), call, previous) && outcome == OutcomeOf(old(View()), call, previous)
    {
      var updated := Supersede(runs, previous);
      updated := updated[call.id := Promote(updated[call.id], call.now, written)];
      if exists other | other in updated && other != call.id :: updated[other].state.Active? && updated[other].scope == updated[call.id].scope {
        return Aborted;
      }
      runs := updated;
      if call.scope.Some? && call.marker.Some? && call.scope.value in markers && markers[call.scope.value].dirtySince == call.marker {
        markers := markers[call.scope.value := Marker(None, None)];
      }
      return Activated(previous);
    }

    method PublishInRun(run: nat, statistic: nat)
      modifies this`published
      ensures View() == Publish(old(View()), run, statistic)
      ensures published == old(published)[run := (if run in old(published) then old(published)[run] else {}) + {statistic}]
    {
      published := published[run := (if run in published then published[run] else {}) + {statistic}];
    }

    method StoreStatistic(run: nat, entry: Entry) returns (created: bool)
      requires Sound(View()) && run in runs
      modifies this`rows, this`published, this`nextId
      ensures View() == StoreEntry(old(View()), run, entry) && Sound(View())
      ensures created == (entry.key !in old(rows)) && |rows| == old(|rows|) + if created then 1 else 0
    {
      StoreKeepsRows(View(), run, entry);
      var existing := if entry.key in rows then Some(rows[entry.key].id) else None;
      created := StoreAfterLookup(run, entry, existing);
    }

    /** The part after the lookup: publishes the row that was found, or inserts one, which fails when the key has
        been taken since. */
    method StoreAfterLookup(run: nat, entry: Entry, existing: Option<nat>) returns (created: bool)
      modifies this`rows, this`published, this`nextId
      ensures View() == StoreFromLookup(old(View()), run, entry, existing)
      ensures rows == if created then old(rows)[entry.key := Row(old(nextId), entry.statistic)] else old(rows)
      ensures created || existing.Some? ==> run in published && (if created then old(nextId) else existing.value) in published[run]
      ensures created == (existing.None? && entry.key !in old(rows)) && |rows| == old(|rows|) + if created then 1 else 0
    {
      created := false;
      if existing.Some? {
        PublishInRun(run, existing.value);
      } else if entry.key !in rows {
        var id := nextId;
        nextId := nextId + 1;
        rows := rows[entry.key := Row(id, entry.statistic)];
        PublishInRun(run, id);
        created := true;
      }
    }

    /** Walks a calculated family: rows already there are reused, the others written, and all are published. */
    method StoreFeatureStatistics(run: nat, entries: seq<Entry>) returns (stored: nat, skipped: nat)
      requires Sound(View()) && run in runs
      modifies this`rows, this`published, this`nextId
      ensures View() == StoreAll(old(View()), run, entries) && Sound(View())
      ensures stored + skipped == |entries| && |rows| == old(|rows|) + stored
      ensures forall i | 0 <= i < |entries| :: Published(View(), run, entries[i].key)
    {
      stored, skipped := 0, 0;
      ghost var before := View();
      for n := 0 to |entries|
        invariant View() == StoreAll(before, run, entries[..n]) && Sound(View()) && run in runs
        invariant stored + skipped == n && |rows| == |before.rows| + stored
      {
        assert entries[..n + 1][..n] == entries[..n];
        var created := StoreStatistic(run, entries[n]);
        if created { stored := stored + 1; } else { skipped := skipped + 1; }
      }
      assert entries[..|entries|] == entries;
      WalkPublishes(before, run, entries);
    }

    /** Calculates a family and stores it; every row still holds a calculated answer. */
    method RecalculateFamily(run: nat, request: FeatureFamily.Request, how: Method, ghost answers: set<Entry>)
      returns (stored: nat, skipped: nat, ghost entries: seq<Entry>)
      requires Sound(View()) && run in runs && 0 < how.resamples && Honest(View(), answers)
      modifies this`rows, this`published, this`nextId
      ensures View() == StoreAll(old(View()), run, entries) && forall i | 0 <= i < |entries| :: entries[i].key in KeysOf(request)
      ensures Sound(View()) && stored + skipped == |request.candidates|
      ensures forall i | 0 <= i < |request.candidates| :: Published(View(), run, KeyFor(request, request.candidates[i]))
      ensures Honest(View(), answers + AnswersTo(request, how))
    {
      var calculated := CalculateEntries(request, how);
      entries := calculated;
      WalkKeepsHonest(View(), run, calculated, answers);
      stored, skipped := StoreFeatureStatistics(run, calculated);
    }

    /** Calculates and stores every family of a run, in turn. */
    method RecalculateFamilies(run: nat, requests: seq<FeatureFamily.Request>, how: Method)
      requires Sound(View()) && run in runs && 0 < how.resamples && Members(View(), run) == {}
      modifies this`rows, this`published, this`nextId
      ensures Sound(View()) && Covered(View(), run, AllKeys(requests))
      ensures forall k | k in AllKeys(requests) :: Published(View(), run, k)
    {
      for n := 0 to |requests|
        invariant Sound(View()) && run in runs
        invariant Covered(View(), run, AllKeys(requests[..n]))
        invariant forall k | k in AllKeys(requests[..n]) :: Published(View(), run, k)
      {
        assert requests[..n + 1][..n] == requests[..n];
        ghost var before := View();
        ghost var answers := set k | k in rows :: Entry(k, rows[k].statistic);
        var stored, skipped;
        ghost var entries;
        stored, skipped, entries := RecalculateFamily(run, requests[n], how, answers);
        FamilyKeepsComplete(before, run, requests[..n], requests[n], entries);
      }
      assert requests[..|requests|] == requests;
    }

    /** A whole recalculation: read, start a run, store every family, activate. When nothing else happens in
        between, every question is published and the run becomes the active one of its scope. */
    method Recalculate(id: nat, q: Question, posts: seq<InputPost>, inputs: Inputs, how: Method, marker: Option<int>, now: int)
      returns (outcome: Outcome)
      requires Sound(View()) && id !in runs && 0 < how.resamples && DistinctStrings(q.metrics) && DistinctStrings(q.paths)
      modifies this
      ensures Sound(View()) && outcome.Activated? && ActiveIn(View(), id, q.account)
      ensures forall k | k in AllKeys(RequestsFor(q, posts, q.metrics)) :: Published(View(), id, k)
      ensures |Members(View(), id)| == Expected(RequestsFor(q, posts, q.metrics))
    {
      var requests := BuildFeatureRequests(q, posts);
      ExpectedCountsKeys(q, posts, q.metrics);
      StartAnalyticsRun(id, q.account, inputs, now);
      assert Members(View(), id) == {};
      RecalculateFamilies(id, requests, how);
      ghost var built := View();
      CountMeansComplete(built, id, AllKeys(requests));
      var call := Call(id, q.account, marker, Expected(requests), inputs, now);
      outcome := ActivateAnalyticsRun(call);
      ghost var current :| Current(built, call.scope, current)
                           && outcome == OutcomeOf(built, call, current) && View() == Activate(built, call, current);
      ActivationSupersedes(built, call, current);
    }
  }

  lemma FamilyKeepsComplete(b: Board, run: nat, before: seq<FeatureFamily.Request>, request: FeatureFamily.Request, entries: seq<Entry>)
    requires Covered(b, run, AllKeys(before)) && forall k | k in AllKeys(before) :: Published(b, run, k)
    requires forall i | 0 <= i < |entries| :: entries[i].key in KeysOf(request)
    ensures Covered(StoreAll(b, run, entries), run, AllKeys(before) + KeysOf(request))
    ensures forall k | k in AllKeys(before) :: Published(StoreAll(b, run, entries), run, k)
  {
    assert Covered(b, run, AllKeys(before) + KeysOf(request));
    WalkKeepsCovered(b, run, entries, AllKeys(before) + KeysOf(request));
    WalkPublishes(b, run, entries);
  }
}
