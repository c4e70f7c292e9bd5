/** The posts a run measures. The derived metrics of a snapshot are a fixed function of its row. */
module AnalyticsInputs {
  import opened Options
  import opened SnapshotSelection
  import WindowSelection

  datatype Analysis = Analysis(id: string, features: map<string, string>)

  datatype PostRow = PostRow(id: string, media: string, account: string, day: int, analysis: Option<Analysis>)

  datatype InputPost = InputPost(
    features: map<string, string>, account: string, metricValues: map<string, real>, analysis: string, post: string,
    day: int, snapshot: nat)

  type Metrics = Snapshot -> map<string, real>

  // ----- Measuring in one window -----

  /** The rows inside the window's edges, from which the window chooses. */
  function ChosenInside(snapshots: seq<Snapshot>, key: WindowKey, post: string): Option<Snapshot>
  {
    ChosenFor(Eligible(snapshots, WindowFor(key)), key, post)
  }

  function Measure(p: PostRow, chosen: Option<Snapshot>, metricsOf: Metrics): Option<InputPost>
  {
    if p.analysis.None? || chosen.None? || metricsOf(chosen.value) == map[] then None
    else
      Some(InputPost(p.analysis.value.features, p.account, metricsOf(chosen.value), p.analysis.value.id, p.id, p.day, chosen.value.id))
  }

  /** The posts measured when each post's snapshot is chosen by `choice`. */
  function MeasuredBy(posts: seq<PostRow>, choice: string -> Option<Snapshot>, metricsOf: Metrics): (r: seq<InputPost>)
    ensures |r| <= |posts|
  {
    if posts == [] then []
    else
      var n := |posts| - 1;
      var rest, last := MeasuredBy(posts[..n], choice, metricsOf), Measure(posts[n], choice(posts[n].id), metricsOf);
      if last.Some? then rest + [last.value] else rest
  }

  function Measured(posts: seq<PostRow>, snapshots: seq<Snapshot>, key: WindowKey, metricsOf: Metrics): (r: seq<InputPost>)
    ensures |r| <= |posts|
  {
    MeasuredBy(posts, Chooses(Eligible(snapshots, WindowFor(key)), key), metricsOf)
  }

  method MeasureAnalyticsInputs(posts: seq<PostRow>, snapshots: seq<Snapshot>, key: WindowKey, metricsOf: Metrics)
    returns (measured: seq<InputPost>)
    ensures measured == Measured(posts, snapshots, key, metricsOf)
  {
    var inWindow := Eligible(snapshots, WindowFor(key));
    var chosen := SelectComparableSnapshots(inWindow, key);
    measured := MeasurePosts(posts, chosen, metricsOf, Chooses(inWindow, key));
  }

  method MeasurePosts(posts: seq<PostRow>, chosen: map<string, Snapshot>, metricsOf: Metrics, ghost choice: string -> Option<Snapshot>)
    returns (measured: seq<InputPost>)
    requires IsChoice(chosen, choice)
    ensures measured == MeasuredBy(posts, choice, metricsOf)
  {
    measured := [];
    for n := 0 to |posts|
      invariant measured == MeasuredBy(posts[..n], choice, metricsOf)
    {
      assert posts[..n + 1][..n] == posts[..n];
      var one := Measure(posts[n], Lookup(chosen, posts[n].id), metricsOf);
      if one.Some? { measured := measured + [one.value]; }
    }
    assert posts[..|posts|] == posts;
  }

  /** A post is measured exactly when it is analysed and its chosen snapshot has a metric; what is measured are its own
      identifiers, account, day and features, and that snapshot and its metrics. */
  lemma {:induction false} MeasuredExactly(posts: seq<PostRow>, choice: string -> Option<Snapshot>, metricsOf: Metrics, x: InputPost)
    ensures x in MeasuredBy(posts, choice, metricsOf) <==>
              exists p | p in posts :: IsMeasured(p, choice(p.id), metricsOf, x)
  {
    if posts != [] {
      var n := |posts| - 1;
      assert posts == posts[..n] + [posts[n]];
      MeasuredExactly(posts[..n], choice, metricsOf, x);
    }
  }

  predicate IsMeasured(p: PostRow, chosen: Option<Snapshot>, metricsOf: Metrics, x: InputPost)
  {
    && p.analysis.Some? && chosen.Some? && metricsOf(chosen.value) != map[]
    && x.post == p.id && x.account == p.account && x.day == p.day
    && x.analysis == p.analysis.value.id && x.features == p.analysis.value.features
    && x.snapshot == chosen.value.id && x.metricValues == metricsOf(chosen.value)
  }

  // ----- Windows agree -----

  /** Filtering before choosing changes nothing. */
  lemma FilteringTwice(snapshots: seq<Snapshot>, key: WindowKey, post: string)
    requires DistinctIds(snapshots)
    ensures ChosenInside(snapshots, key, post) == ChosenFor(snapshots, key, post)
  {
    var inside, all := OfPost(Eligible(snapshots, WindowFor(key)), post), OfPost(snapshots, post);
    var p, q := SelectComparableSnapshot(inside, key), SelectComparableSnapshot(all, key);
    assert p.Some? ==> p.value in all && p.value in inside;
    assert q.Some? ==> q.value in inside && q.value in all;
    if p.Some? {
      ChosenIsLeast(all, key, p.value);
      ChosenIsLeast(inside, key, q.value);
    }
  }

  /** A post measured among the mature snapshots is measured the same way among all of them, so reading all
      observations measures at least as many posts. */
  lemma LifetimeIncludesMature(posts: seq<PostRow>, snapshots: seq<Snapshot>, metricsOf: Metrics)
    requires DistinctIds(snapshots)
    ensures |Measured(posts, snapshots, Mature, metricsOf)| <= |Measured(posts, snapshots, Lifetime, metricsOf)|
    ensures forall x | x in Measured(posts, snapshots, Mature, metricsOf) :: x in Measured(posts, snapshots, Lifetime, metricsOf)
  {
    var mature := Chooses(Eligible(snapshots, WindowFor(Mature)), Mature);
    var lifetime := Chooses(Eligible(snapshots, WindowFor(Lifetime)), Lifetime);
    forall p | mature(p).Some? ensures lifetime(p) == mature(p) {
      FilteringTwice(snapshots, Mature, p);
      FilteringTwice(snapshots, Lifetime, p);
      LifetimeAgreesWithMature(OfPost(snapshots, p));
    }
    WiderChoiceMeasuresMore(posts, mature, lifetime, metricsOf);
  }

  lemma {:induction false} WiderChoiceMeasuresMore(posts: seq<PostRow>, some: string -> Option<Snapshot>, more: string -> Option<Snapshot>, metricsOf: Metrics)
    requires forall p | some(p).Some? :: more(p) == some(p)
    ensures |MeasuredBy(posts, some, metricsOf)| <= |MeasuredBy(posts, more, metricsOf)|
    ensures forall x | x in MeasuredBy(posts, some, metricsOf) :: x in MeasuredBy(posts, more, metricsOf)
  {
    if posts != [] { WiderChoiceMeasuresMore(posts[..|posts| - 1], some, more, metricsOf); }
  }

  // ----- The best window -----

  datatype Selection = Selection(key: WindowKey, considered: seq<WindowSelection.Candidate>, inputs: seq<InputPost>)

  const AdequateCoverage: nat := 20
  const MinimumMatched: nat := 8

  /** What each offered window would measure. */
  function Considered(keys: seq<WindowKey>, posts: seq<PostRow>, snapshots: seq<Snapshot>, metricsOf: Metrics): (cs: seq<WindowSelection.Candidate>)
    ensures |cs| == |keys|
    ensures forall i | 0 <= i < |keys| :: cs[i] == WindowSelection.Candidate(keys[i], |Measured(posts, snapshots, keys[i], metricsOf)|)
  {
    seq(|keys|, i requires 0 <= i < |keys| => WindowSelection.Candidate(keys[i], |Measured(posts, snapshots, keys[i], metricsOf)|))
  }

  lemma ConsideredDistinct(keys: seq<WindowKey>, posts: seq<PostRow>, snapshots: seq<Snapshot>, metricsOf: Metrics)
    ensures WindowSelection.DistinctKeys(Considered(keys, posts, snapshots, metricsOf))
  {
  }

  lemma NothingMeasured(keys: seq<WindowKey>, snapshots: seq<Snapshot>, metricsOf: Metrics)
    ensures WindowSelection.SelectAgeWindow(Considered(keys, [], snapshots, metricsOf), AdequateCoverage, MinimumMatched).None?
  {
    ConsideredDistinct(keys, [], snapshots, metricsOf);
    WindowSelection.MaturityLeadsWhenCovered(Considered(keys, [], snapshots, metricsOf), AdequateCoverage, MinimumMatched);
  }

  method MeasureWindows(keys: seq<WindowKey>, posts: seq<PostRow>, snapshots: seq<Snapshot>, metricsOf: Metrics)
    returns (considered: seq<WindowSelection.Candidate>, measuredByWindow: map<WindowKey, seq<InputPost>>)
    ensures considered == Considered(keys, posts, snapshots, metricsOf)
    ensures forall k :: k in measuredByWindow <==> k in keys
    ensures forall k | k in measuredByWindow :: measuredByWindow[k] == Measured(posts, snapshots, k, metricsOf)
  {
    considered, measuredByWindow := [], map[];
    for n := 0 to |keys|
      invariant |considered| == n
      invariant forall i | 0 <= i < n :: considered[i] == WindowSelection.Candidate(keys[i], |Measured(posts, snapshots, keys[i], metricsOf)|)
      invariant forall k :: k in measuredByWindow <==> k in keys[..n]
      invariant forall k | k in measuredByWindow :: measuredByWindow[k] == Measured(posts, snapshots, k, metricsOf)
    {
      assert keys[..n + 1] == keys[..n] + [keys[n]];
      var inputs := MeasureAnalyticsInputs(posts, snapshots, keys[n], metricsOf);
      measuredByWindow := measuredByWindow[keys[n] := inputs];
      considered := considered + [WindowSelection.Candidate(keys[n], |inputs|)];
    }
    assert keys[..|keys|] == keys;
  }

  lemma ChosenIsAKey(keys: seq<WindowKey>, posts: seq<PostRow>, snapshots: seq<Snapshot>, metricsOf: Metrics, chosen: WindowKey)
    requires WindowSelection.SelectAgeWindow(Considered(keys, posts, snapshots, metricsOf), AdequateCoverage, MinimumMatched) == Some(chosen)
    ensures chosen in keys
  {
    var cs := Considered(keys, posts, snapshots, metricsOf);
    WindowSelection.ChosenIsOffered(cs, AdequateCoverage, MinimumMatched);
    var c :| c in cs && c.key == chosen;
    var i :| 0 <= i < |keys| && cs[i] == c;
    assert keys[i] == chosen;
  }

  /** How many posts a window measures. */
  function Sees(posts: seq<PostRow>, snapshots: seq<Snapshot>, metricsOf: Metrics): WindowKey -> nat
  {
    (key: WindowKey) => |Measured(posts, snapshots, key, metricsOf)|
  }

  /** All observations are read together exactly when that measures something, every offered matched window measures
      fewer than eight posts, and fewer than the fallback does. */
  lemma FallbackSeesMore(keys: seq<WindowKey>, posts: seq<PostRow>, snapshots: seq<Snapshot>, metricsOf: Metrics)
    ensures var sees := Sees(posts, snapshots, metricsOf);
            WindowSelection.SelectAgeWindow(Considered(keys, posts, snapshots, metricsOf), AdequateCoverage, MinimumMatched) == Some(Lifetime) <==>
              Lifetime in keys && 0 < sees(Lifetime) && forall k | k in keys && k != Lifetime :: sees(k) < 8 && sees(k) < sees(Lifetime)
  {
    var cs, sees := Considered(keys, posts, snapshots, metricsOf), Sees(posts, snapshots, metricsOf);
    ConsideredDistinct(keys, posts, snapshots, metricsOf);
    WindowSelection.LifetimeOnlyWhenItSeesMore(cs, AdequateCoverage, MinimumMatched);
    OfferedAre(keys, cs, sees);
  }

  lemma OfferedAre(keys: seq<WindowKey>, cs: seq<WindowSelection.Candidate>, sees: WindowKey -> nat)
    requires |cs| == |keys| && forall i | 0 <= i < |keys| :: cs[i] == WindowSelection.Candidate(keys[i], sees(keys[i]))
    ensures WindowSelection.OnlyLifetimeHelps(cs, 20, 8) <==>
              Lifetime in keys && 0 < sees(Lifetime) && forall k | k in keys && k != Lifetime :: sees(k) < 8 && sees(k) < sees(Lifetime)
  {
    forall k ensures k in keys <==> WindowSelection.Candidate(k, sees(k)) in cs {
      if k in keys {
        var i :| 0 <= i < |keys| && keys[i] == k;
        assert cs[i] == WindowSelection.Candidate(k, sees(k));
      }
    }
    assert forall c | c in cs :: c.key in keys && c.posts == sees(c.key);
  }

  /** Short of twenty posts in every matched window, a matched window that is chosen measures the most. */
  lemma WidestShortOfCoverage(keys: seq<WindowKey>, posts: seq<PostRow>, snapshots: seq<Snapshot>, metricsOf: Metrics, chosen: WindowKey)
    requires WindowSelection.SelectAgeWindow(Considered(keys, posts, snapshots, metricsOf), AdequateCoverage, MinimumMatched) == Some(chosen)
    requires chosen != Lifetime && forall k | k in keys && k != Lifetime :: Sees(posts, snapshots, metricsOf)(k) < 20
    ensures forall k | k in keys && k != Lifetime :: Sees(posts, snapshots, metricsOf)(k) <= Sees(posts, snapshots, metricsOf)(chosen)
  {
    var cs, sees := Considered(keys, posts, snapshots, metricsOf), Sees(posts, snapshots, metricsOf);
    ConsideredDistinct(keys, posts, snapshots, metricsOf);
    assert forall c | c in cs :: c.key in keys && c.posts == sees(c.key);
    WindowSelection.WidestOtherwise(cs, AdequateCoverage, MinimumMatched);
    var c :| c in cs && c.key == chosen && WindowSelection.HasMostPosts(cs, c);
    forall k | k in keys && k != Lifetime ensures sees(k) <= sees(chosen) {
      var i :| 0 <= i < |keys| && keys[i] == k;
      assert cs[i] in cs;
    }
  }

  /** When some matched window measures twenty posts, a matched window at least as mature is chosen. */
  lemma CoveredWindowWins(keys: seq<WindowKey>, posts: seq<PostRow>, snapshots: seq<Snapshot>, metricsOf: Metrics, key: WindowKey)
    requires key in keys && key != Lifetime && |Measured(posts, snapshots, key, metricsOf)| >= 20
    ensures var k := WindowSelection.SelectAgeWindow(Considered(keys, posts, snapshots, metricsOf), AdequateCoverage, MinimumMatched);
            k.Some? && k.value != Lifetime && Maturity(key) <= Maturity(k.value)
  {
    var cs := Considered(keys, posts, snapshots, metricsOf);
    ConsideredDistinct(keys, posts, snapshots, metricsOf);
    WindowSelection.MaturityLeadsWhenCovered(cs, AdequateCoverage, MinimumMatched);
    var i :| 0 <= i < |keys| && keys[i] == key;
    assert cs[i] in cs && WindowSelection.AtLeast(AdequateCoverage)(cs[i]);
  }

  /** Measures every offered window and returns the inputs of the chosen one. */
  method LoadBestAnalyticsInputs(keys: seq<WindowKey>, posts: seq<PostRow>, snapshots: seq<Snapshot>, metricsOf: Metrics)
    returns (selection: Option<Selection>)
    ensures var chosen := WindowSelection.SelectAgeWindow(Considered(keys, posts, snapshots, metricsOf), AdequateCoverage, MinimumMatched);
            && (selection.None? <==> chosen.None?)
            && (selection.Some? ==>
                  && selection.value.key == chosen.value && selection.value.key in keys
                  && selection.value.inputs == Measured(posts, snapshots, chosen.value, metricsOf)
                  && selection.value.considered == Considered(keys, posts, snapshots, metricsOf))
  {
    if posts == [] {
      NothingMeasured(keys, snapshots, metricsOf);
      return None;
    }
    var considered, measuredByWindow := MeasureWindows(keys, posts, snapshots, metricsOf);
    var chosen := WindowSelection.SelectAgeWindow(considered, AdequateCoverage, MinimumMatched);
    if chosen.None? {
      return None;
    }
    ChosenIsAKey(keys, posts, snapshots, metricsOf, chosen.value);
    return Some(Selection(chosen.value, considered, measuredByWindow[chosen.value]));
  }
}
