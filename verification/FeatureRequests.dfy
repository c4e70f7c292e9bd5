/** The comparisons a run asks for: one family per metric, one candidate per value of each feature. */
module FeatureRequests {
  import opened Options
  import opened AnalyticsInputs
  import opened FeatureFamily
  import opened StatisticCache
  import opened Publication

  /** What is asked about: the window, the scope, the metrics and feature paths, and which metrics are counts. */
  datatype Question = Question(
    ageWindow: string, account: Option<string>, metrics: seq<string>, paths: seq<string>, isCount: string -> bool)

  const EngagementCount: string := "engagement_count"

  function Only(posts: seq<InputPost>, keep: InputPost -> bool): (r: seq<InputPost>)
    ensures |r| <= |posts|
    ensures forall p :: p in r <==> p in posts && keep(p)
  {
    if posts == [] then []
    else
      var n := |posts| - 1;
      var rest := Only(posts[..n], keep);
      assert posts == posts[..n] + [posts[n]];
      if keep(posts[n]) then rest + [posts[n]] else rest
  }

  function HasMetric(metric: string): InputPost -> bool { (p: InputPost) => metric in p.metricValues }

  function HasFeature(path: string): InputPost -> bool { (p: InputPost) => path in p.features }

  function HasValue(path: string, value: string): InputPost -> bool
  {
    (p: InputPost) => path in p.features && p.features[path] == value
  }

  function OtherValue(path: string, value: string): InputPost -> bool
  {
    (p: InputPost) => path !in p.features || p.features[path] != value
  }

  /** A post without the metric is never observed for it. */
  function Observe(p: InputPost, metric: string): Observation
  {
    Observation(p.account, p.post, p.snapshot, p.analysis, p.day, if metric in p.metricValues then p.metricValues[metric] else 0.0)
  }

  function ObserveAll(posts: seq<InputPost>, metric: string): (r: seq<Observation>)
    ensures |r| == |posts|
  {
    seq(|posts|, i requires 0 <= i < |posts| => Observe(posts[i], metric))
  }

  /** The values of a feature, in the order they first occur. */
  function FeatureValues(posts: seq<InputPost>, path: string): (vs: seq<string>)
    ensures forall v :: v in vs <==> exists p | p in posts :: path in p.features && p.features[path] == v
    ensures forall i, j | 0 <= i < j < |vs| :: vs[i] != vs[j]
  {
    if posts == [] then []
    else
      var n := |posts| - 1;
      var rest := FeatureValues(posts[..n], path);
      assert posts == posts[..n] + [posts[n]];
      if path in posts[n].features && posts[n].features[path] !in rest then rest + [posts[n].features[path]] else rest
  }

  function CandidateFor(measured: seq<InputPost>, path: string, value: string, metric: string): Candidate
  {
    var known := Only(measured, HasFeature(path));
    Candidate(ObserveAll(Only(known, HasValue(path, value)), metric), ObserveAll(Only(known, OtherValue(path, value)), metric),
              path, value, |measured| - |known|)
  }

  function CandidatesFor(measured: seq<InputPost>, path: string, metric: string): (cs: seq<Candidate>)
    ensures var vs := FeatureValues(Only(measured, HasFeature(path)), path);
            |cs| == (if |vs| < 2 then 0 else |vs|) && forall i | 0 <= i < |cs| :: cs[i] == CandidateFor(measured, path, vs[i], metric)
  {
    var vs := FeatureValues(Only(measured, HasFeature(path)), path);
    if |vs| < 2 then [] else seq(|vs|, i requires 0 <= i < |vs| => CandidateFor(measured, path, vs[i], metric))
  }

  function AllCandidates(measured: seq<InputPost>, paths: seq<string>, metric: string): seq<Candidate>
  {
    if paths == [] then []
    else AllCandidates(measured, paths[..|paths| - 1], metric) + CandidatesFor(measured, paths[|paths| - 1], metric)
  }

  predicate Asks(q: Question, metric: string) { q.account.Some? || metric != EngagementCount }

  function RequestFor(q: Question, posts: seq<InputPost>, metric: string): Request
  {
    Request(q.ageWindow, AllCandidates(Only(posts, HasMetric(metric)), q.paths, metric), q.account, metric, q.isCount(metric))
  }

  function RequestsFor(q: Question, posts: seq<InputPost>, metrics: seq<string>): seq<Request>
  {
    if metrics == [] then []
    else
      var n := |metrics| - 1;
      var rest, r := RequestsFor(q, posts, metrics[..n]), RequestFor(q, posts, metrics[n]);
      if Asks(q, metrics[n]) && r.candidates != [] then rest + [r] else rest
  }

  // ----- The loops -----

  method BuildFeatureRequests(q: Question, posts: seq<InputPost>) returns (requests: seq<Request>)
    ensures requests == RequestsFor(q, posts, q.metrics)
    ensures forall r | r in requests :: AsksAbout(q, posts, r)
    ensures forall m | m in q.metrics && (q.account.Some? || m != "engagement_count") && SomethingDiffers(q, posts, m) ::
              exists r | r in requests :: r.metric == m
  {
    RequestsAreExact(q, posts, q.metrics);
    requests := [];
    for n := 0 to |q.metrics|
      invariant requests == RequestsFor(q, posts, q.metrics[..n])
    {
      assert q.metrics[..n + 1][..n] == q.metrics[..n];
      var metric := q.metrics[n];
      if q.account.Some? || metric != EngagementCount {
        var candidates := BuildCandidates(q, posts, metric);
        if candidates != [] {
          requests := requests + [Request(q.ageWindow, candidates, q.account, metric, q.isCount(metric))];
        }
      }
    }
    assert q.metrics[..|q.metrics|] == q.metrics;
  }

  method BuildCandidates(q: Question, posts: seq<InputPost>, metric: string) returns (candidates: seq<Candidate>)
    ensures candidates == AllCandidates(Only(posts, HasMetric(metric)), q.paths, metric)
  {
    var measured := Only(posts, HasMetric(metric));
    candidates := [];
    if measured == [] {
      NothingToCompare(q.paths, metric);
      return;
    }
    for n := 0 to |q.paths|
      invariant candidates == AllCandidates(measured, q.paths[..n], metric)
    {
      assert q.paths[..n + 1][..n] == q.paths[..n];
      var more := BuildForFeature(measured, q.paths[n], metric);
      candidates := candidates + more;
    }
    assert q.paths[..|q.paths|] == q.paths;
  }

  method BuildForFeature(measured: seq<InputPost>, path: string, metric: string) returns (candidates: seq<Candidate>)
    ensures candidates == CandidatesFor(measured, path, metric)
  {
    var known := Only(measured, HasFeature(path));
    var values := FeatureValues(known, path);
    candidates := [];
    if |values| < 2 {
      return;
    }
    for n := 0 to |values|
      invariant |candidates| == n
      invariant forall i | 0 <= i < n :: candidates[i] == CandidateFor(measured, path, values[i], metric)
    {
      var value := values[n];
      var candidate := Candidate(ObserveAll(Only(known, HasValue(path, value)), metric),
                                 ObserveAll(Only(known, OtherValue(path, value)), metric), path, value, |measured| - |known|);
      candidates := candidates + [candidate];
    }
  }

  lemma {:induction false} NothingToCompare(paths: seq<string>, metric: string)
    ensures AllCandidates([], paths, metric) == []
  {
    if paths != [] { NothingToCompare(paths[..|paths| - 1], metric); }
  }

  // ----- What every candidate satisfies -----

  lemma {:induction false} Splits(posts: seq<InputPost>, path: string, value: string)
    ensures |Only(posts, HasValue(path, value))| + |Only(posts, OtherValue(path, value))| == |posts|
  {
    if posts != [] { Splits(posts[..|posts| - 1], path, value); }
  }

  /** Group, comparison and missing posts make up the measured posts. */
  lemma CandidateConserves(measured: seq<InputPost>, path: string, value: string, metric: string)
    ensures var c := CandidateFor(measured, path, value, metric);
            |c.group| + |c.comparison| + c.missing == |measured|
  {
    Splits(Only(measured, HasFeature(path)), path, value);
  }

  /** Neither side of a candidate is empty. */
  lemma BothSidesInhabited(measured: seq<InputPost>, path: string, metric: string, i: nat)
    requires i < |CandidatesFor(measured, path, metric)|
    ensures var c := CandidatesFor(measured, path, metric)[i]; c.group != [] && c.comparison != []
  {
    var known := Only(measured, HasFeature(path));
    var vs := FeatureValues(known, path);
    var k := if i == 0 then 1 else 0;
    assert vs[i] in vs && vs[k] in vs && vs[i] != vs[k];
    var p :| p in known && path in p.features && p.features[path] == vs[i];
    var o :| o in known && path in o.features && o.features[path] == vs[k];
    assert p in Only(known, HasValue(path, vs[i]));
    assert o in Only(known, OtherValue(path, vs[i]));
  }

  // ----- What is asked, post by post -----

  /** The observation of a post for a metric: its own identifiers and day, and the metric's value. */
  ghost predicate Observes(o: Observation, p: InputPost, metric: string)
  {
    metric in p.metricValues && o == Observation(p.account, p.post, p.snapshot, p.analysis, p.day, p.metricValues[metric])
  }

  predicate Has(p: InputPost, metric: string, path: string) { metric in p.metricValues && path in p.features }

  /** Measured, with this value of the feature. */
  function Carries(metric: string, path: string, value: string): InputPost -> bool
  {
    (p: InputPost) => Has(p, metric, path) && p.features[path] == value
  }

  /** Measured, with another known value of the feature. */
  function CarriesOther(metric: string, path: string, value: string): InputPost -> bool
  {
    (p: InputPost) => Has(p, metric, path) && p.features[path] != value
  }

  /** Measured, with no known value of the feature. */
  function Lacks(metric: string, path: string): InputPost -> bool
  {
    (p: InputPost) => metric in p.metricValues && path !in p.features
  }

  /** How many posts satisfy a condition. */
  function Number(posts: seq<InputPost>, holds: InputPost -> bool): nat
  {
    if posts == [] then 0 else Number(posts[..|posts| - 1], holds) + if holds(posts[|posts| - 1]) then 1 else 0
  }

  /** The side of a candidate is the observations of the posts that satisfy a condition, one for each. */
  ghost predicate SideIsOf(side: seq<Observation>, posts: seq<InputPost>, metric: string, holds: InputPost -> bool)
  {
    && |side| == Number(posts, holds)
    && (forall o :: o in side <==> exists p | p in posts :: holds(p) && Observes(o, p, metric))
  }

  /** The group are the measured posts with the value, the comparison those with another known value, and the
      others of the measured posts are missing. */
  ghost predicate SidesAre(posts: seq<InputPost>, metric: string, c: Candidate)
  {
    && SideIsOf(c.group, posts, metric, Carries(metric, c.path, c.value))
    && SideIsOf(c.comparison, posts, metric, CarriesOther(metric, c.path, c.value))
    && c.missing == Number(posts, Lacks(metric, c.path))
  }

  /** Two measured posts differ in a feature. */
  ghost predicate Differ(posts: seq<InputPost>, metric: string, path: string)
  {
    exists p, o | p in posts && o in posts :: Has(p, metric, path) && Has(o, metric, path) && p.features[path] != o.features[path]
  }

  ghost predicate SomethingDiffers(q: Question, posts: seq<InputPost>, metric: string)
  {
    exists path | path in q.paths :: Differ(posts, metric, path)
  }

  /** A request asks about one metric, pooled requests never about engagement counts; it compares every value of
      every feature in which measured posts differ, and nothing else. */
  ghost predicate AsksAbout(q: Question, posts: seq<InputPost>, r: Request)
  {
    && r.ageWindow == q.ageWindow && r.account == q.account && r.metric in q.metrics && r.metricIsCount == q.isCount(r.metric)
    && (r.account.None? ==> r.metric != "engagement_count") && r.candidates != []
    && (forall c | c in r.candidates :: SidesAre(posts, r.metric, c) && c.path in q.paths && c.group != [] && c.comparison != [])
    && (forall path, p | path in q.paths && p in posts && Has(p, r.metric, path) && Differ(posts, r.metric, path) ::
          exists c | c in r.candidates :: c.path == path && c.value == p.features[path])
  }

  lemma {:induction false} OnlyCounts(posts: seq<InputPost>, keep: InputPost -> bool)
    ensures |Only(posts, keep)| == Number(posts, keep)
  {
    if posts != [] { OnlyCounts(posts[..|posts| - 1], keep); }
  }

  lemma {:induction false} NumberSplits(posts: seq<InputPost>, all: InputPost -> bool, some: InputPost -> bool, others: InputPost -> bool)
    requires forall p :: (all(p) <==> some(p) || others(p)) && !(some(p) && others(p))
    ensures Number(posts, all) == Number(posts, some) + Number(posts, others)
  {
    if posts != [] { NumberSplits(posts[..|posts| - 1], all, some, others); }
  }

  lemma {:induction false} OnlyTwice(posts: seq<InputPost>, first: InputPost -> bool, second: InputPost -> bool, both: InputPost -> bool)
    requires forall p :: both(p) <==> first(p) && second(p)
    ensures Only(Only(posts, first), second) == Only(posts, both)
  {
    if posts != [] {
      var n := |posts| - 1;
      OnlyTwice(posts[..n], first, second, both);
      var rest := Only(posts[..n], first);
      assert (rest + [posts[n]])[..|rest|] == rest;
    }
  }

  lemma ObservedAre(posts: seq<InputPost>, metric: string, o: Observation)
    requires forall p | p in posts :: metric in p.metricValues
    ensures o in ObserveAll(posts, metric) <==> exists p | p in posts :: Observes(o, p, metric)
  {
    var all := ObserveAll(posts, metric);
    if o in all {
      var i :| 0 <= i < |all| && all[i] == o;
      assert posts[i] in posts && Observes(o, posts[i], metric);
    }
    if p :| p in posts && Observes(o, p, metric) {
      var i :| 0 <= i < |posts| && posts[i] == p;
      assert all[i] == o;
    }
  }

  lemma SideIs(posts: seq<InputPost>, metric: string, path: string, side: InputPost -> bool, both: InputPost -> bool)
    requires forall p :: both(p) <==> Has(p, metric, path) && side(p)
    ensures var known := Only(Only(posts, HasMetric(metric)), HasFeature(path));
            SideIsOf(ObserveAll(Only(known, side), metric), posts, metric, both)
  {
    var known := (p: InputPost) => Has(p, metric, path);
    OnlyTwice(posts, HasMetric(metric), HasFeature(path), known);
    OnlyTwice(posts, known, side, both);
    OnlyCounts(posts, both);
    forall o ensures o in ObserveAll(Only(posts, both), metric) <==> exists p | p in posts :: both(p) && Observes(o, p, metric) {
      ObservedAre(Only(posts, both), metric, o);
    }
  }

  lemma MissingAre(posts: seq<InputPost>, path: string, metric: string)
    ensures var measured := Only(posts, HasMetric(metric));
            |measured| - |Only(measured, HasFeature(path))| == Number(posts, Lacks(metric, path))
  {
    var known := (p: InputPost) => Has(p, metric, path);
    OnlyTwice(posts, HasMetric(metric), HasFeature(path), known);
    OnlyCounts(posts, HasMetric(metric));
    OnlyCounts(posts, known);
    NumberSplits(posts, HasMetric(metric), known, Lacks(metric, path));
  }

  lemma CandidateSides(posts: seq<InputPost>, path: string, value: string, metric: string)
    ensures SidesAre(posts, metric, CandidateFor(Only(posts, HasMetric(metric)), path, value, metric))
  {
    SideIs(posts, metric, path, HasValue(path, value), Carries(metric, path, value));
    SideIs(posts, metric, path, OtherValue(path, value), CarriesOther(metric, path, value));
    MissingAre(posts, path, metric);
  }

  /** The candidates of a feature: one for each of its values, when there are at least two. */
  lemma ValuesAreAsked(posts: seq<InputPost>, path: string, metric: string, p: InputPost)
    requires p in posts && Has(p, metric, path) && Differ(posts, metric, path)
    ensures exists c | c in CandidatesFor(Only(posts, HasMetric(metric)), path, metric) :: c.path == path && c.value == p.features[path]
  {
    var measured := Only(posts, HasMetric(metric));
    var a, b :| a in posts && b in posts && Has(a, metric, path) && Has(b, metric, path) && a.features[path] != b.features[path];
    assert a in measured && b in measured && p in measured;
    ValuesOfMeasured(measured, path, metric, a, b, p);
  }

  lemma ValuesOfMeasured(measured: seq<InputPost>, path: string, metric: string, a: InputPost, b: InputPost, p: InputPost)
    requires a in measured && b in measured && p in measured && path in a.features && path in b.features && path in p.features
    requires a.features[path] != b.features[path]
    ensures exists c | c in CandidatesFor(measured, path, metric) :: c.path == path && c.value == p.features[path]
  {
    var known := Only(measured, HasFeature(path));
    assert a in known && b in known && p in known;
    var vs := FeatureValues(known, path);
    ValueOccurs(known, path, a);
    ValueOccurs(known, path, b);
    ValueOccurs(known, path, p);
    TwoMembers(vs, a.features[path], b.features[path]);
    AskedAt(measured, path, metric, vs, p.features[path]);
  }

  lemma AskedAt(measured: seq<InputPost>, path: string, metric: string, vs: seq<string>, value: string)
    requires vs == FeatureValues(Only(measured, HasFeature(path)), path) && |vs| >= 2 && value in vs
    ensures exists c | c in CandidatesFor(measured, path, metric) :: c.path == path && c.value == value
  {
    var cs := CandidatesFor(measured, path, metric);
    var i :| 0 <= i < |vs| && vs[i] == value;
    assert cs[i] in cs && cs[i] == CandidateFor(measured, path, value, metric);
  }

  lemma ValueOccurs(known: seq<InputPost>, path: string, p: InputPost)
    requires p in known && path in p.features
    ensures p.features[path] in FeatureValues(known, path)
  {
  }

  lemma TwoMembers(vs: seq<string>, a: string, b: string)
    requires a in vs && b in vs && a != b
    ensures |vs| >= 2
  {
  }

  lemma {:induction false} CandidatesAre(posts: seq<InputPost>, paths: seq<string>, metric: string)
    ensures var cs := AllCandidates(Only(posts, HasMetric(metric)), paths, metric);
            && (forall c | c in cs :: SidesAre(posts, metric, c) && c.path in paths && c.group != [] && c.comparison != [])
            && (forall path, p | path in paths && p in posts && Has(p, metric, path) && Differ(posts, metric, path) ::
                  exists c | c in cs :: c.path == path && c.value == p.features[path])
  {
    if paths != [] {
      var n := |paths| - 1;
      var measured := Only(posts, HasMetric(metric));
      var before, more := AllCandidates(measured, paths[..n], metric), CandidatesFor(measured, paths[n], metric);
      assert paths == paths[..n] + [paths[n]];
      CandidatesAre(posts, paths[..n], metric);
      forall c | c in more ensures SidesAre(posts, metric, c) && c.path == paths[n] && c.group != [] && c.comparison != [] {
        var i: nat :| i < |more| && more[i] == c;
        var vs := FeatureValues(Only(measured, HasFeature(paths[n])), paths[n]);
        CandidateSides(posts, paths[n], vs[i], metric);
        BothSidesInhabited(measured, paths[n], metric, i);
      }
      var cs := before + more;
      forall path, p | path in paths && p in posts && Has(p, metric, path) && Differ(posts, metric, path)
        ensures exists c | c in cs :: c.path == path && c.value == p.features[path]
      {
        if path in paths[..n] {
          var c :| c in before && c.path == path && c.value == p.features[path];
          assert c in cs;
        } else {
          ValuesAreAsked(posts, path, metric, p);
          var c :| c in more && c.path == path && c.value == p.features[path];
          assert c in cs;
        }
      }
    }
  }

  lemma RequestIsExact(q: Question, posts: seq<InputPost>, metric: string)
    requires metric in q.metrics && Asks(q, metric) && RequestFor(q, posts, metric).candidates != []
    ensures AsksAbout(q, posts, RequestFor(q, posts, metric))
  {
    CandidatesAre(posts, q.paths, metric);
  }

  lemma ComparableIsAsked(q: Question, posts: seq<InputPost>, metric: string)
    requires SomethingDiffers(q, posts, metric)
    ensures RequestFor(q, posts, metric).candidates != []
  {
    CandidatesAre(posts, q.paths, metric);
    var path :| path in q.paths && Differ(posts, metric, path);
    var p, o :| p in posts && o in posts && Has(p, metric, path) && Has(o, metric, path) && p.features[path] != o.features[path];
  }

  lemma {:induction false} RequestsAreExact(q: Question, posts: seq<InputPost>, metrics: seq<string>)
    requires forall m | m in metrics :: m in q.metrics
    ensures forall r | r in RequestsFor(q, posts, metrics) :: AsksAbout(q, posts, r)
    ensures forall m | m in metrics && (q.account.Some? || m != "engagement_count") && SomethingDiffers(q, posts, m) ::
              exists r | r in RequestsFor(q, posts, metrics) :: r.metric == m
  {
    if metrics != [] {
      var n := |metrics| - 1;
      assert metrics == metrics[..n] + [metrics[n]];
      RequestsAreExact(q, posts, metrics[..n]);
      var rest, r, all := RequestsFor(q, posts, metrics[..n]), RequestFor(q, posts, metrics[n]), RequestsFor(q, posts, metrics);
      if Asks(q, metrics[n]) && r.candidates != [] { RequestIsExact(q, posts, metrics[n]); }
      forall m | m in metrics && (q.account.Some? || m != "engagement_count") && SomethingDiffers(q, posts, m)
        ensures exists x | x in all :: x.metric == m
      {
        if m in metrics[..n] {
          var x :| x in rest && x.metric == m;
          assert x in all;
        } else {
          ComparableIsAsked(q, posts, m);
          assert r in all;
        }
      }
    }
  }

  // ----- Counting the questions -----

  function KeysOf(r: Request): set<Key> { set c | c in r.candidates :: KeyFor(r, c) }

  function AllKeys(rs: seq<Request>): set<Key>
  {
    if rs == [] then {} else AllKeys(rs[..|rs| - 1]) + KeysOf(rs[|rs| - 1])
  }

  /** The number of statistics a run expects. */
  function Expected(rs: seq<Request>): nat
  {
    if rs == [] then 0 else Expected(rs[..|rs| - 1]) + |rs[|rs| - 1].candidates|
  }

  predicate DistinctStrings(s: seq<string>)
  {
    forall i, j | 0 <= i < j < |s| :: s[i] != s[j]
  }

  predicate DistinctQuestions(cs: seq<Candidate>)
  {
    forall i, j | 0 <= i < j < |cs| :: cs[i].path != cs[j].path || cs[i].value != cs[j].value
  }

  lemma {:induction false} CandidatesAreDistinct(measured: seq<InputPost>, paths: seq<string>, metric: string)
    requires DistinctStrings(paths)
    ensures DistinctQuestions(AllCandidates(measured, paths, metric))
    ensures forall i | 0 <= i < |AllCandidates(measured, paths, metric)| :: AllCandidates(measured, paths, metric)[i].path in paths
  {
    if paths != [] {
      var n := |paths| - 1;
      CandidatesAreDistinct(measured, paths[..n], metric);
      var before, more := AllCandidates(measured, paths[..n], metric), CandidatesFor(measured, paths[n], metric);
      assert paths == paths[..n] + [paths[n]];
      assert forall i | 0 <= i < |more| :: more[i].path == paths[n];
      assert forall i | 0 <= i < |before| :: before[i].path != paths[n];
    }
  }

  lemma {:induction false} DistinctImages<A, B>(xs: seq<A>, f: A -> B, images: set<B>)
    requires forall i, j | 0 <= i < j < |xs| :: f(xs[i]) != f(xs[j])
    requires (forall x | x in xs :: f(x) in images) && forall y | y in images :: exists i | 0 <= i < |xs| :: f(xs[i]) == y
    ensures |images| == |xs|
  {
    if xs == [] {
      assert images == {};
    } else {
      var n := |xs| - 1;
      assert xs == xs[..n] + [xs[n]];
      var fewer := images - {f(xs[n])};
      forall y | y in fewer ensures exists i | 0 <= i < n :: f(xs[..n][i]) == y {
        var i :| 0 <= i < |xs| && f(xs[i]) == y;
        assert xs[..n][i] == xs[i];
      }
      DistinctImages(xs[..n], f, fewer);
    }
  }

  /** A family has as many keys as candidates. */
  lemma KeysOfFamily(r: Request)
    requires DistinctQuestions(r.candidates)
    ensures |KeysOf(r)| == |r.candidates|
  {
    var f := (c: Candidate) => KeyFor(r, c);
    forall k | k in KeysOf(r) ensures exists i | 0 <= i < |r.candidates| :: f(r.candidates[i]) == k {
      var c :| c in r.candidates && KeyFor(r, c) == k;
      var i :| 0 <= i < |r.candidates| && r.candidates[i] == c;
    }
    DistinctImages(r.candidates, f, KeysOf(r));
  }

  predicate OfMetrics(keys: set<Key>, metrics: seq<string>) { forall k | k in keys :: k.metric in metrics }

  /** A run expects exactly as many statistics as it has different keys. */
  lemma {:induction false} ExpectedCountsKeys(q: Question, posts: seq<InputPost>, metrics: seq<string>)
    requires DistinctStrings(metrics) && DistinctStrings(q.paths)
    ensures |AllKeys(RequestsFor(q, posts, metrics))| == Expected(RequestsFor(q, posts, metrics))
    ensures OfMetrics(AllKeys(RequestsFor(q, posts, metrics)), metrics)
  {
    if metrics != [] {
      var n := |metrics| - 1;
      var rest, r := RequestsFor(q, posts, metrics[..n]), RequestFor(q, posts, metrics[n]);
      assert metrics == metrics[..n] + [metrics[n]];
      ExpectedCountsKeys(q, posts, metrics[..n]);
      if Asks(q, metrics[n]) && r.candidates != [] {
        CandidatesAreDistinct(Only(posts, HasMetric(metrics[n])), q.paths, metrics[n]);
        KeysOfFamily(r);
        AddedKeys(rest, r, metrics, n);
      }
    }
  }

  lemma MetricOfKeys(r: Request)
    ensures forall k | k in KeysOf(r) :: k.metric == r.metric
  {
  }

  lemma AddedKeys(rest: seq<Request>, r: Request, metrics: seq<string>, n: nat)
    requires n < |metrics| && DistinctStrings(metrics) && r.metric == metrics[n] && OfMetrics(AllKeys(rest), metrics[..n])
    requires |AllKeys(rest)| == Expected(rest) && |KeysOf(r)| == |r.candidates|
    ensures |AllKeys(rest + [r])| == Expected(rest + [r])
    ensures OfMetrics(AllKeys(rest + [r]), metrics[..n + 1])
  {
    assert (rest + [r])[..|rest|] == rest;
    assert metrics[n] !in metrics[..n];
    MetricOfKeys(r);
    assert AllKeys(rest) !! KeysOf(r);
    assert metrics[..n + 1] == metrics[..n] + [metrics[n]];
  }
}
