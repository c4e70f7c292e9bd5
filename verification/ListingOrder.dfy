/**
 The order in which posts are listed reaches the candidates. The query lists posts by publication time and
 identifier, newest first, which is one fixed order of the posts; selection and grouping only leave posts out.
 */
module ListingOrder {
  import opened Options
  import opened SnapshotSelection
  import opened AnalyticsInputs
  import opened FeatureFamily
  import opened FeatureRequests
  import opened StatisticReuse
  import opened StatisticCache
  import opened Publication

  type PostOrder = (string, string) -> bool

  ghost predicate Listed(posts: seq<PostRow>, order: PostOrder)
  {
    forall i, j | 0 <= i < j < |posts| :: order(posts[i].id, posts[j].id)
  }

  ghost predicate ListedInputs(posts: seq<InputPost>, order: PostOrder)
  {
    forall i, j | 0 <= i < j < |posts| :: order(posts[i].post, posts[j].post)
  }

  function OnIds(order: PostOrder): (Ids, Ids) -> bool { (x: Ids, y: Ids) => order(x.post, y.post) }

  lemma OrderIsAsymmetric(order: PostOrder)
    requires forall x, y | order(x, y) :: !order(y, x)
    ensures Asymmetric(OnIds(order))
  {
    var before := OnIds(order);
    forall x, y | before(x, y) ensures !before(y, x) {
      assert order(x.post, y.post);
    }
  }

  lemma {:induction false} MeasuredComeFrom(posts: seq<PostRow>, choice: string -> Option<Snapshot>, metricsOf: Metrics, i: nat)
    requires i < |MeasuredBy(posts, choice, metricsOf)|
    ensures exists k | 0 <= k < |posts| :: MeasuredBy(posts, choice, metricsOf)[i].post == posts[k].id
  {
    var n := |posts| - 1;
    var rest := MeasuredBy(posts[..n], choice, metricsOf);
    if i < |rest| {
      MeasuredComeFrom(posts[..n], choice, metricsOf, i);
      var k :| 0 <= k < n && rest[i].post == posts[..n][k].id;
      assert posts[k].id == rest[i].post;
    } else {
      assert MeasuredBy(posts, choice, metricsOf)[i].post == posts[n].id;
    }
  }

  lemma {:induction false} MeasuringKeepsOrder(posts: seq<PostRow>, choice: string -> Option<Snapshot>, metricsOf: Metrics, order: PostOrder)
    requires Listed(posts, order)
    ensures ListedInputs(MeasuredBy(posts, choice, metricsOf), order)
  {
    if posts != [] {
      var n := |posts| - 1;
      var rest := MeasuredBy(posts[..n], choice, metricsOf);
      MeasuringKeepsOrder(posts[..n], choice, metricsOf, order);
      forall i: nat | i < |rest| ensures order(rest[i].post, posts[n].id) {
        MeasuredComeFrom(posts[..n], choice, metricsOf, i);
        var k :| 0 <= k < n && rest[i].post == posts[..n][k].id;
        assert posts[k].id == rest[i].post;
      }
    }
  }

  lemma {:induction false} FilteringKeepsOrder(posts: seq<InputPost>, keep: InputPost -> bool, order: PostOrder)
    requires ListedInputs(posts, order)
    ensures ListedInputs(Only(posts, keep), order)
  {
    if posts != [] {
      var n := |posts| - 1;
      var rest := Only(posts[..n], keep);
      FilteringKeepsOrder(posts[..n], keep, order);
      forall i | 0 <= i < |rest| ensures order(rest[i].post, posts[n].post) {
        assert rest[i] in posts[..n];
        var k :| 0 <= k < n && posts[..n][k] == rest[i];
        assert posts[k] == rest[i];
      }
    }
  }

  lemma ObservingKeepsOrder(posts: seq<InputPost>, metric: string, order: PostOrder)
    requires ListedInputs(posts, order)
    ensures InOrder(IdsOf(ObserveAll(posts, metric)), OnIds(order))
  {
  }

  lemma CandidateInOrder(measured: seq<InputPost>, path: string, value: string, metric: string, order: PostOrder)
    requires ListedInputs(measured, order)
    ensures var c := CandidateFor(measured, path, value, metric);
            InOrder(IdsOf(c.group), OnIds(order)) && InOrder(IdsOf(c.comparison), OnIds(order))
  {
    var known := Only(measured, HasFeature(path));
    FilteringKeepsOrder(measured, HasFeature(path), order);
    FilteringKeepsOrder(known, HasValue(path, value), order);
    FilteringKeepsOrder(known, OtherValue(path, value), order);
    ObservingKeepsOrder(Only(known, HasValue(path, value)), metric, order);
    ObservingKeepsOrder(Only(known, OtherValue(path, value)), metric, order);
  }

  lemma {:induction false} AllCandidatesInOrder(measured: seq<InputPost>, paths: seq<string>, metric: string, order: PostOrder, i: nat)
    requires ListedInputs(measured, order) && i < |AllCandidates(measured, paths, metric)|
    ensures var c := AllCandidates(measured, paths, metric)[i];
            InOrder(IdsOf(c.group), OnIds(order)) && InOrder(IdsOf(c.comparison), OnIds(order))
  {
    var n := |paths| - 1;
    var before, more := AllCandidates(measured, paths[..n], metric), CandidatesFor(measured, paths[n], metric);
    if i < |before| {
      AllCandidatesInOrder(measured, paths[..n], metric, order, i);
    } else {
      var vs := FeatureValues(Only(measured, HasFeature(paths[n])), paths[n]);
      CandidateInOrder(measured, paths[n], vs[i - |before|], metric, order);
      assert more[i - |before|] == CandidateFor(measured, paths[n], vs[i - |before|], metric);
    }
  }

  /** Both sides of every candidate that a run asks about are listed in the order of the posts. */
  lemma CandidatesAreListedInOrder(q: Question, rows: seq<PostRow>, snapshots: seq<Snapshot>, key: WindowKey, metricsOf: Metrics,
                                   metric: string, order: PostOrder, i: nat)
    requires Listed(rows, order) && i < |RequestFor(q, Measured(rows, snapshots, key, metricsOf), metric).candidates|
    ensures var c := RequestFor(q, Measured(rows, snapshots, key, metricsOf), metric).candidates[i];
            InOrder(IdsOf(c.group), OnIds(order)) && InOrder(IdsOf(c.comparison), OnIds(order))
  {
    var posts := Measured(rows, snapshots, key, metricsOf);
    MeasuringKeepsOrder(rows, Chooses(Eligible(snapshots, WindowFor(key)), key), metricsOf, order);
    FilteringKeepsOrder(posts, HasMetric(metric), order);
    AllCandidatesInOrder(Only(posts, HasMetric(metric)), q.paths, metric, order, i);
  }

  // ----- Reused rows -----

  /** Where a question comes from: a run over listed posts, a metric of its, and a candidate of that family. */
  datatype Origin = Origin(
    question: Question, rows: seq<PostRow>, snapshots: seq<Snapshot>, key: WindowKey, metricsOf: Metrics, metric: string, index: nat)

  function Family(o: Origin): Request
  {
    RequestFor(o.question, Measured(o.rows, o.snapshots, o.key, o.metricsOf), o.metric)
  }

  ghost predicate Arises(a: Asked, o: Origin, order: PostOrder)
  {
    Listed(o.rows, order) && a.request == Family(o) && o.index < |a.request.candidates| && a.candidate == a.request.candidates[o.index]
  }

  /** Two questions over the same recorded observations that agree on whether too many posts lack the metric. */
  ghost predicate SameRecords(p: Asked, q: Asked)
  {
    && p.request.metricIsCount == q.request.metricIsCount
    && FixedByIds(p.candidate.group, q.candidate.group) && FixedByIds(p.candidate.comparison, q.candidate.comparison)
    && (TooManyMissing(p.candidate) <==> TooManyMissing(q.candidate))
  }

  lemma ListedAreComparable(p: Asked, o: Origin, q: Asked, u: Origin, order: PostOrder)
    requires Arises(p, o, order) && Arises(q, u, order) && SameRecords(p, q)
    ensures Comparable(p, q, OnIds(order))
  {
    CandidatesAreListedInOrder(o.question, o.rows, o.snapshots, o.key, o.metricsOf, o.metric, order, o.index);
    CandidatesAreListedInOrder(u.question, u.rows, u.snapshots, u.key, u.metricsOf, u.metric, order, u.index);
  }

  /** When all questions come from listings in one order, a reused row is what calculating afresh would give. */
  lemma ReusedRowAgrees(b: Board, asked: set<Asked>, answers: set<Entry>, origins: map<Asked, Origin>, q: Asked, order: PostOrder, how: Method)
    requires 0 < how.resamples && Honest(b, answers) && forall x, y | order(x, y) :: !order(y, x)
    requires forall e | e in answers :: exists p | p in asked :: e == AnswerTo(p, how)
    requires q in origins && Arises(q, origins[q], order) && KeyFor(q.request, q.candidate) in b.rows
    requires forall p | p in asked :: p in origins && Arises(p, origins[p], order)
    requires forall p | p in asked && KeyFor(p.request, p.candidate) == KeyFor(q.request, q.candidate) :: SameRecords(p, q)
    ensures b.rows[KeyFor(q.request, q.candidate)].statistic == AnswerTo(q, how).statistic
  {
    OrderIsAsymmetric(order);
    forall p | p in asked && KeyFor(p.request, p.candidate) == KeyFor(q.request, q.candidate) ensures Comparable(p, q, OnIds(order)) {
      ListedAreComparable(p, origins[p], q, origins[q], order);
    }
    CachedStatisticAgrees(b, asked, answers, q, OnIds(order), how);
  }
}
