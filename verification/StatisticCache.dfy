/** The stored statistics as a cache of calculations. */
module StatisticCache {
  import opened Publication
  import opened PublicationGuarantees
  import opened FeatureFamily
  import opened StatisticReuse
  import FeatureStatistics

  function KeyFor(request: Request, c: Candidate): Key
  {
    Key(request.account, request.ageWindow, request.metric, c.path, c.value, FingerprintOf(request, c))
  }

  /** A key carries its question in its columns, and two questions share a row exactly when they ask the same of the
      same posts, snapshots and analyses on both sides, in whatever order. */
  lemma KeyExactly(r: Request, c: Candidate, q: Request, d: Candidate)
    ensures var k := KeyFor(r, c);
            k.account == r.account && k.ageWindow == r.ageWindow && k.metric == r.metric && k.path == c.path && k.value == c.value
    ensures KeyFor(r, c) == KeyFor(q, d) <==>
              && r.account == q.account && r.ageWindow == q.ageWindow && r.metric == q.metric && c.path == d.path && c.value == d.value
              && multiset(IdsOf(c.group)) == multiset(IdsOf(d.group)) && multiset(IdsOf(c.comparison)) == multiset(IdsOf(d.comparison))
  {
  }

  /** The entries of a calculated family, in the order of its candidates. */
  function EntriesOf(request: Request, statistics: seq<FeatureStatistics.Statistic>): (es: seq<Entry>)
    requires |statistics| == |request.candidates|
    ensures |es| == |statistics|
    ensures forall i | 0 <= i < |es| :: es[i] == Entry(KeyFor(request, request.candidates[i]), statistics[i])
  {
    seq(|statistics|, i requires 0 <= i < |statistics| => Entry(KeyFor(request, request.candidates[i]), statistics[i]))
  }

  datatype Asked = Asked(request: Request, candidate: Candidate)

  /** How statistics are calculated: the seeding and the number of resamples. */
  datatype Method = Method(seedOf: FeatureStatistics.SeedOf, resamples: nat)

  /** The entry that a question calculates. */
  ghost function AnswerTo(q: Asked, how: Method): Entry
    requires 0 < how.resamples
  {
    Entry(KeyFor(q.request, q.candidate), Uncorrected(q.request, q.candidate, how.seedOf, how.resamples))
  }

  ghost function AnswersTo(request: Request, how: Method): set<Entry>
    requires 0 < how.resamples
  {
    set c | c in request.candidates :: AnswerTo(Asked(request, c), how)
  }

  lemma AnswersOfFamily(request: Request, statistics: seq<FeatureStatistics.Statistic>, how: Method)
    requires 0 < how.resamples && |statistics| == |request.candidates|
    requires forall i | 0 <= i < |statistics| :: statistics[i] == Uncorrected(request, request.candidates[i], how.seedOf, how.resamples)
    ensures (set e | e in EntriesOf(request, statistics)) == AnswersTo(request, how)
  {
    var es := EntriesOf(request, statistics);
    forall i | 0 <= i < |es| ensures es[i] == AnswerTo(Asked(request, request.candidates[i]), how) {
    }
    forall c | c in request.candidates ensures AnswerTo(Asked(request, c), how) in es {
      var i :| 0 <= i < |es| && request.candidates[i] == c;
      assert es[i] == AnswerTo(Asked(request, c), how);
    }
  }

  /** Every row holds one of the answers that have been calculated. */
  predicate Honest(b: Board, answers: set<Entry>)
  {
    forall k | k in b.rows :: Entry(k, b.rows[k].statistic) in answers
  }

  lemma StoringKeepsHonest(b: Board, run: nat, e: Entry, answers: set<Entry>)
    requires Honest(b, answers) && e in answers
    ensures Honest(StoreEntry(b, run, e), answers)
  {
  }

  /** Storing calculated entries keeps every row honest. */
  lemma {:induction false} WalkKeepsHonest(b: Board, run: nat, es: seq<Entry>, answers: set<Entry>)
    requires Honest(b, answers)
    ensures Honest(StoreAll(b, run, es), answers + set e | e in es)
  {
    if es != [] {
      var n := |es| - 1;
      assert es == es[..n] + [es[n]];
      WalkKeepsHonest(b, run, es[..n], answers);
      StoringKeepsHonest(StoreAll(b, run, es[..n]), run, es[n], answers + set e | e in es);
    }
  }

  lemma StepKeepsHonest(w: World, step: Step, answers: set<Entry>)
    requires Honest(w.board, answers) && (step.Store? ==> step.entry in answers)
    ensures Honest(Apply(w, step).board, answers)
  {
    if step.Store? { StoringKeepsHonest(w.board, step.run, step.entry, answers); }
  }

  /** In every run that stores only calculated answers, every row holds one. */
  lemma {:induction false} RunKeepsHonest(w: World, steps: seq<Step>, answers: set<Entry>)
    requires Honest(w.board, answers) && forall i | 0 <= i < |steps| && steps[i].Store? :: steps[i].entry in answers
    ensures Honest(Execute(w, steps).board, answers)
    decreases |steps|
  {
    if steps != [] {
      StepKeepsHonest(w, steps[0], answers);
      RunKeepsHonest(Apply(w, steps[0]), steps[1..], answers);
    }
  }

  /** Two questions over the same recorded observations, each side listed in one order, that agree on whether
      too many posts lack the metric. */
  ghost predicate Comparable(p: Asked, q: Asked, before: (Ids, Ids) -> bool)
  {
    && p.request.metricIsCount == q.request.metricIsCount
    && InOrder(IdsOf(p.candidate.group), before) && InOrder(IdsOf(q.candidate.group), before)
    && InOrder(IdsOf(p.candidate.comparison), before) && InOrder(IdsOf(q.candidate.comparison), before)
    && FixedByIds(p.candidate.group, q.candidate.group) && FixedByIds(p.candidate.comparison, q.candidate.comparison)
    && (TooManyMissing(p.candidate) <==> TooManyMissing(q.candidate))
  }

  /** A reused row is what calculating afresh would give. */
  lemma CachedStatisticAgrees(b: Board, asked: set<Asked>, answers: set<Entry>, q: Asked, before: (Ids, Ids) -> bool, how: Method)
    requires 0 < how.resamples && Honest(b, answers) && Asymmetric(before)
    requires forall e | e in answers :: exists p | p in asked :: e == AnswerTo(p, how)
    requires KeyFor(q.request, q.candidate) in b.rows
    requires forall p | p in asked && KeyFor(p.request, p.candidate) == KeyFor(q.request, q.candidate) :: Comparable(p, q, before)
    ensures b.rows[KeyFor(q.request, q.candidate)].statistic == AnswerTo(q, how).statistic
  {
    var key := KeyFor(q.request, q.candidate);
    var e := Entry(key, b.rows[key].statistic);
    assert e in answers;
    var p :| p in asked && e == AnswerTo(p, how);
    ReuseIsExact(p.request, p.candidate, q.request, q.candidate, before, how.seedOf, how.resamples);
  }
}
