/**
 When a stored statistic may stand for a fresh one. The fingerprint is modelled as what it is computed from:
 a record of the question and of the identifiers on both sides, in which order does not count.
 */
module StatisticReuse {
  import opened Options
  import opened Bootstrap
  import opened FeatureStatistics
  import opened FeatureFamily
  import IsoWeek

  datatype Ids = Ids(post: string, snapshot: nat, analysis: string)

  datatype Fingerprint = Fingerprint(
    scope: string, ageWindow: string, metric: string, path: string, value: string,
    group: multiset<Ids>, comparison: multiset<Ids>)

  function IdsOf(observations: seq<Observation>): (ids: seq<Ids>)
    ensures |ids| == |observations|
    ensures forall i | 0 <= i < |ids| :: ids[i] == Ids(observations[i].post, observations[i].snapshot, observations[i].analysis)
  {
    seq(|observations|, i requires 0 <= i < |observations| =>
      Ids(observations[i].post, observations[i].snapshot, observations[i].analysis))
  }

  function FingerprintOf(request: Request, c: Candidate): Fingerprint
  {
    Fingerprint(if request.account.Some? then request.account.value else "pooled", request.ageWindow, request.metric,
                c.path, c.value, multiset(IdsOf(c.group)), multiset(IdsOf(c.comparison)))
  }

  // ----- Canonical listings -----

  /** An order in which no two identifiers come before each other. */
  ghost predicate Asymmetric(before: (Ids, Ids) -> bool)
  {
    forall x, y | before(x, y) :: !before(y, x)
  }

  /** The identifiers stand in the given order. */
  ghost predicate InOrder(ids: seq<Ids>, before: (Ids, Ids) -> bool)
  {
    forall i, j | 0 <= i < j < |ids| :: before(ids[i], ids[j])
  }

  /** Identifiers in a canonical order are determined by which they are. */
  lemma {:induction false} CanonicalListing(a: seq<Ids>, b: seq<Ids>, before: (Ids, Ids) -> bool)
    requires Asymmetric(before) && InOrder(a, before) && InOrder(b, before) && multiset(a) == multiset(b)
    ensures a == b
    decreases |a|
  {
    assert |a| == |multiset(a)| && |b| == |multiset(b)|;
    if a != [] {
      FirstIsShared(a, b, before);
      assert a == [a[0]] + a[1..] && b == [b[0]] + b[1..];
      assert multiset(a[1..]) == multiset(a) - multiset{a[0]};
      assert multiset(b[1..]) == multiset(b) - multiset{b[0]};
      CanonicalListing(a[1..], b[1..], before);
    }
  }

  lemma FirstIsShared(a: seq<Ids>, b: seq<Ids>, before: (Ids, Ids) -> bool)
    requires Asymmetric(before) && InOrder(a, before) && InOrder(b, before) && multiset(a) == multiset(b) && a != [] && b != []
    ensures a[0] == b[0]
  {
    assert a[0] in multiset(a) && b[0] in multiset(b);
    assert a[0] in b && b[0] in a;
    var i, j :| 0 <= i < |b| && b[i] == a[0] && 0 <= j < |a| && a[j] == b[0];
  }

  /** An observation is fixed by its identifiers. */
  ghost predicate FixedByIds(a: seq<Observation>, b: seq<Observation>)
  {
    forall i, j | 0 <= i < |a| && 0 <= j < |b| && IdsOf(a)[i] == IdsOf(b)[j] :: a[i] == b[j]
  }

  lemma SameObservations(a: seq<Observation>, b: seq<Observation>, before: (Ids, Ids) -> bool)
    requires Asymmetric(before) && InOrder(IdsOf(a), before) && InOrder(IdsOf(b), before)
    requires FixedByIds(a, b) && multiset(IdsOf(a)) == multiset(IdsOf(b))
    ensures a == b
  {
    CanonicalListing(IdsOf(a), IdsOf(b), before);
    assert |a| == |IdsOf(a)| == |b|;
    forall i | 0 <= i < |a| ensures a[i] == b[i] {
      assert IdsOf(a)[i] == IdsOf(b)[i];
    }
  }

  // ----- Agreement of a stored and a fresh statistic -----

  /** The comparison is settled before missing values are looked at. */
  ghost predicate SettledEarly(c: Candidate)
  {
    |c.group| < 3 || |c.comparison| < 5 || IsoWeek.Distinct(DaysOf(c.group)) < MinimumDates
  }

  predicate TooManyMissing(c: Candidate) { MissingRatio(c) > MaximumMissing }

  /** With the same question, the same fingerprint and canonically listed observations, a stored statistic
      equals a fresh one exactly when missing values do not decide between them. */
  lemma ReuseIsExact(request: Request, c: Candidate, later: Request, d: Candidate, before: (Ids, Ids) -> bool, seedOf: SeedOf, resamples: nat)
    requires 0 < resamples && FingerprintOf(request, c) == FingerprintOf(later, d)
    requires request.account == later.account && request.metricIsCount == later.metricIsCount
    requires Asymmetric(before)
    requires InOrder(IdsOf(c.group), before) && InOrder(IdsOf(d.group), before) && FixedByIds(c.group, d.group)
    requires InOrder(IdsOf(c.comparison), before) && InOrder(IdsOf(d.comparison), before) && FixedByIds(c.comparison, d.comparison)
    ensures Uncorrected(request, c, seedOf, resamples) == Uncorrected(later, d, seedOf, resamples) <==>
              SettledEarly(c) || (TooManyMissing(c) <==> TooManyMissing(d))
  {
    SameObservations(c.group, d.group, before);
    SameObservations(c.comparison, d.comparison, before);
    ReuseOfSame(request, c, later, d, seedOf, resamples);
  }

  predicate SameQuestion(request: Request, c: Candidate, later: Request, d: Candidate)
  {
    && request.account == later.account && request.metricIsCount == later.metricIsCount && request.ageWindow == later.ageWindow
    && request.metric == later.metric && c.path == d.path && c.value == d.value
  }

  lemma ReuseOfSame(request: Request, c: Candidate, later: Request, d: Candidate, seedOf: SeedOf, resamples: nat)
    requires 0 < resamples && SameQuestion(request, c, later, d) && c.group == d.group && c.comparison == d.comparison
    ensures Uncorrected(request, c, seedOf, resamples) == Uncorrected(later, d, seedOf, resamples) <==>
              SettledEarly(c) || (TooManyMissing(c) <==> TooManyMissing(d))
  {
    InputsDifferInMissing(request, c, later, d);
    InputParts(request, c, InputOf(request, c, None));
    ReuseOfInputs(c, d, InputOf(request, c, None), InputOf(later, d, None), seedOf, resamples);
  }

  lemma ReuseOfInputs(c: Candidate, d: Candidate, input: ComparisonInput, other: ComparisonInput, seedOf: SeedOf, resamples: nat)
    requires 0 < resamples && other == input.(missingRatio := MissingRatio(d)) && input.missingRatio == MissingRatio(c)
    requires |input.group| == |c.group| && |input.comparison| == |c.comparison| && input.dates == IsoWeek.Distinct(DaysOf(c.group))
    ensures StatisticOf(input, seedOf, resamples) == StatisticOf(other, seedOf, resamples) <==>
              SettledEarly(c) || (TooManyMissing(c) <==> TooManyMissing(d))
  {
    OnlyMissingDiffers(input, MissingRatio(d), seedOf, resamples);
  }

  lemma InputParts(request: Request, c: Candidate, input: ComparisonInput)
    requires input == InputOf(request, c, None)
    ensures |input.group| == |c.group| && |input.comparison| == |c.comparison|
    ensures input.dates == IsoWeek.Distinct(DaysOf(c.group)) && input.missingRatio == MissingRatio(c)
  {
  }

  lemma InputsDifferInMissing(request: Request, c: Candidate, later: Request, d: Candidate)
    requires SameQuestion(request, c, later, d) && c.group == d.group && c.comparison == d.comparison
    ensures InputOf(later, d, None) == InputOf(request, c, None).(missingRatio := MissingRatio(d))
  {
  }

  predicate SameSide(m: real, n: real) { m > MaximumMissing <==> n > MaximumMissing }

  lemma OnlyMissingDiffers(input: ComparisonInput, missing: real, seedOf: SeedOf, resamples: nat)
    requires 0 < resamples
    ensures StatisticOf(input, seedOf, resamples) == StatisticOf(input.(missingRatio := missing), seedOf, resamples) <==>
              |input.group| < 3 || |input.comparison| < 5 || input.dates < MinimumDates || SameSide(input.missingRatio, missing)
  {
    var recalculated := input.(missingRatio := missing);
    MissingInVerdict(input, recalculated, seedOf, resamples);
    DescriptionIgnoresMissing(input, recalculated, VerdictOf(input, seedOf, resamples));
  }

  lemma DescriptionIgnoresMissing(input: ComparisonInput, recalculated: ComparisonInput, verdict: Verdict)
    requires recalculated == input.(missingRatio := recalculated.missingRatio)
    ensures Describe(recalculated, verdict) == Describe(input, verdict)
  {
  }

  lemma MissingInVerdict(input: ComparisonInput, recalculated: ComparisonInput, seedOf: SeedOf, resamples: nat)
    requires 0 < resamples && recalculated == input.(missingRatio := recalculated.missingRatio)
    ensures VerdictOf(input, seedOf, resamples) == VerdictOf(recalculated, seedOf, resamples) <==>
              |input.group| < 3 || |input.comparison| < 5 || input.dates < MinimumDates
              || SameSide(input.missingRatio, recalculated.missingRatio)
  {
    var seed := Seed(seedOf, input);
    MissingIsOneFact(input, recalculated);
    MissingInDecision(FactsOf(input), recalculated.missingRatio, Drawn(input.group, input.comparison, seed, resamples, WideConfidence),
                      Drawn(input.group, input.comparison, seed, resamples, NarrowConfidence));
  }

  lemma MissingIsOneFact(input: ComparisonInput, recalculated: ComparisonInput)
    requires recalculated == input.(missingRatio := recalculated.missingRatio)
    ensures FactsOf(recalculated) == FactsOf(input).(missingRatio := recalculated.missingRatio)
  {
  }

  lemma MissingInDecision(f: Facts, missing: real, wide: Option<Interval>, narrow: Option<Interval>)
    ensures Decide(f, wide, narrow) == Decide(f.(missingRatio := missing), wide, narrow) <==>
              f.groupCount < 3 || f.comparisonCount < 5 || f.dates < MinimumDates || SameSide(f.missingRatio, missing)
  {
  }

  /** Equal missing counts are enough. */
  lemma SameMissingAgrees(request: Request, c: Candidate, later: Request, d: Candidate, before: (Ids, Ids) -> bool, seedOf: SeedOf, resamples: nat)
    requires 0 < resamples && FingerprintOf(request, c) == FingerprintOf(later, d) && c.missing == d.missing
    requires request.account == later.account && request.metricIsCount == later.metricIsCount
    requires Asymmetric(before)
    requires InOrder(IdsOf(c.group), before) && InOrder(IdsOf(d.group), before) && FixedByIds(c.group, d.group)
    requires InOrder(IdsOf(c.comparison), before) && InOrder(IdsOf(d.comparison), before) && FixedByIds(c.comparison, d.comparison)
    ensures Uncorrected(request, c, seedOf, resamples) == Uncorrected(later, d, seedOf, resamples)
  {
    SameObservations(c.group, d.group, before);
    SameObservations(c.comparison, d.comparison, before);
    ReuseIsExact(request, c, later, d, before, seedOf, resamples);
  }

  /** The missing count is not in the fingerprint, and it can change the result: three posts on three days
      against five, with no post missing and then with eight. */
  lemma MissingCountMatters(request: Request, c: Candidate, seedOf: SeedOf, resamples: nat)
    requires 0 < resamples && |c.group| == 3 && |c.comparison| == 5 && c.missing == 0
    requires DaysOf(c.group) == [0, 1, 2]
    ensures FingerprintOf(request, c) == FingerprintOf(request, c.(missing := 8))
    ensures Uncorrected(request, c, seedOf, resamples) != Uncorrected(request, c.(missing := 8), seedOf, resamples)
  {
    var d := c.(missing := 8);
    ThreeDays(DaysOf(c.group));
    assert MissingRatio(c) == 0.0 && MissingRatio(d) == 0.5;
    InputsDifferInMissing(request, c, request, d);
    OnlyMissingDiffers(InputOf(request, c, None), MissingRatio(d), seedOf, resamples);
  }

  lemma ThreeDays(days: seq<int>)
    requires days == [0, 1, 2]
    ensures IsoWeek.Distinct(days) == 3
  {
    assert (set v | v in days) == {0, 1, 2};
  }
}
