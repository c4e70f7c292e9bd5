/** The comparisons of one request, calculated in two passes with a correction in between. */
module FeatureFamily {
  import opened Options
  import opened OrderStatistics
  import opened Sensitivity
  import opened Bootstrap
  import opened FeatureStatistics
  import IsoWeek
  import BenjaminiHochberg

  datatype Observation = Observation(account: string, post: string, snapshot: nat, analysis: string, day: int, value: real)

  datatype Candidate = Candidate(
    group: seq<Observation>, comparison: seq<Observation>, path: string, value: string, missing: nat)

  /** A request without an account pools every linked account. */
  datatype Request = Request(
    ageWindow: string, candidates: seq<Candidate>, account: Option<string>, metric: string, metricIsCount: bool)

  const FalseDiscoveryRate: real := 0.1
  const MaximumPooledShare: real := 0.7

  // ----- Source dominance -----

  function CountOf(observations: seq<Observation>, account: string): (c: nat)
    ensures c <= |observations|
  {
    if observations == [] then 0
    else CountOf(observations[..|observations| - 1], account)
         + if observations[|observations| - 1].account == account then 1 else 0
  }

  lemma {:induction false} CountedWhenPresent(observations: seq<Observation>, account: string)
    ensures CountOf(observations, account) > 0 <==> exists i | 0 <= i < |observations| :: observations[i].account == account
  {
    if observations != [] {
      var init := observations[..|observations| - 1];
      CountedWhenPresent(init, account);
      assert forall i | 0 <= i < |init| :: init[i] == observations[i];
    }
  }

  /** How often the account occurs in the listing of the observations' accounts. */
  lemma {:induction false} CountsOccurrences(observations: seq<Observation>, accounts: seq<string>, account: string)
    requires |accounts| == |observations| && forall i | 0 <= i < |accounts| :: accounts[i] == observations[i].account
    ensures CountOf(observations, account) == multiset(accounts)[account]
  {
    if observations != [] {
      var n := |observations| - 1;
      CountsOccurrences(observations[..n], accounts[..n], account);
      assert accounts == accounts[..n] + [accounts[n]];
    }
  }

  /** Some account supplies more than the allowed share of the observations. */
  ghost predicate Dominated(observations: seq<Observation>)
  {
    exists account :: CountOf(observations, account) as real > MaximumPooledShare * |observations| as real
  }

  /** The posts each account supplied. */
  method CountSources(observations: seq<Observation>) returns (counts: map<string, nat>)
    ensures forall a :: a in counts <==> CountOf(observations, a) > 0
    ensures forall a | a in counts :: counts[a] == CountOf(observations, a)
  {
    counts := map[];
    for n := 0 to |observations|
      invariant forall a :: a in counts <==> CountOf(observations[..n], a) > 0
      invariant forall a | a in counts :: counts[a] == CountOf(observations[..n], a)
    {
      assert observations[..n + 1][..n] == observations[..n];
      var account := observations[n].account;
      counts := counts[account := (if account in counts then counts[account] else 0) + 1];
    }
    assert observations[..|observations|] == observations;
  }

  method LargestCount(counts: map<string, nat>) returns (most: nat)
    ensures forall a | a in counts :: counts[a] <= most
    ensures counts != map[] ==> exists a :: a in counts && counts[a] == most
  {
    most := 0;
    var left := counts.Keys;
    ghost var top: string := "";
    while left != {}
      invariant left <= counts.Keys
      invariant forall a | a in counts && a !in left :: counts[a] <= most
      invariant most == 0 || (top in counts && counts[top] == most)
      decreases |left|
    {
      var a :| a in left;
      if counts[a] > most { most, top := counts[a], a; }
      left := left - {a};
    }
    if most == 0 && counts != map[] {
      ghost var a :| a in counts.Keys;
      assert counts[a] == most;
    }
  }

  ghost predicate MostFrequent(observations: seq<Observation>, account: string)
  {
    forall other :: CountOf(observations, other) <= CountOf(observations, account)
  }

  /** The share of the account that supplied most. */
  method DominantSourceShare(observations: seq<Observation>) returns (share: real)
    ensures observations == [] ==> share == 0.0
    ensures observations != [] ==>
              exists a :: MostFrequent(observations, a) && share == CountOf(observations, a) as real / |observations| as real
    ensures share > MaximumPooledShare <==> Dominated(observations)
  {
    if observations == [] {
      return 0.0;
    }
    var counts := CountSources(observations);
    var most := LargestCount(counts);
    CountedWhenPresent(observations, observations[0].account);
    assert observations[0].account in counts;
    ghost var a :| a in counts && counts[a] == most;
    assert MostFrequent(observations, a);
    share := most as real / |observations| as real;
    MostDecidesDominance(observations, a, share);
  }

  lemma MostDecidesDominance(observations: seq<Observation>, account: string, share: real)
    requires observations != [] && MostFrequent(observations, account)
    requires share == CountOf(observations, account) as real / |observations| as real
    ensures share > MaximumPooledShare <==> Dominated(observations)
  {
    ShareAbove(CountOf(observations, account) as real, |observations| as real, share, MaximumPooledShare);
    if Dominated(observations) {
      var b :| CountOf(observations, b) as real > MaximumPooledShare * |observations| as real;
    }
  }

  lemma ShareAbove(part: real, whole: real, share: real, bound: real)
    requires whole > 0.0 && share == part / whole
    ensures share > bound <==> part > bound * whole
  {
    assert share * whole == part;
    ScaledOrder(bound, share, whole);
  }

  // ----- One comparison -----

  function MissingRatio(c: Candidate): real
  {
    var eligible := |c.group| + |c.comparison| + c.missing;
    if eligible == 0 then 0.0 else c.missing as real / eligible as real
  }

  function ValuesOf(observations: seq<Observation>): (v: seq<real>)
    ensures |v| == |observations|
  {
    seq(|observations|, i requires 0 <= i < |observations| => observations[i].value)
  }

  function DaysOf(observations: seq<Observation>): (d: seq<int>)
    ensures |d| == |observations|
  {
    seq(|observations|, i requires 0 <= i < |observations| => observations[i].day)
  }

  function KeyOf(request: Request, c: Candidate): string
  {
    c.path + "=" + c.value + "|" + request.metric + "|" + request.ageWindow
  }

  /** What is compared for a candidate; both reservations about sources concern pooled requests only. */
  ghost function InputOf(request: Request, c: Candidate, survives: Option<bool>): ComparisonInput
  {
    var pooled := request.account.None?;
    ComparisonInput(ValuesOf(c.comparison), IsoWeek.Distinct(DaysOf(c.group)), IsoWeek.Distinct(IsoWeek.Texts(DaysOf(c.group))),
                    pooled && (Dominated(c.group) || Dominated(c.comparison)), ValuesOf(c.group), KeyOf(request, c),
                    MissingRatio(c), request.metricIsCount, pooled, survives)
  }

  /** What reaches the statistic: the values of each side in its order, the dates and weeks of the group, the share of
      the eligible posts without the metric; and for pooled requests that the posts are clustered, and whether one
      account supplies more than seven tenths of a side. */
  lemma InputIs(request: Request, c: Candidate, survives: Option<bool>, input: ComparisonInput)
    requires input == InputOf(request, c, survives)
    ensures AreValuesOf(input.group, c.group) && AreValuesOf(input.comparison, c.comparison)
    ensures CountsDays(input.dates, input.weeks, c.group)
    ensures input.missingRatio == ShareOf(c.missing, |c.group| + |c.comparison| + c.missing)
    ensures input.clustered <==> request.account.None?
    ensures input.dominated <==> request.account.None? && (SuppliesMost(c.group) || SuppliesMost(c.comparison))
    ensures input.metricIsCount == request.metricIsCount && input.survives == survives
    ensures input.key == c.path + "=" + c.value + "|" + request.metric + "|" + request.ageWindow
  {
    DatesAndWeeks(c.group);
    DominatedMeans(c.group);
    DominatedMeans(c.comparison);
    ShareWithoutMetric(c);
    ValuesInOrder(c.group);
    ValuesInOrder(c.comparison);
  }

  predicate AreValuesOf(values: seq<real>, observations: seq<Observation>)
  {
    |values| == |observations| && forall i | 0 <= i < |values| :: values[i] == observations[i].value
  }

  predicate AreDaysOf(days: seq<int>, observations: seq<Observation>)
  {
    |days| == |observations| && forall i | 0 <= i < |days| :: days[i] == observations[i].day
  }

  /** The distinct days, and the distinct weeks those days are read into. */
  ghost predicate CountsDays(dates: nat, weeks: nat, observations: seq<Observation>)
  {
    forall days | AreDaysOf(days, observations) ::
      dates == |set d | d in days| && weeks == |set m | m in IsoWeek.Mondays(IsoWeek.ReadAll(days))|
  }

  lemma ValuesInOrder(observations: seq<Observation>)
    ensures AreValuesOf(ValuesOf(observations), observations)
  {
  }

  lemma ShareWithoutMetric(c: Candidate)
    ensures MissingRatio(c) == ShareOf(c.missing, |c.group| + |c.comparison| + c.missing)
  {
  }

  lemma DatesAndWeeks(observations: seq<Observation>)
    ensures CountsDays(IsoWeek.Distinct(DaysOf(observations)), IsoWeek.Distinct(IsoWeek.Texts(DaysOf(observations))), observations)
  {
    IsoWeek.LabelsCountWeeks(DaysOf(observations));
    forall days | AreDaysOf(days, observations) ensures days == DaysOf(observations) { }
  }

  function ShareOf(part: nat, whole: nat): real { if whole == 0 then 0.0 else part as real / whole as real }

  /** Some account supplies more than seven tenths of the observations. */
  ghost predicate SuppliesMost(observations: seq<Observation>)
  {
    exists account :: 10 * CountOf(observations, account) > 7 * |observations|
  }

  lemma DominatedMeans(observations: seq<Observation>)
    ensures Dominated(observations) <==> SuppliesMost(observations)
  {
    if Dominated(observations) {
      var a :| CountOf(observations, a) as real > MaximumPooledShare * |observations| as real;
      assert 10 * CountOf(observations, a) > 7 * |observations|;
    }
    if SuppliesMost(observations) {
      var a :| 10 * CountOf(observations, a) > 7 * |observations|;
      assert CountOf(observations, a) as real > MaximumPooledShare * |observations| as real;
    }
  }

  ghost function Uncorrected(request: Request, c: Candidate, seedOf: SeedOf, resamples: nat): Statistic
    requires 0 < resamples
  {
    StatisticOf(InputOf(request, c, None), seedOf, resamples)
  }

  method Build(request: Request, c: Candidate, survives: Option<bool>, seedOf: SeedOf, resamples: nat) returns (s: Statistic)
    requires 0 < resamples
    ensures s == StatisticOf(InputOf(request, c, survives), seedOf, resamples)
  {
    var dominated := false;
    if request.account.None? {
      var ofGroup := DominantSourceShare(c.group);
      var ofComparison := DominantSourceShare(c.comparison);
      dominated := ofGroup > MaximumPooledShare || ofComparison > MaximumPooledShare;
    }
    var days := DaysOf(c.group);
    var input := ComparisonInput(ValuesOf(c.comparison), IsoWeek.Distinct(days), IsoWeek.Distinct(IsoWeek.Texts(days)),
                                 dominated, ValuesOf(c.group), KeyOf(request, c), MissingRatio(c), request.metricIsCount,
                                 request.account.None?, survives);
    assert input == InputOf(request, c, survives);
    s := CalculateFeatureStatistic(input, seedOf, resamples);
  }

  /** Passing the correction is as good as not having been corrected. */
  lemma SurvivingChangesNothing(input: ComparisonInput, seedOf: SeedOf, resamples: nat)
    requires 0 < resamples && input.survives.None?
    ensures StatisticOf(input.(survives := Some(true)), seedOf, resamples) == StatisticOf(input, seedOf, resamples)
  {
    var corrected := input.(survives := Some(true));
    SurvivingKeepsVerdict(input, corrected, seedOf, resamples);
    DescriptionIgnoresSurvival(input, corrected, VerdictOf(input, seedOf, resamples));
  }

  lemma DescriptionIgnoresSurvival(input: ComparisonInput, corrected: ComparisonInput, verdict: Verdict)
    requires corrected == input.(survives := Some(true))
    ensures Describe(corrected, verdict) == Describe(input, verdict)
  {
  }

  lemma SurvivingKeepsVerdict(input: ComparisonInput, corrected: ComparisonInput, seedOf: SeedOf, resamples: nat)
    requires 0 < resamples && input.survives.None? && corrected == input.(survives := Some(true))
    ensures VerdictOf(corrected, seedOf, resamples) == VerdictOf(input, seedOf, resamples)
  {
    var seed := Seed(seedOf, input);
    SurvivalIsOneFact(input, corrected);
    DecisionIgnoresSurvival(FactsOf(input), Drawn(input.group, input.comparison, seed, resamples, WideConfidence),
                            Drawn(input.group, input.comparison, seed, resamples, NarrowConfidence));
  }

  lemma SurvivalIsOneFact(input: ComparisonInput, corrected: ComparisonInput)
    requires corrected == input.(survives := Some(true))
    ensures FactsOf(corrected) == FactsOf(input).(survives := Some(true))
  {
  }

  lemma SurvivorKeepsResult(request: Request, c: Candidate, seedOf: SeedOf, resamples: nat)
    requires 0 < resamples
    ensures StatisticOf(InputOf(request, c, Some(true)), seedOf, resamples) == Uncorrected(request, c, seedOf, resamples)
  {
    var input := InputOf(request, c, None);
    assert InputOf(request, c, Some(true)) == input.(survives := Some(true));
    SurvivingChangesNothing(input, seedOf, resamples);
  }

  lemma DecisionIgnoresSurvival(f: Facts, wide: Option<Interval>, narrow: Option<Interval>)
    requires f.survives.None?
    ensures Decide(f.(survives := Some(true)), wide, narrow) == Decide(f, wide, narrow)
  {
  }

  // ----- The family -----

  /** The value a comparison is ranked by. */
  function RankingValue(interval: Option<Interval>): real
  {
    if !Excludes(interval) then 1.0
    else
      var i := interval.value;
      var distance, width := Min(Abs(i.lower), Abs(i.upper)), Abs(i.upper - i.lower);
      if width == 0.0 then (if distance > 0.0 then 0.0 else 1.0) else 0.05 / (1.0 + distance / width)
  }

  predicate WellFormed(i: Interval) { i == Between(i.lower, i.upper) }

  /** An interval that excludes zero ranks at 0.05 or below. */
  lemma ExcludingRanksLow(interval: Option<Interval>)
    requires Excludes(interval) && WellFormed(interval.value)
    ensures 0.0 <= RankingValue(interval) <= 0.05
  {
    var i := interval.value;
    var distance, width := Min(Abs(i.lower), Abs(i.upper)), Abs(i.upper - i.lower);
    assert distance > 0.0;
    if width != 0.0 {
      var q := distance / width;
      assert q * width == distance;
      ScaledOrder(q, 0.0, width);
      ReciprocalAtMost(1.0 + q);
    }
  }

  lemma ReciprocalAtMost(x: real)
    requires x >= 1.0
    ensures 0.0 <= 0.05 / x <= 0.05
  {
    var r := 0.05 / x;
    assert r * x == 0.05;
    ScaledOrder(r, 0.0, x);
    ScaledOrder(0.05, r, x);
  }

  /** An interval away from zero by `distance` and of a positive width ranks at 0.05 times the share of its width in
      both together; one of no width ranks first. */
  lemma RankingExactly(interval: Interval, distance: real, width: real)
    requires interval.excludesNoDifference && WellFormed(interval) && interval.lower <= interval.upper
    requires width == interval.upper - interval.lower && distance == (if interval.lower > 0.0 then interval.lower else -interval.upper)
    ensures distance > 0.0
    ensures width == 0.0 ==> RankingValue(Some(interval)) == 0.0
    ensures width > 0.0 ==> RankingValue(Some(interval)) == 0.05 / (1.0 + distance / width)
  {
  }

  /** Further from zero at the same width ranks no later. */
  lemma FurtherRanksFirst(near: real, far: real, width: real)
    requires 0.0 < near <= far && width > 0.0
    ensures 0.05 / (1.0 + far / width) <= 0.05 / (1.0 + near / width)
  {
    var p, q := near / width, far / width;
    assert p * width == near && q * width == far;
    ScaledOrder(q, p, width);
    ScaledOrder(p, 0.0, width);
    SmallerQuotient(1.0 + p, 1.0 + q);
  }

  lemma SmallerQuotient(x: real, y: real)
    requires 1.0 <= x <= y
    ensures 0.05 / y <= 0.05 / x
  {
    var a, b := 0.05 / x, 0.05 / y;
    assert a * x == 0.05 && b * y == 0.05;
    ReciprocalAtMost(x);
    ProductNonNegative(a, y - x);
    assert a * y >= b * y by {
      assert a * (y - x) == a * y - a * x;
    }
    ScaledOrder(a, b, y);
  }

  /** A supported comparison ranks low. */
  lemma SupportedRanksLow(input: ComparisonInput, seedOf: SeedOf, resamples: nat)
    requires 0 < resamples && VerdictOf(input, seedOf, resamples).confidence.StatisticallySupportedAssociation?
    ensures 0.0 <= RankingValue(VerdictOf(input, seedOf, resamples).interval) <= 0.05
  {
    var seed := Seed(seedOf, input);
    var wide := Drawn(input.group, input.comparison, seed, resamples, WideConfidence);
    SupportedInterval(FactsOf(input), wide, Drawn(input.group, input.comparison, seed, resamples, NarrowConfidence));
    ExcludingRanksLow(wide);
  }

  lemma SupportedInterval(f: Facts, wide: Option<Interval>, narrow: Option<Interval>)
    requires Decide(f, wide, narrow).confidence.StatisticallySupportedAssociation?
    ensures Decide(f, wide, narrow).interval == wide && Excludes(wide)
  {
  }

  predicate IsSupported(s: Statistic) { s.verdict.confidence.StatisticallySupportedAssociation? }

  /** `alone` gives what each candidate of the request comes to by itself. */
  ghost predicate Gives(alone: Candidate -> Statistic, request: Request, seedOf: SeedOf, resamples: nat)
    requires 0 < resamples
  {
    forall c {:trigger Uncorrected(request, c, seedOf, resamples)} :: alone(c) == Uncorrected(request, c, seedOf, resamples)
  }

  method BuildAlone(request: Request, c: Candidate, seedOf: SeedOf, resamples: nat, ghost alone: Candidate -> Statistic)
    returns (s: Statistic)
    requires 0 < resamples && Gives(alone, request, seedOf, resamples)
    ensures s == alone(c)
  {
    s := Build(request, c, None, seedOf, resamples);
    assert s == Uncorrected(request, c, seedOf, resamples);
  }

  method FirstPass(request: Request, seedOf: SeedOf, resamples: nat, ghost alone: Candidate -> Statistic)
    returns (pass: seq<Statistic>)
    requires 0 < resamples && Gives(alone, request, seedOf, resamples)
    ensures |pass| == |request.candidates| && forall i | 0 <= i < |pass| :: pass[i] == alone(request.candidates[i])
  {
    pass := [];
    for i := 0 to |request.candidates|
      invariant |pass| == i && forall k | 0 <= k < i :: pass[k] == alone(request.candidates[k])
    {
      var s := BuildAlone(request, request.candidates[i], seedOf, resamples, alone);
      pass := pass + [s];
    }
  }

  /** The positions of the supported comparisons, and what they are ranked by. */
  method RankFamily(pass: seq<Statistic>) returns (indexes: seq<nat>, ranking: seq<real>)
    ensures |ranking| == |indexes|
    ensures forall k | 0 <= k < |indexes| :: indexes[k] < |pass| && IsSupported(pass[indexes[k]])
    ensures forall k | 0 <= k < |indexes| :: ranking[k] == RankingValue(pass[indexes[k]].verdict.interval)
    ensures forall i | 0 <= i < |pass| && IsSupported(pass[i]) :: i in indexes
  {
    indexes, ranking := [], [];
    for i := 0 to |pass|
      invariant |ranking| == |indexes|
      invariant forall k | 0 <= k < |indexes| :: indexes[k] < i && IsSupported(pass[indexes[k]])
      invariant forall k | 0 <= k < |indexes| :: ranking[k] == RankingValue(pass[indexes[k]].verdict.interval)
      invariant forall j | 0 <= j < i && IsSupported(pass[j]) :: j in indexes
    {
      if IsSupported(pass[i]) {
        indexes := indexes + [i];
        ranking := ranking + [RankingValue(pass[i].verdict.interval)];
      }
    }
  }

  method CollectVerdicts(indexes: seq<nat>, survives: seq<bool>) returns (verdicts: map<nat, bool>)
    requires |survives| == |indexes|
    ensures forall i :: i in verdicts <==> i in indexes
    ensures forall i | i in verdicts :: exists k | 0 <= k < |indexes| :: indexes[k] == i && verdicts[i] == survives[k]
  {
    verdicts := map[];
    for k := 0 to |indexes|
      invariant forall i :: i in verdicts <==> i in indexes[..k]
      invariant forall i | i in verdicts :: exists j | 0 <= j < k :: indexes[j] == i && verdicts[i] == survives[j]
    {
      assert indexes[..k + 1] == indexes[..k] + [indexes[k]];
      verdicts := verdicts[indexes[k] := survives[k]];
    }
    assert indexes[..|indexes|] == indexes;
  }

  lemma MemberRanksLow(request: Request, c: Candidate, seedOf: SeedOf, resamples: nat, alone: Candidate -> Statistic)
    requires 0 < resamples && Gives(alone, request, seedOf, resamples) && IsSupported(alone(c))
    ensures RankingValue(alone(c).verdict.interval) <= 0.05
  {
    assert alone(c) == Uncorrected(request, c, seedOf, resamples);
    SupportedRanksLow(InputOf(request, c, None), seedOf, resamples);
  }

  /** The correction, as the family applies it: every supported comparison survives. */
  method CorrectFamily(request: Request, pass: seq<Statistic>, seedOf: SeedOf, resamples: nat, ghost alone: Candidate -> Statistic)
    returns (verdicts: map<nat, bool>)
    requires 0 < resamples && Gives(alone, request, seedOf, resamples)
    requires |pass| == |request.candidates| && forall i | 0 <= i < |pass| :: pass[i] == alone(request.candidates[i])
    ensures forall i: nat :: i in verdicts <==> i < |pass| && IsSupported(pass[i])
    ensures forall i | i in verdicts :: verdicts[i]
  {
    var indexes, ranking := RankFamily(pass);
    forall k | 0 <= k < |ranking| ensures ranking[k] <= FalseDiscoveryRate {
      MemberRanksLow(request, request.candidates[indexes[k]], seedOf, resamples, alone);
    }
    var survives := BenjaminiHochberg.StepUp(ranking, FalseDiscoveryRate);
    BenjaminiHochberg.MeaningfulNeverStraddles(ranking, FalseDiscoveryRate);
    forall k | 0 <= k < |ranking| ensures survives[k] {
      BenjaminiHochberg.AllWithinRateSurvive(ranking, FalseDiscoveryRate, k);
    }
    verdicts := CollectVerdicts(indexes, survives);
  }

  /** The second pass for one candidate: calculated again with its verdict, if it has one. */
  method Revise(request: Request, c: Candidate, first: Statistic, verdict: Option<bool>, seedOf: SeedOf, resamples: nat,
                ghost alone: Candidate -> Statistic)
    returns (s: Statistic)
    requires 0 < resamples && Gives(alone, request, seedOf, resamples) && first == alone(c)
    requires verdict.Some? ==> verdict.value
    ensures s == first
  {
    s := first;
    if verdict.Some? {
      assert verdict == Some(true);
      SurvivorKeepsResult(request, c, seedOf, resamples);
      s := Build(request, c, verdict, seedOf, resamples);
    }
  }

  method SecondPass(request: Request, firstPass: seq<Statistic>, verdicts: map<nat, bool>, seedOf: SeedOf, resamples: nat,
                    ghost alone: Candidate -> Statistic)
    returns (statistics: seq<Statistic>)
    requires 0 < resamples && Gives(alone, request, seedOf, resamples) && forall i | i in verdicts :: verdicts[i]
    requires |firstPass| == |request.candidates| && forall i | 0 <= i < |firstPass| :: firstPass[i] == alone(request.candidates[i])
    ensures statistics == firstPass
  {
    statistics := [];
    for i := 0 to |request.candidates|
      invariant |statistics| == i && forall k | 0 <= k < i :: statistics[k] == firstPass[k]
    {
      var verdict := if i in verdicts then Some(verdicts[i]) else None;
      var s := Revise(request, request.candidates[i], firstPass[i], verdict, seedOf, resamples, alone);
      statistics := statistics + [s];
    }
  }

  /** Both passes. Every comparison keeps its first result, so each is what it would be on its own; and a
      pooled family supports nothing. */
  method CalculateFeatureFamily(request: Request, seedOf: SeedOf, resamples: nat) returns (statistics: seq<Statistic>)
    requires 0 < resamples
    ensures |statistics| == |request.candidates|
    ensures forall i | 0 <= i < |statistics| :: statistics[i] == Uncorrected(request, request.candidates[i], seedOf, resamples)
    ensures request.account.None? ==> forall i | 0 <= i < |statistics| :: !IsSupported(statistics[i])
  {
    ghost var alone := (c: Candidate) => Uncorrected(request, c, seedOf, resamples);
    var firstPass := FirstPass(request, seedOf, resamples, alone);
    var verdicts := CorrectFamily(request, firstPass, seedOf, resamples, alone);
    statistics := SecondPass(request, firstPass, verdicts, seedOf, resamples, alone);
    forall i | 0 <= i < |statistics| && request.account.None? ensures !IsSupported(statistics[i]) {
      PooledIsNeverSupported(request, request.candidates[i], seedOf, resamples);
    }
  }

  lemma PooledIsNeverSupported(request: Request, c: Candidate, seedOf: SeedOf, resamples: nat)
    requires 0 < resamples && request.account.None?
    ensures !IsSupported(Uncorrected(request, c, seedOf, resamples))
  {
    SupportedExactly(InputOf(request, c, None), seedOf, resamples);
  }

  /** One candidate's result does not depend on which others were asked about. */
  lemma CandidatesAreIndependent(request: Request, others: seq<Candidate>, c: Candidate, seedOf: SeedOf, resamples: nat)
    requires 0 < resamples
    ensures Uncorrected(request.(candidates := others), c, seedOf, resamples) == Uncorrected(request, c, seedOf, resamples)
  {
    assert InputOf(request.(candidates := others), c, None) == InputOf(request, c, None);
  }
}
