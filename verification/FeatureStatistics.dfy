/** Classifying one feature comparison: an ordered chain of checks over the statistics of both sides. */
module FeatureStatistics {
  import opened Options
  import opened OrderStatistics
  import opened Sensitivity
  import opened Bootstrap
  import opened TopContributor

  datatype ConfidenceClass =
    | InsufficientEvidence
    | SinglePostOutlier
    | WeakDirectionalSignal
    | ModerateAssociation
    | StatisticallySupportedAssociation

  datatype Reason =
    | BelowMinimumSamples
    | EffectBelowThreshold
    | FewPublicationDates
    | IntervalIgnoresClustering
    | IntervalIncludesNoDifference
    | MeetsModerateThresholds
    | MeetsSupportedThresholds
    | MissingnessTooHigh
    | MultipleTestingRejected
    | OneSourceDominatesSample
    | SensitivityChangesMateriality
    | SingleEligiblePost
    | TopPostDominatesTotal

  const PracticalEffect: real := 0.1
  const MinimumDates: nat := 3
  const MaximumMissing: real := 0.4
  const WideConfidence: real := 0.95
  const NarrowConfidence: real := 0.8

  datatype ComparisonInput = ComparisonInput(
    comparison: seq<real>, dates: nat, weeks: nat, dominated: bool, group: seq<real>, key: string,
    missingRatio: real, metricIsCount: bool, clustered: bool, survives: Option<bool>)

  /** `drawnAt` is the level its interval was drawn at, which the program does not keep. */
  datatype Verdict = Verdict(confidence: ConfidenceClass, reason: Reason, interval: Option<Interval>, drawnAt: Option<real>)

  function Settled(confidence: ConfidenceClass, reason: Reason): Verdict { Verdict(confidence, reason, None, None) }

  datatype Statistic = Statistic(
    verdict: Verdict, comparisonCount: nat, comparisonSpread: Spread, differenceOfMedians: Option<real>,
    groupCount: nat, groupSpread: Spread, relativeEffect: Option<real>, sensitivity: SensitivityResult,
    topContributorShare: Option<real>)

  /** What the chain of checks looks at before any interval. */
  datatype Facts = Facts(
    groupCount: nat, comparisonCount: nat, dates: nat, weeks: nat, missingRatio: real, share: Option<real>,
    sensitivity: SensitivityResult, effect: Option<real>, dominated: bool, clustered: bool, survives: Option<bool>)

  predicate Excludes(interval: Option<Interval>) { interval.Some? && interval.value.excludesNoDifference }

  predicate SupportedSamples(f: Facts) { f.groupCount >= 12 && f.comparisonCount >= 24 && f.weeks >= 6 }

  predicate ModerateSamples(f: Facts)
  {
    f.groupCount >= 8 && f.comparisonCount >= 12 && f.groupCount + f.comparisonCount >= 20
  }

  predicate KeepsHalfEffect(f: Facts)
  {
    f.sensitivity.minimumRelativeEffect.Some? && f.sensitivity.minimumRelativeEffect.value >= PracticalEffect / 2.0
  }

  /** The checks that settle a comparison before an interval is drawn. */
  function Screen(f: Facts): Option<Verdict>
  {
    if f.groupCount == 1 then Some(Settled(SinglePostOutlier, SingleEligiblePost))
    else if f.groupCount < 3 || f.comparisonCount < 5 then Some(Settled(InsufficientEvidence, BelowMinimumSamples))
    else if f.dates < MinimumDates then Some(Settled(InsufficientEvidence, FewPublicationDates))
    else if f.missingRatio > MaximumMissing then Some(Settled(InsufficientEvidence, MissingnessTooHigh))
    else if f.share.Some? && f.share.value > 0.5 then Some(Settled(SinglePostOutlier, TopPostDominatesTotal))
    else if !f.sensitivity.preservesDirection then Some(Settled(SinglePostOutlier, SensitivityChangesMateriality))
    else if f.effect.None? || Abs(f.effect.value) < PracticalEffect then Some(Settled(WeakDirectionalSignal, EffectBelowThreshold))
    else if f.dominated then Some(Settled(WeakDirectionalSignal, OneSourceDominatesSample))
    else None
  }

  /** The class of a comparison with supported samples whose wide interval excludes zero. */
  function GradeSupported(f: Facts, wide: Option<Interval>): Verdict
  {
    if f.clustered then Verdict(ModerateAssociation, IntervalIgnoresClustering, wide, Some(WideConfidence))
    else if f.survives == Some(false) then Verdict(ModerateAssociation, MultipleTestingRejected, wide, Some(WideConfidence))
    else if KeepsHalfEffect(f) && f.sensitivity.removeBestWorstPreservesDirection != Some(false)
    then Verdict(StatisticallySupportedAssociation, MeetsSupportedThresholds, wide, Some(WideConfidence))
    else Verdict(ModerateAssociation, SensitivityChangesMateriality, wide, Some(WideConfidence))
  }

  function GradeModerate(f: Facts, narrow: Option<Interval>): Verdict
  {
    if ModerateSamples(f) && Excludes(narrow) then Verdict(ModerateAssociation, MeetsModerateThresholds, narrow, Some(NarrowConfidence))
    else
      Verdict(WeakDirectionalSignal,
              if narrow.Some? && !narrow.value.excludesNoDifference then IntervalIncludesNoDifference else BelowMinimumSamples,
              narrow, Some(NarrowConfidence))
  }

  function Decide(f: Facts, wide: Option<Interval>, narrow: Option<Interval>): Verdict
  {
    if Screen(f).Some? then Screen(f).value
    else if SupportedSamples(f) && Excludes(wide) then GradeSupported(f, wide)
    else GradeModerate(f, narrow)
  }

  // ----- The statistic of two sides of values -----

  type SeedOf = (string, multiset<real>, multiset<real>) -> bv32

  function FactsOf(input: ComparisonInput): Facts
  {
    Facts(|input.group|, |input.comparison|, input.dates, input.weeks, input.missingRatio, ShareOf(input),
          ClosedForm(input.group, input.comparison), EffectOf(input), input.dominated, input.clustered, input.survives)
  }

  function ShareOf(input: ComparisonInput): Option<real>
  {
    if input.metricIsCount then TopContributorShare(input.group) else None
  }

  function EffectBetween(g: Option<real>, c: Option<real>): Option<real>
  {
    if g.None? || c.None? then None else RelativeEffect(g.value, c.value)
  }

  function DifferenceBetween(g: Option<real>, c: Option<real>): Option<real>
  {
    if g.None? || c.None? then None else Some(g.value - c.value)
  }

  function EffectOf(input: ComparisonInput): Option<real> { EffectBetween(Median(input.group), Median(input.comparison)) }

  function DifferenceOfMedians(input: ComparisonInput): Option<real>
  {
    DifferenceBetween(Median(input.group), Median(input.comparison))
  }

  /** The seed sees the values of both sides and not their order. */
  function Seed(seedOf: SeedOf, input: ComparisonInput): bv32
  {
    seedOf(input.key, multiset(input.group), multiset(input.comparison))
  }

  /** Two comparisons are seeded alike by every seeding exactly when they have the same key and the same values on
      each side. */
  lemma SeedSeesExactly(a: ComparisonInput, b: ComparisonInput)
    ensures (forall seedOf: SeedOf :: Seed(seedOf, a) == Seed(seedOf, b)) <==>
              a.key == b.key && multiset(a.group) == multiset(b.group) && multiset(a.comparison) == multiset(b.comparison)
  {
    if !(a.key == b.key && multiset(a.group) == multiset(b.group) && multiset(a.comparison) == multiset(b.comparison)) {
      var apart: SeedOf := (k: string, g: multiset<real>, c: multiset<real>) =>
        if k == a.key && g == multiset(a.group) && c == multiset(a.comparison) then 1 as bv32 else 0;
      assert Seed(apart, a) != Seed(apart, b);
    }
  }

  /** The interval the bootstrap draws for a comparison at a confidence. */
  ghost function Drawn(group: seq<real>, comparison: seq<real>, seed: bv32, resamples: nat, confidence: real): (i: Option<Interval>)
    requires 0 < resamples && 0.0 <= confidence <= 1.0
    ensures i.None? <==> group == [] || comparison == []
  {
    if group == [] || comparison == [] then None
    else
      DrawsInUnit(seed);
      Some(IntervalOf(Differences(Draws(seed), resamples, group, comparison), confidence))
  }

  ghost function VerdictOf(input: ComparisonInput, seedOf: SeedOf, resamples: nat): Verdict
    requires 0 < resamples
  {
    var seed := Seed(seedOf, input);
    Decide(FactsOf(input), Drawn(input.group, input.comparison, seed, resamples, WideConfidence), Drawn(input.group, input.comparison, seed, resamples, NarrowConfidence))
  }

  function Describe(input: ComparisonInput, verdict: Verdict): Statistic
  {
    Statistic(verdict, |input.comparison|, SummariseSpread(input.comparison), DifferenceOfMedians(input), |input.group|,
              SummariseSpread(input.group), EffectOf(input), ClosedForm(input.group, input.comparison), ShareOf(input))
  }

  ghost function StatisticOf(input: ComparisonInput, seedOf: SeedOf, resamples: nat): Statistic
    requires 0 < resamples
  {
    Describe(input, VerdictOf(input, seedOf, resamples))
  }

  /** Describes both sides, then classifies. */
  method CalculateFeatureStatistic(input: ComparisonInput, seedOf: SeedOf, resamples: nat) returns (s: Statistic)
    requires 0 < resamples
    ensures s == StatisticOf(input, seedOf, resamples)
  {
    var share := if input.metricIsCount then TopContributorShare(input.group) else None;
    var sensitivity := EvaluateSensitivity(input.comparison, input.group);
    var effect, difference := Contrast(input);
    var facts := Facts(|input.group|, |input.comparison|, input.dates, input.weeks, input.missingRatio, share, sensitivity,
                       effect, input.dominated, input.clustered, input.survives);
    var verdict := Classify(input, facts, Seed(seedOf, input), resamples);
    return Statistic(verdict, |input.comparison|, SummariseSpread(input.comparison), difference, |input.group|,
                     SummariseSpread(input.group), effect, sensitivity, share);
  }

  lemma SpreadMedian(values: seq<real>)
    ensures SummariseSpread(values).median == Median(values)
  {
    MedianIsHalfPercentile(values);
  }

  /** The difference and the relative effect of the medians that the spreads report. */
  method Contrast(input: ComparisonInput) returns (effect: Option<real>, difference: Option<real>)
    ensures effect == EffectOf(input) && difference == DifferenceOfMedians(input)
  {
    var g, c := SummariseSpread(input.group).median, SummariseSpread(input.comparison).median;
    SpreadMedian(input.group);
    SpreadMedian(input.comparison);
    difference := DifferenceBetween(g, c);
    effect := EffectBetween(g, c);
  }

  /** The size of a difference relative to the comparison's median: none when that is zero, otherwise with the sign of
      the difference. */
  predicate IsEffect(e: Option<real>, g: real, c: real)
  {
    (e.None? <==> c == 0.0) && (e.Some? ==> Sign(e.value) == Sign(g - c) && e.value * Abs(c) == g - c)
  }

  lemma EffectIsEffect(g: real, c: real)
    ensures IsEffect(RelativeEffect(g, c), g, c)
  {
    if c != 0.0 { EffectMeans(g, c); }
  }

  /** What is reported beside the class: counts, spreads, the difference of the medians and its relative size. */
  lemma DescribesBothSides(input: ComparisonInput, verdict: Verdict, g: real, c: real)
    requires Median(input.group) == Some(g) && Median(input.comparison) == Some(c)
    ensures var d := Describe(input, verdict);
            && d.verdict == verdict && d.groupCount == |input.group| && d.comparisonCount == |input.comparison|
            && d.groupSpread.median == Some(g) && d.comparisonSpread.median == Some(c)
            && d.groupSpread == SummariseSpread(input.group) && d.comparisonSpread == SummariseSpread(input.comparison)
            && d.differenceOfMedians == Some(g - c) && d.relativeEffect == RelativeEffect(g, c)
            && d.topContributorShare == (if input.metricIsCount then TopContributorShare(input.group) else None)
            && d.sensitivity == ClosedForm(input.group, input.comparison)
  {
    SpreadMedian(input.group);
    SpreadMedian(input.comparison);
  }

  /** Runs the checks in their order and draws an interval only when a check needs it. */
  method Classify(input: ComparisonInput, f: Facts, seed: bv32, resamples: nat) returns (v: Verdict)
    requires 0 < resamples
    ensures v == Decide(f, Drawn(input.group, input.comparison, seed, resamples, WideConfidence), Drawn(input.group, input.comparison, seed, resamples, NarrowConfidence))
  {
    var screened := Screen(f);
    if screened.Some? {
      return screened.value;
    }
    var wide := Draw(input, seed, resamples, WideConfidence);
    if SupportedSamples(f) && Excludes(wide) {
      return GradeSupported(f, wide);
    }
    var narrow := Draw(input, seed, resamples, NarrowConfidence);
    return GradeModerate(f, narrow);
  }

  method Draw(input: ComparisonInput, seed: bv32, resamples: nat, confidence: real) returns (interval: Option<Interval>)
    requires 0 < resamples && 0.0 <= confidence <= 1.0
    ensures interval == Drawn(input.group, input.comparison, seed, resamples, confidence)
  {
    interval := BootstrapMedianDifference(input.group, input.comparison, confidence, seed, resamples);
  }

  // ----- What each class means -----

  predicate TooLittle(f: Facts)
  {
    f.groupCount < 3 || f.comparisonCount < 5 || f.dates < 3 || f.missingRatio > 0.4
  }

  predicate OnePostCarries(f: Facts)
  {
    (f.share.Some? && f.share.value > 0.5) || !f.sensitivity.preservesDirection
  }

  predicate Material(f: Facts) { f.effect.Some? && (f.effect.value >= 0.1 || f.effect.value <= -0.1) && !f.dominated }

  predicate Nested(wide: Option<Interval>, narrow: Option<Interval>) { Excludes(wide) ==> Excludes(narrow) }

  predicate Moderate(f: Facts, narrow: Option<Interval>)
  {
    !TooLittle(f) && !OnePostCarries(f) && Material(f) && f.groupCount >= 8 && f.comparisonCount >= 12 && Excludes(narrow)
  }

  /** Enough data, a material effect, and no post that carries it. */
  predicate Gradable(f: Facts) { !TooLittle(f) && !OnePostCarries(f) && Material(f) }

  predicate Large(f: Facts) { f.groupCount >= 12 && f.comparisonCount >= 24 && f.weeks >= 6 }

  /** Half of the practical effect remains without any one post. */
  predicate Steady(f: Facts)
  {
    && f.sensitivity.minimumRelativeEffect.Some? && f.sensitivity.minimumRelativeEffect.value >= 0.05
    && f.sensitivity.removeBestWorstPreservesDirection != Some(false)
  }

  predicate Supported(f: Facts, wide: Option<Interval>)
  {
    && Gradable(f) && Large(f) && Excludes(wide) && !f.clustered && f.survives != Some(false) && Steady(f)
  }

  /** Each class holds exactly under its own conditions, whatever the order of the checks. */
  lemma ClassesExactly(f: Facts, wide: Option<Interval>, narrow: Option<Interval>)
    requires Nested(wide, narrow)
    ensures var c := Decide(f, wide, narrow).confidence;
            && (c.InsufficientEvidence? <==> f.groupCount != 1 && TooLittle(f))
            && (c.SinglePostOutlier? <==> f.groupCount == 1 || (!TooLittle(f) && OnePostCarries(f)))
            && (c.ModerateAssociation? || c.StatisticallySupportedAssociation? <==> Moderate(f, narrow))
            && (c.StatisticallySupportedAssociation? <==> Supported(f, wide))
  {
  }

  /** Each reason is given exactly under its own conditions. */
  lemma ReasonsExactly(f: Facts, wide: Option<Interval>, narrow: Option<Interval>)
    requires narrow.Some?
    ensures var reason, enough, wideEnough := Decide(f, wide, narrow).reason, f.groupCount >= 3 && f.comparisonCount >= 5, Large(f) && Excludes(wide);
            && (reason == SingleEligiblePost <==> f.groupCount == 1)
            && (reason == FewPublicationDates <==> enough && f.dates < 3)
            && (reason == MissingnessTooHigh <==> enough && f.dates >= 3 && f.missingRatio > 0.4)
            && (reason == TopPostDominatesTotal <==> !TooLittle(f) && f.share.Some? && f.share.value > 0.5)
            && (reason == SensitivityChangesMateriality <==>
                (!TooLittle(f) && !(f.share.Some? && f.share.value > 0.5) && !f.sensitivity.preservesDirection)
                || (Gradable(f) && wideEnough && !f.clustered && f.survives != Some(false) && !Steady(f)))
            && (reason == EffectBelowThreshold <==>
                !TooLittle(f) && !OnePostCarries(f) && (f.effect.None? || (-0.1 < f.effect.value < 0.1)))
            && (reason == OneSourceDominatesSample <==>
                !TooLittle(f) && !OnePostCarries(f) && f.effect.Some? && !(-0.1 < f.effect.value < 0.1) && f.dominated)
            && (reason == IntervalIgnoresClustering <==> Gradable(f) && wideEnough && f.clustered)
            && (reason == MultipleTestingRejected <==> Gradable(f) && wideEnough && !f.clustered && f.survives == Some(false))
            && (reason == MeetsSupportedThresholds <==> Supported(f, wide))
            && (reason == MeetsModerateThresholds <==>
                Gradable(f) && !wideEnough && f.groupCount >= 8 && f.comparisonCount >= 12 && Excludes(narrow))
            && (reason == IntervalIncludesNoDifference <==> Gradable(f) && !wideEnough && !Excludes(narrow))
            && (reason == BelowMinimumSamples <==>
                (f.groupCount != 1 && !enough)
                || (Gradable(f) && !wideEnough && !(f.groupCount >= 8 && f.comparisonCount >= 12) && Excludes(narrow)))
  {
  }

  /** At one seed the 80% interval lies in the 95% one and excludes zero when that does. */
  lemma DrawnNest(input: ComparisonInput, seed: bv32, resamples: nat)
    requires 0 < resamples
    ensures var wide, narrow := Drawn(input.group, input.comparison, seed, resamples, WideConfidence), Drawn(input.group, input.comparison, seed, resamples, NarrowConfidence);
            && Nested(wide, narrow)
            && (wide.Some? ==> narrow.Some? && Contains(wide.value, narrow.value, wide.value.lower, wide.value.upper))
  {
    if input.group != [] && input.comparison != [] {
      DrawsInUnit(seed);
      IntervalsNest(Differences(Draws(seed), resamples, input.group, input.comparison), NarrowConfidence, WideConfidence);
    }
  }

  /** The interval says by how much the group exceeds the comparison: it lies between the extreme differences of the
      values, so it excludes zero on the right side when one side's values all exceed the other's. */
  lemma DrawnInRange(group: seq<real>, comparison: seq<real>, seed: bv32, resamples: nat, confidence: real, low: real, high: real)
    requires 0 < resamples && 0.0 <= confidence <= 1.0 && group != [] && comparison != []
    requires forall i, j | 0 <= i < |group| && 0 <= j < |comparison| :: low <= group[i] - comparison[j] <= high
    ensures var i := Drawn(group, comparison, seed, resamples, confidence);
            i.Some? && low <= i.value.lower <= i.value.upper <= high && (low > 0.0 || high < 0.0 ==> Excludes(i))
  {
    DrawsInUnit(seed);
    var g, c := Sort(group), Sort(comparison);
    var n, m := |g| - 1, |c| - 1;
    ExtremesBound(group);
    ExtremesBound(comparison);
    IntervalInRange(Draws(seed), resamples, confidence, group, comparison, g[0], g[n], c[0], c[m]);
    DifferenceOfExtremes(group, comparison, g[0], c[m], low, high);
    DifferenceOfExtremes(group, comparison, g[n], c[0], low, high);
  }

  lemma ExtremesBound(values: seq<real>)
    requires values != []
    ensures forall i | 0 <= i < |values| :: Sort(values)[0] <= values[i] <= Sort(values)[|values| - 1]
    ensures Sort(values)[0] in values && Sort(values)[|values| - 1] in values
  {
    var s := Sort(values);
    forall i | 0 <= i < |values| ensures s[0] <= values[i] <= s[|values| - 1] {
      SameMembers(s, values, values[i]);
      var k :| 0 <= k < |s| && s[k] == values[i];
    }
    SameMembers(s, values, s[0]);
    SameMembers(s, values, s[|values| - 1]);
  }

  lemma DifferenceOfExtremes(group: seq<real>, comparison: seq<real>, g: real, c: real, low: real, high: real)
    requires g in group && c in comparison
    requires forall i, j | 0 <= i < |group| && 0 <= j < |comparison| :: low <= group[i] - comparison[j] <= high
    ensures low <= g - c <= high
  {
    var i :| 0 <= i < |group| && group[i] == g;
    var j :| 0 <= j < |comparison| && comparison[j] == c;
    assert low <= group[i] - comparison[j] <= high;
  }

  // ----- The same on the values of both sides -----

  /** Too few posts or dates, or too many posts without the metric. */
  predicate TooLittleData(input: ComparisonInput)
  {
    |input.group| < 3 || |input.comparison| < 5 || input.dates < 3 || input.missingRatio > 0.4
  }

  /** One post supplies more than all the others together, or without some post the group changes its side. */
  ghost predicate CarriedByOnePost(input: ComparisonInput)
    requires |input.group| >= 2 && input.comparison != []
  {
    (input.metricIsCount && OneOutweighsTheRest(input.group)) || !KeepsSide(input.group, input.comparison)
  }

  predicate OnSide(medians: seq<real>, c: real, sign: int) { forall i | 0 <= i < |medians| :: Sign(medians[i] - c) == sign }

  ghost predicate KeepsSide(group: seq<real>, comparison: seq<real>)
    requires |group| >= 2 && comparison != []
  {
    var g, c := Median(group).value, Median(comparison).value;
    OnSide(Refits(group), c, Sign(g - c))
  }

  /** The medians differ by at least a tenth of the comparison's, and no source dominates. */
  predicate MaterialDifference(input: ComparisonInput)
    requires input.group != [] && input.comparison != []
  {
    var g, c := Median(input.group).value, Median(input.comparison).value;
    c != 0.0 && (g - c >= 0.1 * Abs(c) || c - g >= 0.1 * Abs(c)) && !input.dominated
  }

  ghost predicate GradableData(input: ComparisonInput)
  {
    !TooLittleData(input) && !CarriedByOnePost(input) && MaterialDifference(input)
  }

  lemma CarriesExactly(input: ComparisonInput)
    requires |input.group| >= 2 && input.comparison != []
    ensures OnePostCarries(FactsOf(input)) <==> CarriedByOnePost(input)
  {
    ShareAboveHalf(input.group);
    SideExactly(input.group, input.comparison);
  }

  lemma SideExactly(group: seq<real>, comparison: seq<real>)
    requires |group| >= 2 && comparison != []
    ensures ClosedForm(group, comparison).preservesDirection <==> KeepsSide(group, comparison)
  {
    var g, c := Median(group).value, Median(comparison).value;
    RefitsAgree(group, c, Sign(g - c));
    SignsKept(Refits(group), c, Sign(g - c));
    ClosedFormParts(group, comparison);
  }

  lemma ClosedFormParts(group: seq<real>, comparison: seq<real>)
    requires |group| >= 2 && comparison != []
    ensures ClosedForm(group, comparison).preservesDirection ==
            AllKeepSign(CentralRefits(Sort(group)), Median(comparison).value, Sign(Median(group).value - Median(comparison).value))
  {
  }

  lemma MaterialExactly(input: ComparisonInput)
    requires input.group != [] && input.comparison != []
    ensures Material(FactsOf(input)) <==> MaterialDifference(input)
  {
    var g, c := Median(input.group).value, Median(input.comparison).value;
    if c != 0.0 { EffectAtLeast(g, c); }
  }

  lemma EffectAtLeast(g: real, c: real)
    requires c != 0.0
    ensures var e := RelativeEffect(g, c); e.Some? && (e.value >= 0.1 <==> g - c >= 0.1 * Abs(c)) && (e.value <= -0.1 <==> c - g >= 0.1 * Abs(c))
  {
    EffectMeans(g, c);
    EffectBounds(RelativeEffect(g, c).value, g - c, Abs(c));
  }

  lemma EffectBounds(e: real, d: real, a: real)
    requires a > 0.0 && e * a == d
    ensures (e >= 0.1 <==> d >= 0.1 * a) && (e <= -0.1 <==> -d >= 0.1 * a)
  {
    ScaledOrder(e, 0.1, a);
    ScaledOrder(-0.1, e, a);
  }

  lemma GradableExactly(input: ComparisonInput)
    ensures Gradable(FactsOf(input)) <==> GradableData(input)
  {
    if !TooLittleData(input) {
      CarriesExactly(input);
      MaterialExactly(input);
    }
  }

  /** The classes below the associations, on the data. */
  lemma LowerClassesExactly(input: ComparisonInput, seedOf: SeedOf, resamples: nat)
    requires 0 < resamples
    ensures var c := VerdictOf(input, seedOf, resamples).confidence;
            && (c.InsufficientEvidence? <==> |input.group| != 1 && TooLittleData(input))
            && (c.SinglePostOutlier? <==> |input.group| == 1 || (!TooLittleData(input) && CarriedByOnePost(input)))
  {
    var seed := Seed(seedOf, input);
    DrawnNest(input, seed, resamples);
    LowerClassesOf(FactsOf(input), Drawn(input.group, input.comparison, seed, resamples, WideConfidence),
                   Drawn(input.group, input.comparison, seed, resamples, NarrowConfidence));
    assert TooLittle(FactsOf(input)) <==> TooLittleData(input);
    if !TooLittleData(input) { CarriesExactly(input); }
  }

  lemma LowerClassesOf(f: Facts, wide: Option<Interval>, narrow: Option<Interval>)
    requires Nested(wide, narrow)
    ensures var c := Decide(f, wide, narrow).confidence;
            && (c.InsufficientEvidence? <==> f.groupCount != 1 && TooLittle(f))
            && (c.SinglePostOutlier? <==> f.groupCount == 1 || (!TooLittle(f) && OnePostCarries(f)))
  {
    ClassesExactly(f, wide, narrow);
  }

  /** Every association, by whichever path it was reached, has at least 8 and 12 posts, a material difference that
      no single post carries, and an 80% interval without zero; and everything that has these is an association.
      Its reported interval excludes zero too and holds the 80% one. */
  lemma AssociationsExactly(input: ComparisonInput, seedOf: SeedOf, resamples: nat)
    requires 0 < resamples
    ensures var v := VerdictOf(input, seedOf, resamples);
            var narrow := Drawn(input.group, input.comparison, Seed(seedOf, input), resamples, 0.8);
            && (v.confidence.ModerateAssociation? || v.confidence.StatisticallySupportedAssociation? <==>
                GradableData(input) && |input.group| >= 8 && |input.comparison| >= 12 && Excludes(narrow))
            && (v.confidence.ModerateAssociation? || v.confidence.StatisticallySupportedAssociation? ==>
                  Excludes(v.interval) && Contains(v.interval.value, narrow.value, v.interval.value.lower, v.interval.value.upper))
  {
    var seed := Seed(seedOf, input);
    DrawnNest(input, seed, resamples);
    GradableExactly(input);
    AssociationOf(FactsOf(input), Drawn(input.group, input.comparison, seed, resamples, WideConfidence), Drawn(input.group, input.comparison, seed, resamples, NarrowConfidence));
  }

  lemma AssociationOf(f: Facts, wide: Option<Interval>, narrow: Option<Interval>)
    requires Nested(wide, narrow)
    requires (narrow.Some? ==> wide.Some?) && (wide.Some? ==> narrow.Some?)
    requires wide.Some? ==> Contains(wide.value, narrow.value, wide.value.lower, wide.value.upper)
    ensures var v := Decide(f, wide, narrow);
            && (v.confidence.ModerateAssociation? || v.confidence.StatisticallySupportedAssociation? <==> Moderate(f, narrow))
            && (v.confidence.ModerateAssociation? || v.confidence.StatisticallySupportedAssociation? ==>
                  Excludes(v.interval) && narrow.Some?
                  && Contains(v.interval.value, narrow.value, v.interval.value.lower, v.interval.value.upper))
  {
    ClassesExactly(f, wide, narrow);
  }

  /** A median on the same side of the comparison, at least half of the practical effect away. */
  predicate Keeps(v: real, c: real, sign: int) { Sign(v - c) == sign && Abs(v - c) >= 0.05 * Abs(c) }

  predicate AllKeep(medians: seq<real>, c: real, sign: int) { forall i | 0 <= i < |medians| :: Keeps(medians[i], c, sign) }

  /** Without any one of its posts the group keeps its side of the comparison and at least half of the practical effect. */
  ghost predicate Robust(group: seq<real>, comparison: seq<real>)
    requires |group| >= 2 && comparison != []
  {
    var g, c := Median(group).value, Median(comparison).value;
    AllKeep(Refits(group), c, Sign(g - c))
  }

  /** A comparison is supported exactly when it is material and robust on at least 12 and 24 posts over at least six
      weeks, its 95% interval excludes zero, and neither clustering nor the correction speaks against it. */
  lemma SupportedExactly(input: ComparisonInput, seedOf: SeedOf, resamples: nat)
    requires 0 < resamples
    ensures VerdictOf(input, seedOf, resamples).confidence.StatisticallySupportedAssociation? <==>
              && |input.group| >= 12 && |input.comparison| >= 24 && input.weeks >= 6
              && GradableData(input) && Robust(input.group, input.comparison)
              && Excludes(Drawn(input.group, input.comparison, Seed(seedOf, input), resamples, 0.95))
              && !input.clustered && input.survives != Some(false)
  {
    var seed, f := Seed(seedOf, input), FactsOf(input);
    var wide, narrow := Drawn(input.group, input.comparison, seed, resamples, WideConfidence), Drawn(input.group, input.comparison, seed, resamples, NarrowConfidence);
    DrawnNest(input, seed, resamples);
    ClassesExactly(f, wide, narrow);
    GradableExactly(input);
    if GradableData(input) && |input.group| >= 12 { RobustExactly(input.group, input.comparison); }
  }

  lemma RobustExactly(group: seq<real>, comparison: seq<real>)
    requires |group| >= 4 && comparison != [] && Median(comparison).value != 0.0
    ensures var s := ClosedForm(group, comparison);
            && s.removeBestWorstPreservesDirection == Some(true) && s.minimumRelativeEffect.Some?
            && (Robust(group, comparison) <==> s.preservesDirection && s.minimumRelativeEffect.value >= 0.05)
  {
    var g, c := Median(group).value, Median(comparison).value;
    RefitsAgree(group, c, Sign(g - c));
    LeastOfParts(group, comparison);
    ClosedFormParts(group, comparison);
    RefitsRobust(Refits(group), c, Sign(g - c));
  }

  lemma LeastOfParts(group: seq<real>, comparison: seq<real>)
    requires |group| >= 4 && comparison != []
    ensures ClosedForm(group, comparison).minimumRelativeEffect == LeastMagnitude(CentralRefits(Sort(group)), Median(comparison).value)
    ensures ClosedForm(group, comparison).removeBestWorstPreservesDirection == Some(true)
  {
  }

  lemma RefitsRobust(refits: seq<real>, c: real, sign: int)
    requires refits != [] && c != 0.0
    ensures AllKeepSign(refits, c, sign) && Least(refits, MagnitudeFrom(c)) >= 0.05 <==>
            AllKeep(refits, c, sign)
  {
    MagnitudesReach(refits, c, 0.05 * Abs(c));
    SignsKept(refits, c, sign);
  }

  lemma MagnitudesReach(refits: seq<real>, c: real, bound: real)
    requires refits != [] && c != 0.0 && bound == 0.05 * Abs(c)
    ensures Least(refits, MagnitudeFrom(c)) >= 0.05 <==> forall i | 0 <= i < |refits| :: Abs(refits[i] - c) >= bound
  {
    forall i | 0 <= i < |refits| ensures MagnitudeFrom(c)(refits[i]) >= 0.05 <==> Abs(refits[i] - c) >= bound {
      MagnitudeAtLeast(refits[i], c, 0.05);
    }
    LeastReaches(refits, MagnitudeFrom(c), 0.05);
  }

  lemma SignsKept(values: seq<real>, c: real, sign: int)
    ensures AllKeepSign(values, c, sign) <==> OnSide(values, c, sign)
  {
    if AllKeepSign(values, c, sign) {
      forall i | 0 <= i < |values| ensures Sign(values[i] - c) == sign {
        var v := values[i];
        assert v in values;
      }
    }
  }

  lemma LeastReaches(values: seq<real>, f: real -> real, bound: real)
    requires values != []
    ensures Least(values, f) >= bound <==> forall i | 0 <= i < |values| :: f(values[i]) >= bound
  {
  }

  lemma MagnitudeAtLeast(v: real, c: real, bound: real)
    requires c != 0.0
    ensures MagnitudeFrom(c)(v) >= bound <==> Abs(v - c) >= bound * Abs(c)
  {
    var d, a := v - c, Abs(c);
    var q := d / a;
    assert q * a == d;
    if q >= 0.0 { ProductNonNegative(q, a); } else { ProductNonNegative(-q, a); }
    assert Abs(d) == Abs(q) * a;
    ScaledOrder(Abs(q), bound, a);
  }
}
