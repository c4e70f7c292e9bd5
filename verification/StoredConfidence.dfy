/** The confidence a statistic's row is stored with, against the level its interval was drawn at. */
module StoredConfidence {
  import opened Options
  import opened OrderStatistics
  import opened Sensitivity
  import opened Bootstrap
  import opened FeatureStatistics

  /** The column depends on the class alone. */
  function StoredLevel(confidence: ConfidenceClass): real
  {
    if confidence.StatisticallySupportedAssociation? then WideConfidence else NarrowConfidence
  }

  /** The wide interval was reported without the supported class. */
  predicate Downgraded(f: Facts, wide: Option<Interval>)
  {
    && Screen(f).None? && SupportedSamples(f) && Excludes(wide)
    && (f.clustered || f.survives == Some(false) || !KeepsHalfEffect(f)
        || f.sensitivity.removeBestWorstPreservesDirection == Some(false))
  }

  lemma LevelOfDecision(f: Facts, wide: Option<Interval>, narrow: Option<Interval>)
    ensures var v := Decide(f, wide, narrow);
            && (v.drawnAt.Some? <==> Screen(f).None?)
            && (v.drawnAt.Some? ==>
                  && v.interval == (if v.drawnAt.value == WideConfidence then wide else narrow)
                  && (StoredLevel(v.confidence) == v.drawnAt.value <==> !Downgraded(f, wide)))
  {
  }

  /** When the check without best and worst never fails. */
  lemma LevelWithoutTrimming(f: Facts, wide: Option<Interval>, narrow: Option<Interval>)
    requires f.sensitivity.removeBestWorstPreservesDirection != Some(false)
    requires Screen(f).None? ==> wide.Some? && narrow.Some?
    ensures StoredAsDrawn(f, Decide(f, wide, narrow), wide, narrow)
  {
    LevelOfDecision(f, wide, narrow);
  }

  /** A reported interval is the one drawn at its level, and the stored level is that level exactly unless the
      comparison has the supported samples and a wide interval without zero, and is kept out of the supported
      class by clustering, by the correction or by losing half of the practical effect. */
  predicate StoredAsDrawn(f: Facts, v: Verdict, wide: Option<Interval>, narrow: Option<Interval>)
  {
    && (v.interval.Some? <==> v.drawnAt.Some?)
    && (v.drawnAt.Some? ==>
          && (v.drawnAt == Some(WideConfidence) || v.drawnAt == Some(NarrowConfidence))
          && v.interval == (if v.drawnAt == Some(WideConfidence) then wide else narrow)
          && (StoredLevel(v.confidence) == v.drawnAt.value <==>
              !(SupportedSamples(f) && Excludes(wide) && (f.clustered || f.survives == Some(false) || !KeepsHalfEffect(f)))))
  }

  lemma StoredLevelExactly(input: ComparisonInput, seedOf: SeedOf, resamples: nat)
    requires 0 < resamples
    ensures var seed := Seed(seedOf, input);
            StoredAsDrawn(FactsOf(input), VerdictOf(input, seedOf, resamples),
                          Drawn(input.group, input.comparison, seed, resamples, WideConfidence),
                          Drawn(input.group, input.comparison, seed, resamples, NarrowConfidence))
  {
    var seed := Seed(seedOf, input);
    ClosedFormNeverRefuses(input.group, input.comparison);
    LevelWithoutTrimming(FactsOf(input), Drawn(input.group, input.comparison, seed, resamples, WideConfidence),
                         Drawn(input.group, input.comparison, seed, resamples, NarrowConfidence));
  }

  lemma ClosedFormNeverRefuses(group: seq<real>, comparison: seq<real>)
    ensures ClosedForm(group, comparison).removeBestWorstPreservesDirection != Some(false)
  {
  }

  // ----- An input for which they differ -----

  function Repeated(v: real, n: nat): (s: seq<real>)
    ensures |s| == n && forall i | 0 <= i < n :: s[i] == v
  {
    seq(n, _ => v)
  }

  /** A pooled comparison of twelve posts at 2 with twenty-four at 1. */
  const Pooled: ComparisonInput :=
    ComparisonInput(Repeated(1.0, 24), 3, 6, false, Repeated(2.0, 12), "feature=value|metric|day_7", 0.0, false, true, None)

  lemma MedianOfRepeated(v: real, n: nat)
    requires n > 0
    ensures Median(Repeated(v, n)) == Some(v)
  {
    MedianInRange(Repeated(v, n), v, v);
  }

  lemma RefitsOfRepeated(v: real, n: nat, c: real)
    requires n >= 2 && v > c
    ensures AllKeepSign(CentralRefits(Sort(Repeated(v, n))), c, 1)
  {
    SortInRange(Repeated(v, n), v, v);
    var central := CentralRefits(Sort(Repeated(v, n)));
    assert forall i | 0 <= i < |central| :: central[i] == v;
  }

  lemma EffectOfPooled()
    ensures EffectOf(Pooled) == Some(1.0)
  {
    MedianOfRepeated(2.0, 12);
    MedianOfRepeated(1.0, 24);
    assert RelativeEffect(2.0, 1.0) == Some(1.0);
  }

  lemma PooledKeepsDirection()
    ensures ClosedForm(Pooled.group, Pooled.comparison).preservesDirection
  {
    MedianOfRepeated(2.0, 12);
    MedianOfRepeated(1.0, 24);
    RefitsOfRepeated(2.0, 12, 1.0);
    assert Sign(2.0 - 1.0) == 1;
  }

  lemma Passes(f: Facts)
    requires f.groupCount >= 12 && f.comparisonCount >= 24 && f.dates >= 3 && f.missingRatio == 0.0 && f.share.None?
    requires f.sensitivity.preservesDirection && f.effect == Some(1.0) && !f.dominated
    ensures Screen(f).None?
  {
  }

  lemma PooledPassesScreen()
    ensures Screen(FactsOf(Pooled)).None? && SupportedSamples(FactsOf(Pooled))
  {
    EffectOfPooled();
    PooledKeepsDirection();
    Passes(FactsOf(Pooled));
  }

  lemma PooledExcludesZero(seed: bv32, resamples: nat)
    requires 0 < resamples
    ensures Excludes(Drawn(Repeated(2.0, 12), Repeated(1.0, 24), seed, resamples, WideConfidence))
  {
    DrawsInUnit(seed);
    IntervalInRange(Draws(seed), resamples, WideConfidence, Repeated(2.0, 12), Repeated(1.0, 24), 2.0, 2.0, 1.0, 1.0);
  }

  /** Whatever the seed and the number of resamples: a moderate association whose interval was drawn at 0.95 and
      is stored at 0.8. */
  lemma StoredLevelDiffers(seedOf: SeedOf, resamples: nat)
    requires 0 < resamples
    ensures var v := VerdictOf(Pooled, seedOf, resamples);
            v.confidence == ModerateAssociation && v.drawnAt == Some(0.95) && StoredLevel(v.confidence) == 0.8
  {
    PooledPassesScreen();
    PooledExcludesZero(Seed(seedOf, Pooled), resamples);
  }
}
