/** The seeded bootstrap of a difference of medians. */
module Bootstrap {
  import opened Options
  import opened OrderStatistics

  // ----- The generator -----

  function NextState(state: bv32): bv32 { state + 0x6d2b79f5 }

  /** mulberry32 on 32-bit words: the multiplications keep the low 32 bits, the shifts are logical. */
  function Scramble(state: bv32): bv32
  {
    var v := (state ^ (state >> 15)) * (state | 1);
    var w := v ^ (v + (v ^ (v >> 7)) * (v | 61));
    w ^ (w >> 14)
  }

  function Uniform(state: bv32): (u: real)
    ensures 0.0 <= u < 1.0
  {
    Scramble(state) as int as real / 4294967296.0
  }

  function StateAfter(seed: bv32, calls: nat): bv32
  {
    if calls == 0 then seed else NextState(StateAfter(seed, calls - 1))
  }

  /** The k-th number a generator with this seed gives. */
  function Draws(seed: bv32): nat -> real
  {
    (k: nat) => Uniform(StateAfter(seed, k + 1))
  }

  ghost predicate InUnit(draws: nat -> real)
  {
    forall k :: 0.0 <= draws(k) < 1.0
  }

  lemma DrawsInUnit(seed: bv32)
    ensures InUnit(Draws(seed))
  {
  }

  class Generator {
    var state: bv32
    ghost const seed: bv32
    ghost var drawn: nat

    ghost predicate Valid()
      reads this
    {
      state == StateAfter(seed, drawn)
    }

    constructor (seed: bv32)
      ensures Valid() && this.seed == seed && drawn == 0
    {
      state, this.seed, drawn := seed, seed, 0;
    }

    method Next() returns (u: real)
      requires Valid()
      modifies this
      ensures Valid() && drawn == old(drawn) + 1
      ensures u == Draws(seed)(old(drawn))
    {
      state := NextState(state);
      drawn := drawn + 1;
      u := Uniform(state);
    }
  }

  // ----- Resampling -----

  function Pick(u: real, n: nat): (i: nat)
    requires 0.0 <= u < 1.0 && 0 < n
    ensures i < n && i as real <= u * n as real < (i + 1) as real
  {
    assert 0.0 <= u * n as real < n as real by {
      ProductNonNegative(u, n as real);
      assert (1.0 - u) * n as real > 0.0;
      assert (1.0 - u) * n as real == n as real - u * n as real;
    }
    (u * n as real).Floor
  }

  /** The first `n` values of a resample: each drawn from all the values. */
  ghost function Sample(draws: nat -> real, from: nat, n: nat, values: seq<real>): (s: seq<real>)
    requires InUnit(draws) && values != []
    ensures |s| == n
  {
    if n == 0 then []
    else Sample(draws, from, n - 1, values) + [values[Pick(draws(from + n - 1), |values|)]]
  }

  /** The median of a resample of as many values as there are. */
  ghost function SampleMedian(draws: nat -> real, from: nat, values: seq<real>): real
    requires InUnit(draws) && values != []
  {
    Median(Sample(draws, from, |values|, values)).value
  }

  /** How many draws `r` resamples of a given width have used. */
  function Offset(r: nat, width: nat): nat
  {
    if r == 0 then 0 else Offset(r - 1, width) + width
  }

  /** The difference of medians in resample `r`, which uses one draw per value of both sides. */
  ghost function Difference(draws: nat -> real, r: nat, group: seq<real>, comparison: seq<real>): real
    requires InUnit(draws) && group != [] && comparison != []
  {
    DifferenceAt(Medians(draws, group), Medians(draws, comparison), Offset(r, |group| + |comparison|), |group|)
  }

  /** The resample medians of one side, by the number of draws made before. */
  ghost function Medians(draws: nat -> real, values: seq<real>): nat -> real
    requires InUnit(draws) && values != []
  {
    (from: nat) => if InUnit(draws) && values != [] then SampleMedian(draws, from, values) else 0.0
  }

  /** The comparison's side is drawn after the `n` values of the group's. */
  function DifferenceAt(groupMedian: nat -> real, comparisonMedian: nat -> real, from: nat, n: nat): real
  {
    groupMedian(from) - comparisonMedian(from + n)
  }

  ghost function DifferenceOf(draws: nat -> real, group: seq<real>, comparison: seq<real>): nat -> real
    requires InUnit(draws) && group != [] && comparison != []
  {
    (r: nat) => if InUnit(draws) && group != [] && comparison != [] then Difference(draws, r, group, comparison) else 0.0
  }

  ghost function FirstOf(f: nat -> real, n: nat): (d: seq<real>)
    ensures |d| == n
  {
    if n == 0 then [] else FirstOf(f, n - 1) + [f(n - 1)]
  }

  lemma {:induction false} FirstOfAt(f: nat -> real, n: nat, r: nat)
    requires r < n
    ensures FirstOf(f, n)[r] == f(r)
  {
    if r < n - 1 { FirstOfAt(f, n - 1, r); }
  }

  /** The differences of the first `resamples` resamples. */
  ghost function Differences(draws: nat -> real, resamples: nat, group: seq<real>, comparison: seq<real>): (d: seq<real>)
    requires InUnit(draws) && group != [] && comparison != []
    ensures |d| == resamples
  {
    FirstOf(DifferenceOf(draws, group, comparison), resamples)
  }

  datatype Interval = Interval(lower: real, upper: real, excludesNoDifference: bool)

  /** The central interval of a given confidence among the resampled differences. */
  function IntervalOf(differences: seq<real>, confidence: real): Interval
    requires differences != [] && 0.0 <= confidence <= 1.0
  {
    IntervalFrom(Sort(differences), Tail(confidence))
  }

  /** The share left out on either side. */
  function Tail(confidence: real): (tail: real)
    requires 0.0 <= confidence <= 1.0
    ensures 0.0 <= tail <= 0.5
  {
    (1.0 - confidence) / 2.0
  }

  /** The interval that leaves a share `tail` of the ascending values on either side. */
  function IntervalFrom(s: seq<real>, tail: real): Interval
    requires s != [] && 0.0 <= tail <= 1.0
  {
    Between(PercentileOf(s, tail), PercentileOf(s, 1.0 - tail))
  }

  function Between(lower: real, upper: real): Interval
  {
    Interval(lower, upper, (lower > 0.0 && upper > 0.0) || (lower < 0.0 && upper < 0.0))
  }

  // ----- What every interval satisfies, for any stream of draws -----

  lemma {:induction false} SampleDrawsValues(draws: nat -> real, from: nat, n: nat, values: seq<real>, low: real, high: real)
    requires InUnit(draws) && values != [] && forall i | 0 <= i < |values| :: low <= values[i] <= high
    ensures forall i | 0 <= i < n :: low <= Sample(draws, from, n, values)[i] <= high
  {
    if n > 0 { SampleDrawsValues(draws, from, n - 1, values, low, high); }
  }

  lemma SampleInRange(draws: nat -> real, from: nat, values: seq<real>, low: real, high: real)
    requires InUnit(draws) && values != [] && forall i | 0 <= i < |values| :: low <= values[i] <= high
    ensures low <= SampleMedian(draws, from, values) <= high
  {
    SampleDrawsValues(draws, from, |values|, values, low, high);
    MedianInRange(Sample(draws, from, |values|, values), low, high);
  }

  /** The draw `u` falls on the value at index `i` of `n`: the unit interval is divided into `n` equal parts. */
  predicate FallsOn(u: real, i: nat, n: nat) { i < n && i as real <= u * n as real < (i + 1) as real }

  /** Each position of a resample holds the value that its draw falls on, among all the values. */
  lemma {:induction false} SampleAt(draws: nat -> real, from: nat, n: nat, values: seq<real>, k: nat)
    requires InUnit(draws) && values != [] && k < n
    ensures exists i: nat :: FallsOn(draws(from + k), i, |values|) && Sample(draws, from, n, values)[k] == values[i]
    ensures forall i: nat | FallsOn(draws(from + k), i, |values|) :: Sample(draws, from, n, values)[k] == values[i]
  {
    if k < n - 1 {
      SampleAt(draws, from, n - 1, values, k);
    } else {
      var i := Pick(draws(from + k), |values|);
      assert from + n - 1 == from + k;
      assert FallsOn(draws(from + k), i, |values|) && Sample(draws, from, n, values)[k] == values[i];
    }
  }

  function IndexOf(values: seq<real>, v: real): (i: nat)
    requires exists k | 0 <= k < |values| :: values[k] == v
    ensures i < |values| && values[i] == v
  {
    if values[0] == v then 0 else 1 + IndexOf(values[1..], v)
  }

  /** A draw that falls on a given index. */
  function Towards(i: nat, n: nat): (u: real)
    requires i < n
    ensures 0.0 <= u < 1.0 && FallsOn(u, i, n)
  {
    var u := i as real / n as real;
    assert u * n as real == i as real;
    assert u >= 0.0 && u < 1.0 by {
      ShareInUnit(i as real, n as real, u);
    }
    u
  }

  lemma ShareInUnit(i: real, n: real, u: real)
    requires 0.0 <= i < n && u * n == i
    ensures 0.0 <= u < 1.0
  {
    ScaledOrder(u, 0.0, n);
    ScaledOrder(u, 1.0, n);
  }

  /** Every list of the values can be drawn: the resamples are all of them, not some. */
  lemma AnySampleCanBeDrawn(values: seq<real>, sample: seq<real>) returns (draws: nat -> real)
    requires values != [] && forall k | 0 <= k < |sample| :: exists i | 0 <= i < |values| :: values[i] == sample[k]
    ensures InUnit(draws) && Sample(draws, 0, |sample|, values) == sample
  {
    draws := (k: nat) => if k < |sample| && (exists i | 0 <= i < |values| :: values[i] == sample[k])
                         then Towards(IndexOf(values, sample[k]), |values|) else 0.0;
    forall k: nat | k < |sample| ensures Sample(draws, 0, |sample|, values)[k] == sample[k] {
      SampleAt(draws, 0, |sample|, values, k);
      assert FallsOn(draws(0 + k), IndexOf(values, sample[k]), |values|);
    }
  }

  /** Position `k` of resample `r`, both sides counted through, uses this draw. */
  predicate Uses(draw: nat, r: nat, k: nat, width: nat) { k < width && draw == Offset(r, width) + k }

  /** The draws of a resample are its own: the positions of all resamples take all draws, each once. */
  lemma {:induction false} EveryDrawIsUsed(width: nat, draw: nat) returns (r: nat, k: nat)
    requires 0 < width
    ensures Uses(draw, r, k, width)
    ensures forall q: nat, i: nat | Uses(draw, q, i, width) :: q == r && i == k
    decreases draw
  {
    r, k := 0, draw;
    if draw >= width {
      r, k := EveryDrawIsUsed(width, draw - width);
      r := r + 1;
    }
    forall q: nat, i: nat | Uses(draw, q, i, width) ensures q == r && i == k {
      if r < q { OffsetsGrow(r, q, width); }
      if q < r { OffsetsGrow(q, r, width); }
    }
  }

  lemma {:induction false} OffsetsGrow(r: nat, q: nat, width: nat)
    requires r < q
    ensures Offset(r, width) + width <= Offset(q, width)
    decreases q
  {
    if r < q - 1 { OffsetsGrow(r, q - 1, width); }
  }

  /** Resample `r` compares the group's median with the comparison's: `n` draws for the group, then `m` for the
      comparison, after the draws of the resamples before. */
  lemma ResampleIs(f: nat -> real, g: nat -> real, c: nat -> real, n: nat, m: nat, r: nat)
    requires Compares(f, g, c, n, m)
    ensures f(r) == g(Offset(r, n + m)) - c(Offset(r, n + m) + n)
  {
  }

  lemma SampleMedianIs(draws: nat -> real, from: nat, values: seq<real>, sample: seq<real>)
    requires InUnit(draws) && values != [] && sample == Sample(draws, from, |values|, values)
    ensures |sample| == |values| && Median(sample) == Some(SampleMedian(draws, from, values))
  {
  }

  /** An interval excludes no difference exactly when zero lies outside it. */
  lemma ExcludesZero(lower: real, upper: real)
    requires lower <= upper
    ensures Between(lower, upper).excludesNoDifference <==> !(lower <= 0.0 <= upper)
  {
  }

  /** On evenly spaced differences the interval leaves a share `tail` of their range below its lower end. */
  lemma LowerEndOfRanks(s: seq<real>, tail: real, range: real)
    requires s != [] && 0.0 <= tail <= 1.0 && AreRanks(s) && range == (|s| - 1) as real
    ensures IntervalFrom(s, tail).lower == range * tail
  {
    EndOfRanks(s, tail, range, IntervalFrom(s, tail).lower);
  }

  /** And the same share above its upper end. */
  lemma UpperEndOfRanks(s: seq<real>, tail: real, rest: real, range: real)
    requires s != [] && 0.0 <= tail <= 1.0 && rest == 1.0 - tail && AreRanks(s) && range == (|s| - 1) as real
    ensures IntervalFrom(s, tail).upper == range * rest
  {
    UpperEnd(s, tail, rest);
    EndOfRanks(s, rest, range, PercentileOf(s, rest));
  }

  lemma UpperEnd(s: seq<real>, tail: real, rest: real)
    requires s != [] && 0.0 <= tail <= 1.0 && rest == 1.0 - tail
    ensures IntervalFrom(s, tail).upper == PercentileOf(s, rest)
  {
  }

  /** The two shares left out and the confidence make up the whole. */
  lemma TailsAndConfidence(confidence: real)
    requires 0.0 <= confidence <= 1.0
    ensures Tail(confidence) + confidence + Tail(confidence) == 1.0
  {
  }

  lemma EndOfRanks(s: seq<real>, fraction: real, range: real, end: real)
    requires s != [] && 0.0 <= fraction <= 1.0 && AreRanks(s) && range == (|s| - 1) as real && end == PercentileOf(s, fraction)
    ensures end == range * fraction
  {
    PercentileOfRanks(s, fraction);
  }

  /** Numbers of the generator with the seeds 0, 1 and 7. */
  lemma KnownDraws()
    ensures Draws(0)(0) == 1144304738.0 / 4294967296.0 && Draws(0)(1) == 1416247.0 / 4294967296.0
    ensures Draws(1)(0) == 2693262067.0 / 4294967296.0 && Draws(7)(0) == 50271532.0 / 4294967296.0
  {
    KnownWords();
    assert StateAfter(0, 1) == NextState(0) && StateAfter(0, 2) == NextState(NextState(0));
    assert StateAfter(1, 1) == NextState(1) && StateAfter(7, 1) == NextState(7);
  }

  lemma KnownWords()
    ensures Scramble(NextState(0)) == 1144304738 && Scramble(NextState(NextState(0))) == 1416247
    ensures Scramble(NextState(1)) == 2693262067 && Scramble(NextState(7)) == 50271532
  {
  }

  /** Every resampled difference lies between the extreme differences of the data. */
  lemma DifferenceInRange(draws: nat -> real, r: nat, group: seq<real>, comparison: seq<real>,
                          groupLow: real, groupHigh: real, comparisonLow: real, comparisonHigh: real)
    requires InUnit(draws) && group != [] && comparison != []
    requires forall i | 0 <= i < |group| :: groupLow <= group[i] <= groupHigh
    requires forall i | 0 <= i < |comparison| :: comparisonLow <= comparison[i] <= comparisonHigh
    ensures groupLow - comparisonHigh <= Difference(draws, r, group, comparison) <= groupHigh - comparisonLow
  {
    MediansInRange(draws, group, groupLow, groupHigh);
    MediansInRange(draws, comparison, comparisonLow, comparisonHigh);
    BoundedDifference(Medians(draws, group), Medians(draws, comparison), Offset(r, |group| + |comparison|), |group|,
                      groupLow, groupHigh, comparisonLow, comparisonHigh);
  }

  lemma MediansInRange(draws: nat -> real, values: seq<real>, low: real, high: real)
    requires InUnit(draws) && values != [] && forall i | 0 <= i < |values| :: low <= values[i] <= high
    ensures forall from :: low <= Medians(draws, values)(from) <= high
  {
    forall from ensures low <= Medians(draws, values)(from) <= high {
      SampleInRange(draws, from, values, low, high);
    }
  }

  lemma BoundedDifference(g: nat -> real, c: nat -> real, from: nat, n: nat, groupLow: real, groupHigh: real, comparisonLow: real, comparisonHigh: real)
    requires (forall k :: groupLow <= g(k) <= groupHigh) && forall k :: comparisonLow <= c(k) <= comparisonHigh
    ensures groupLow - comparisonHigh <= DifferenceAt(g, c, from, n) <= groupHigh - comparisonLow
  {
  }

  /** `w` contains `n`, both are ordered, and `n` excludes zero when `w` does. */
  predicate Contains(w: Interval, n: Interval, low: real, high: real)
  {
    && low <= w.lower <= n.lower <= n.upper <= w.upper <= high
    && (w.excludesNoDifference ==> n.excludesNoDifference)
  }

  /** A wider confidence gives a wider interval; both are ordered and stay within the differences. */
  lemma IntervalsNest(differences: seq<real>, narrow: real, wide: real)
    requires differences != [] && 0.0 <= narrow <= wide <= 1.0
    ensures var s := Sort(differences);
            Contains(IntervalOf(differences, wide), IntervalOf(differences, narrow), s[0], s[|s| - 1])
  {
    TailsOrdered(narrow, wide);
    PercentilesNest(Sort(differences), Tail(wide), Tail(narrow));
  }

  lemma TailsOrdered(narrow: real, wide: real)
    requires 0.0 <= narrow <= wide <= 1.0
    ensures Tail(wide) <= Tail(narrow)
  {
  }

  lemma PercentilesNest(s: seq<real>, outer: real, inner: real)
    requires s != [] && Sorted(s) && 0.0 <= outer <= inner <= 0.5
    ensures Contains(IntervalFrom(s, outer), IntervalFrom(s, inner), s[0], s[|s| - 1])
  {
    PercentileMonotone(s, outer, inner);
    PercentileMonotone(s, inner, 1.0 - inner);
    PercentileMonotone(s, 1.0 - inner, 1.0 - outer);
  }

  /** The bootstrap interval lies between the extreme differences of the data. */
  lemma IntervalInRange(draws: nat -> real, resamples: nat, confidence: real, group: seq<real>, comparison: seq<real>,
                        groupLow: real, groupHigh: real, comparisonLow: real, comparisonHigh: real)
    requires InUnit(draws) && group != [] && comparison != [] && 0 < resamples && 0.0 <= confidence <= 1.0
    requires forall i | 0 <= i < |group| :: groupLow <= group[i] <= groupHigh
    requires forall i | 0 <= i < |comparison| :: comparisonLow <= comparison[i] <= comparisonHigh
    ensures var i := IntervalOf(Differences(draws, resamples, group, comparison), confidence);
            groupLow - comparisonHigh <= i.lower <= i.upper <= groupHigh - comparisonLow
  {
    var d := Differences(draws, resamples, group, comparison);
    var low, high := groupLow - comparisonHigh, groupHigh - comparisonLow;
    forall r: nat | r < resamples ensures low <= d[r] <= high {
      FirstOfAt(DifferenceOf(draws, group, comparison), resamples, r);
      DifferenceInRange(draws, r, group, comparison, groupLow, groupHigh, comparisonLow, comparisonHigh);
    }
    SortInRange(d, low, high);
    IntervalsNest(d, confidence, confidence);
  }

  // ----- The loops -----

  ghost predicate Lists(medians: nat -> real, draws: nat -> real, values: seq<real>)
    requires InUnit(draws) && values != []
  {
    forall from {:trigger SampleMedian(draws, from, values)} :: medians(from) == SampleMedian(draws, from, values)
  }

  method ResampleMedian(generator: Generator, values: seq<real>, ghost medians: nat -> real) returns (median: real)
    requires generator.Valid() && values != [] && InUnit(Draws(generator.seed)) && Lists(medians, Draws(generator.seed), values)
    modifies generator
    ensures generator.Valid() && generator.drawn == old(generator.drawn) + |values|
    ensures median == medians(old(generator.drawn))
  {
    var sample: seq<real> := [];
    ghost var draws, from := Draws(generator.seed), generator.drawn;
    for index := 0 to |values|
      invariant generator.Valid() && generator.drawn == from + index
      invariant sample == Sample(draws, from, index, values)
    {
      var u := generator.Next();
      sample := sample + [values[Pick(u, |values|)]];
    }
    median := Median(sample).value;
    assert median == SampleMedian(draws, from, values);
  }

  /** Bootstraps the difference between the medians of two sides; nothing when a side is empty. */
  method BootstrapMedianDifference(group: seq<real>, comparison: seq<real>, confidence: real, seed: bv32, resamples: nat)
    returns (interval: Option<Interval>)
    requires 0 < resamples && 0.0 <= confidence <= 1.0
    ensures interval.None? <==> group == [] || comparison == []
    ensures InUnit(Draws(seed))
    ensures interval.Some? ==> interval.value == IntervalOf(Differences(Draws(seed), resamples, group, comparison), confidence)
  {
    DrawsInUnit(seed);
    if group == [] || comparison == [] {
      return None;
    }
    var next := new Generator(seed);
    ghost var draws := Draws(seed);
    DifferencesOfMedians(draws, group, comparison);
    var differences := ResampleDifferences(next, group, comparison, resamples, Medians(draws, group), Medians(draws, comparison),
                                           DifferenceOf(draws, group, comparison));
    return Some(IntervalOf(differences, confidence));
  }

  /** `f` lists the differences of the medians, resample by resample. */
  ghost predicate Compares(f: nat -> real, g: nat -> real, c: nat -> real, n: nat, m: nat)
  {
    forall r: nat :: f(r) == DifferenceAt(g, c, Offset(r, n + m), n)
  }

  lemma DifferencesOfMedians(draws: nat -> real, group: seq<real>, comparison: seq<real>)
    requires InUnit(draws) && group != [] && comparison != []
    ensures Lists(Medians(draws, group), draws, group) && Lists(Medians(draws, comparison), draws, comparison)
    ensures Compares(DifferenceOf(draws, group, comparison), Medians(draws, group), Medians(draws, comparison), |group|, |comparison|)
  {
  }

  /** The outer loop. */
  method ResampleDifferences(next: Generator, group: seq<real>, comparison: seq<real>, resamples: nat,
                             ghost g: nat -> real, ghost c: nat -> real, ghost f: nat -> real)
    returns (differences: seq<real>)
    requires next.Valid() && next.drawn == 0 && group != [] && comparison != [] && InUnit(Draws(next.seed))
    requires Lists(g, Draws(next.seed), group) && Lists(c, Draws(next.seed), comparison)
    requires Compares(f, g, c, |group|, |comparison|)
    modifies next
    ensures differences == FirstOf(f, resamples)
  {
    differences := [];
    for resample := 0 to resamples
      invariant next.Valid() && next.drawn == Offset(resample, |group| + |comparison|)
      invariant differences == FirstOf(f, resample)
    {
      var difference := ResampleDifference(next, group, comparison, g, c);
      differences := differences + [difference];
    }
  }

  /** One pass of the outer loop: both sides are resampled and their medians compared. */
  method ResampleDifference(next: Generator, group: seq<real>, comparison: seq<real>, ghost g: nat -> real, ghost c: nat -> real)
    returns (difference: real)
    requires next.Valid() && group != [] && comparison != [] && InUnit(Draws(next.seed))
    requires Lists(g, Draws(next.seed), group) && Lists(c, Draws(next.seed), comparison)
    modifies next
    ensures next.Valid() && next.drawn == old(next.drawn) + |group| + |comparison|
    ensures difference == DifferenceAt(g, c, old(next.drawn), |group|)
  {
    var groupMedian := ResampleMedian(next, group, g);
    var comparisonMedian := ResampleMedian(next, comparison, c);
    difference := groupMedian - comparisonMedian;
  }
}
