/**
 Sorting, interpolated percentiles and medians over real numbers. Inputs are finite, as `ascending`
 filters them; rounding is not modelled.
 */
module OrderStatistics {
  import opened Options

  predicate Sorted(s: seq<real>)
  {
    forall i, j | 0 <= i <= j < |s| :: s[i] <= s[j]
  }

  /** Ascending order, by insertion. */
  function Insert(x: real, s: seq<real>): (r: seq<real>)
    requires Sorted(s)
    ensures |r| == |s| + 1 && r[0] == if s == [] || x <= s[0] then x else s[0]
    ensures Sorted(r)
  {
    if s == [] then [x]
    else if x <= s[0] then [x] + s
    else [s[0]] + Insert(x, s[1..])
  }

  lemma {:induction false} InsertKeepsValues(x: real, s: seq<real>)
    requires Sorted(s)
    ensures multiset(Insert(x, s)) == multiset(s) + multiset{x}
  {
    if s != [] && s[0] < x {
      InsertKeepsValues(x, s[1..]);
      assert s == [s[0]] + s[1..];
    }
  }

  function Sort(s: seq<real>): (r: seq<real>)
    ensures Sorted(r) && |r| == |s| && multiset(r) == multiset(s)
  {
    if s == [] then []
    else
      assert s == [s[0]] + s[1..];
      InsertKeepsValues(s[0], Sort(s[1..]));
      Insert(s[0], Sort(s[1..]))
  }

  lemma SameMembers(a: seq<real>, b: seq<real>, v: real)
    requires multiset(a) == multiset(b)
    ensures v in a <==> v in b
  {
    assert v in a <==> v in multiset(a);
    assert v in b <==> v in multiset(b);
  }

  /** An ascending sequence is determined by its values. */
  lemma {:induction false} SortedUnique(a: seq<real>, b: seq<real>)
    requires Sorted(a) && Sorted(b) && multiset(a) == multiset(b)
    ensures a == b
    decreases |a|
  {
    assert |a| == |multiset(a)| && |b| == |multiset(b)|;
    if a != [] {
      HeadsAgree(a, b);
      TailValues(a);
      TailValues(b);
      assert multiset(a[1..]) == multiset(b[1..]);
      SortedUnique(a[1..], b[1..]);
      assert a == [a[0]] + a[1..] && b == [b[0]] + b[1..];
    }
  }

  lemma HeadsAgree(a: seq<real>, b: seq<real>)
    requires Sorted(a) && Sorted(b) && multiset(a) == multiset(b) && a != [] && b != []
    ensures a[0] == b[0]
  {
    SameMembers(a, b, a[0]);
    SameMembers(a, b, b[0]);
  }

  lemma TailValues(a: seq<real>)
    requires a != []
    ensures multiset(a[1..]) == multiset(a) - multiset{a[0]}
  {
    assert a == [a[0]] + a[1..];
  }

  /** Sorting sees only the values, not their order. */
  lemma SortIgnoresOrder(a: seq<real>, b: seq<real>)
    requires multiset(a) == multiset(b)
    ensures Sort(a) == Sort(b)
  {
    SortedUnique(Sort(a), Sort(b));
  }

  lemma SortOfSorted(s: seq<real>)
    requires Sorted(s)
    ensures Sort(s) == s
  {
    SortedUnique(Sort(s), s);
  }

  // ----- Interpolation -----

  function Ceil(x: real): int { -((-x).Floor) }

  /** The point a share `t` of the way from `a` to `b`. */
  function Mix(a: real, b: real, t: real): (m: real)
    ensures a <= b && 0.0 <= t <= 1.0 ==> a <= m <= b
  {
    assert a <= b && 0.0 <= t <= 1.0 ==> 0.0 <= (b - a) * t <= b - a by {
      if a <= b && 0.0 <= t <= 1.0 {
        ProductNonNegative(b - a, t);
        ProductNonNegative(b - a, 1.0 - t);
        assert (b - a) * (1.0 - t) == (b - a) - (b - a) * t;
      }
    }
    a + (b - a) * t
  }

  lemma ProductNonNegative(x: real, y: real)
    requires 0.0 <= x && 0.0 <= y
    ensures 0.0 <= x * y
  {
  }

  lemma ScaledOrder(x: real, y: real, a: real)
    requires a > 0.0
    ensures x >= y <==> x * a >= y * a
  {
    if x >= y { ProductNonNegative(x - y, a); } else { assert (y - x) * a > 0.0; }
  }

  lemma MixMonotone(a: real, b: real, t: real, u: real)
    requires a <= b && t <= u
    ensures Mix(a, b, t) <= Mix(a, b, u)
  {
    ProductNonNegative(b - a, u - t);
    assert Mix(a, b, u) - Mix(a, b, t) == (b - a) * (u - t);
  }

  /** The value at a fractional position of an ascending sequence. */
  function Interpolate(s: seq<real>, x: real): real
    requires s != [] && 0.0 <= x <= (|s| - 1) as real
  {
    var lower, upper := x.Floor, Ceil(x);
    if lower == upper then s[lower] else Mix(s[lower], s[upper], x - lower as real)
  }

  lemma InterpolateBounds(s: seq<real>, x: real)
    requires s != [] && Sorted(s) && 0.0 <= x <= (|s| - 1) as real
    ensures 0 <= x.Floor <= Ceil(x) < |s|
    ensures s[0] <= s[x.Floor] <= Interpolate(s, x) <= s[Ceil(x)] <= s[|s| - 1]
  {
  }

  /** Interpolation is monotone in the position. */
  lemma InterpolateMonotone(s: seq<real>, x: real, y: real)
    requires s != [] && Sorted(s) && 0.0 <= x <= y <= (|s| - 1) as real
    ensures Interpolate(s, x) <= Interpolate(s, y)
  {
    InterpolateBounds(s, x);
    InterpolateBounds(s, y);
    if x.Floor == y.Floor {
      if x.Floor != Ceil(x) {
        assert Ceil(y) == Ceil(x);
        MixMonotone(s[x.Floor], s[Ceil(x)], x - x.Floor as real, y - x.Floor as real);
      }
    } else {
      assert Ceil(x) <= y.Floor;
    }
  }

  /** The values are the numbers 0, 1, 2 and so on. */
  predicate AreRanks(s: seq<real>) { forall i | 0 <= i < |s| :: s[i] == i as real }

  /** Among the numbers 0, 1, 2 and so on the value at a position is the position: interpolation is linear. */
  lemma InterpolateRanks(s: seq<real>, x: real)
    requires s != [] && AreRanks(s) && 0.0 <= x <= (|s| - 1) as real
    ensures Interpolate(s, x) == x
  {
    var l := x.Floor;
    if l != Ceil(x) {
      assert Ceil(x) == l + 1;
      assert Mix(l as real, (l + 1) as real, x - l as real) == x;
    }
  }

  // ----- Percentiles and medians -----

  /** The fractional position of a percentile among `n` values. */
  function Position(n: nat, fraction: real): (x: real)
    requires 0 < n && 0.0 <= fraction <= 1.0
    ensures 0.0 <= x <= (n - 1) as real
  {
    Mix(0.0, (n - 1) as real, fraction)
  }

  function Percentile(s: seq<real>, fraction: real): (p: Option<real>)
    requires 0.0 <= fraction <= 1.0
    ensures p.None? <==> s == []
  {
    if s == [] then None
    else if |s| == 1 then Some(s[0])
    else Some(Interpolate(s, Position(|s|, fraction)))
  }

  /** The percentile without the guard for short inputs. */
  function PercentileOf(s: seq<real>, fraction: real): real
    requires s != [] && 0.0 <= fraction <= 1.0
  {
    Interpolate(s, Position(|s|, fraction))
  }

  lemma PercentileAgrees(s: seq<real>, fraction: real)
    requires s != [] && 0.0 <= fraction <= 1.0
    ensures Percentile(s, fraction) == Some(PercentileOf(s, fraction))
  {
  }

  lemma PercentileOfRanks(s: seq<real>, fraction: real)
    requires s != [] && AreRanks(s) && 0.0 <= fraction <= 1.0
    ensures PercentileOf(s, fraction) == (|s| - 1) as real * fraction
  {
    InterpolateRanks(s, Position(|s|, fraction));
  }

  /** A percentile lies among the values and grows with the fraction. */
  lemma PercentileMonotone(s: seq<real>, f: real, g: real)
    requires s != [] && Sorted(s) && 0.0 <= f <= g <= 1.0
    ensures s[0] <= PercentileOf(s, f) <= PercentileOf(s, g) <= s[|s| - 1]
  {
    var x, y := Position(|s|, f), Position(|s|, g);
    MixMonotone(0.0, (|s| - 1) as real, f, g);
    InterpolateBounds(s, x);
    InterpolateBounds(s, y);
    InterpolateMonotone(s, x, y);
  }

  /** The middle value, or the mean of the two middle values. */
  function MiddleOf(s: seq<real>): real
    requires s != []
  {
    if |s| % 2 == 1 then s[|s| / 2] else (s[|s| / 2 - 1] + s[|s| / 2]) / 2.0
  }

  function Median(values: seq<real>): (m: Option<real>)
    ensures m.None? <==> values == []
  {
    if values == [] then None else Some(MiddleOf(Sort(values)))
  }

  /** The median is the interpolated percentile at one half, which is how `median` computes it. */
  lemma MedianIsHalfPercentile(values: seq<real>)
    ensures Percentile(Sort(values), 0.5) == Median(values)
  {
    if values != [] {
      PercentileAgrees(Sort(values), 0.5);
      HalfwayIsMiddle(Sort(values));
    }
  }

  lemma HalfwayIsMiddle(s: seq<real>)
    requires s != []
    ensures PercentileOf(s, 0.5) == MiddleOf(s)
  {
    var k := |s| / 2;
    var x := Position(|s|, 0.5);
    if |s| % 2 == 1 {
      assert |s| == 2 * k + 1 && x == k as real;
      assert x.Floor == k && Ceil(x) == k;
    } else {
      assert |s| == 2 * k && x == k as real - 0.5;
      assert x.Floor == k - 1 && Ceil(x) == k;
    }
  }

  /** A median lies between any bounds on the values. */
  lemma MedianInRange(values: seq<real>, low: real, high: real)
    requires values != [] && forall i | 0 <= i < |values| :: low <= values[i] <= high
    ensures low <= Median(values).value <= high
  {
    SortInRange(values, low, high);
  }

  lemma SortInRange(values: seq<real>, low: real, high: real)
    requires forall i | 0 <= i < |values| :: low <= values[i] <= high
    ensures forall i | 0 <= i < |values| :: low <= Sort(values)[i] <= high
  {
    forall i | 0 <= i < |values| ensures low <= Sort(values)[i] <= high {
      SameMembers(Sort(values), values, Sort(values)[i]);
    }
  }

  // ----- Spread -----

  datatype Spread = Spread(count: nat, firstQuartile: Option<real>, interquartileRange: Option<real>, maximum: Option<real>,
                           median: Option<real>, minimum: Option<real>, thirdQuartile: Option<real>)

  function SummariseSpread(values: seq<real>): Spread { SpreadOf(Sort(values)) }

  function SpreadOf(s: seq<real>): Spread
  {
    var q1, q3 := Percentile(s, 0.25), Percentile(s, 0.75);
    Spread(|s|, q1, if q1.None? || q3.None? then None else Some(q3.value - q1.value),
           if s == [] then None else Some(s[|s| - 1]), Percentile(s, 0.5), if s == [] then None else Some(s[0]), q3)
  }

  /** The summary is ordered, its range is not negative, its median is the median, and order does not matter. */
  lemma SpreadIsOrdered(values: seq<real>, permuted: seq<real>)
    requires multiset(values) == multiset(permuted)
    ensures SummariseSpread(values) == SummariseSpread(permuted)
    ensures SummariseSpread(values).median == Median(values)
    ensures values != [] ==>
              var d := SummariseSpread(values);
              && d.count == |values|
              && d.minimum.Some? && d.firstQuartile.Some? && d.median.Some? && d.thirdQuartile.Some? && d.maximum.Some?
              && d.minimum.value <= d.firstQuartile.value <= d.median.value <= d.thirdQuartile.value <= d.maximum.value
              && d.interquartileRange.Some? && 0.0 <= d.interquartileRange.value
  {
    SortIgnoresOrder(values, permuted);
    MedianIsHalfPercentile(values);
    if values != [] { QuartilesOrdered(Sort(values)); }
  }

  lemma QuartilesOrdered(s: seq<real>)
    requires s != [] && Sorted(s)
    ensures Percentile(s, 0.25).Some? && Percentile(s, 0.5).Some? && Percentile(s, 0.75).Some?
    ensures s[0] <= Percentile(s, 0.25).value <= Percentile(s, 0.5).value <= Percentile(s, 0.75).value <= s[|s| - 1]
  {
    PercentileAgrees(s, 0.25);
    PercentileAgrees(s, 0.5);
    PercentileAgrees(s, 0.75);
    PercentileMonotone(s, 0.25, 0.5);
    PercentileMonotone(s, 0.5, 0.75);
  }

  /** The summary of evenly spaced values divides their range into quarters. */
  lemma SpreadOfRanks(s: seq<real>, range: real)
    requires s != [] && AreRanks(s) && range == (|s| - 1) as real
    ensures SpreadOf(s) == Spread(|s|, Some(range * 0.25), Some(range * 0.5), Some(range), Some(range * 0.5), Some(0.0), Some(range * 0.75))
  {
    var q1, q2, q3 := range * 0.25, range * 0.5, range * 0.75;
    QuartileOfRanks(s, 0.25, q1);
    QuartileOfRanks(s, 0.5, q2);
    QuartileOfRanks(s, 0.75, q3);
    SpreadParts(s, q1, q2, q3);
  }

  lemma SpreadParts(s: seq<real>, q1: real, q2: real, q3: real)
    requires s != [] && Percentile(s, 0.25) == Some(q1) && Percentile(s, 0.5) == Some(q2) && Percentile(s, 0.75) == Some(q3)
    ensures SpreadOf(s) == Spread(|s|, Some(q1), Some(q3 - q1), Some(s[|s| - 1]), Some(q2), Some(s[0]), Some(q3))
  {
  }

  lemma QuartileOfRanks(s: seq<real>, fraction: real, at: real)
    requires s != [] && AreRanks(s) && 0.0 <= fraction <= 1.0 && at == (|s| - 1) as real * fraction
    ensures Percentile(s, fraction) == Some(at)
  {
    PercentileAgrees(s, fraction);
    PercentileOfRanks(s, fraction);
  }
}
