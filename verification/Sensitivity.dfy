/** Leave-one-out sensitivity of a median difference, and its closed form on the central order statistics. */
module Sensitivity {
  import opened Options
  import opened OrderStatistics

  function Abs(x: real): real { if x < 0.0 then -x else x }

  function Sign(x: real): int { if x > 0.0 then 1 else if x < 0.0 then -1 else 0 }

  function RelativeEffect(groupMedian: real, comparisonMedian: real): Option<real>
  {
    if comparisonMedian == 0.0 then None else Some((groupMedian - comparisonMedian) / Abs(comparisonMedian))
  }

  /** The effect is the difference in units of the comparison's median, with the sign of the difference. */
  lemma EffectMeans(g: real, c: real)
    requires c != 0.0
    ensures var e := RelativeEffect(g, c); e.Some? && e.value * Abs(c) == g - c && Sign(e.value) == Sign(g - c)
  {
    var e := RelativeEffect(g, c).value;
    assert e * Abs(c) == g - c;
    ScaledOrder(e, 0.0, Abs(c));
    ScaledOrder(0.0, e, Abs(c));
  }

  datatype SensitivityResult = SensitivityResult(
    minimumRelativeEffect: Option<real>, preservesDirection: bool, removeBestWorstPreservesDirection: Option<bool>)

  // ----- Removing one value -----

  function RemoveAt(s: seq<real>, i: nat): (r: seq<real>)
    requires i < |s|
    ensures |r| == |s| - 1
  {
    s[..i] + s[i + 1..]
  }

  lemma RemoveAtValues(s: seq<real>, i: nat)
    requires i < |s|
    ensures multiset(RemoveAt(s, i)) == multiset(s) - multiset{s[i]}
  {
    assert s == s[..i] + [s[i]] + s[i + 1..];
  }

  lemma RemoveAtSorted(s: seq<real>, i: nat)
    requires i < |s| && Sorted(s)
    ensures Sorted(RemoveAt(s, i))
  {
  }

  /** Removing a value from the group removes the entry of equal value from the ascending order. */
  lemma RemovalCommutes(g: seq<real>, i: nat, r: nat)
    requires i < |g| && r < |g| && Sort(g)[r] == g[i]
    ensures Sort(RemoveAt(g, i)) == RemoveAt(Sort(g), r)
  {
    RemoveAtValues(g, i);
    RemoveAtValues(Sort(g), r);
    RemoveAtSorted(Sort(g), r);
    SortedUnique(Sort(RemoveAt(g, i)), RemoveAt(Sort(g), r));
  }

  /** The median of the group without its value at index `i`. */
  function Refit(g: seq<real>, i: nat): real
    requires |g| >= 2 && i < |g|
  {
    Median(RemoveAt(g, i)).value
  }

  function Refits(g: seq<real>): (r: seq<real>)
    requires |g| >= 2
    ensures |r| == |g| && forall i | 0 <= i < |g| :: r[i] == Refit(g, i)
  {
    seq(|g|, i requires 0 <= i < |g| => Refit(g, i))
  }

  // ----- The closed form -----

  /** The medians that removing one of the values of an ascending sequence can give. */
  function CentralRefits(s: seq<real>): seq<real>
    requires |s| >= 2
  {
    var k := |s| / 2;
    if |s| % 2 == 0 then [s[k], s[k - 1]]
    else [(s[k] + s[k + 1]) / 2.0, (s[k - 1] + s[k + 1]) / 2.0, (s[k - 1] + s[k]) / 2.0]
  }

  /** Which of them removing the entry of rank `r` gives. */
  function Which(n: nat, r: nat): nat
    requires 2 <= n
  {
    if n % 2 == 0 then (if r < n / 2 then 0 else 1)
    else if r < n / 2 then 0 else if r == n / 2 then 1 else 2
  }

  lemma MiddleWithout(s: seq<real>, r: nat)
    requires |s| >= 2 && r < |s|
    ensures MiddleOf(RemoveAt(s, r)) == CentralRefits(s)[Which(|s|, r)]
  {
  }

  /** Every refit is central. */
  lemma RefitIsCentral(g: seq<real>, i: nat) returns (c: nat)
    requires |g| >= 2 && i < |g|
    ensures c < |CentralRefits(Sort(g))| && Refit(g, i) == CentralRefits(Sort(g))[c]
  {
    SameMembers(g, Sort(g), g[i]);
    var r: nat :| r < |g| && Sort(g)[r] == g[i];
    RemovalCommutes(g, i, r);
    MiddleWithout(Sort(g), r);
    c := Which(|g|, r);
  }

  /** Every central value is a refit. */
  lemma CentralIsRefit(g: seq<real>, c: nat) returns (i: nat)
    requires |g| >= 2 && c < |CentralRefits(Sort(g))|
    ensures i < |g| && Refit(g, i) == CentralRefits(Sort(g))[c]
  {
    var n := |g|;
    var r := if c == 0 then 0 else if n % 2 == 1 && c == 1 then n / 2 else n - 1;
    assert Which(n, r) == c;
    SameMembers(g, Sort(g), Sort(g)[r]);
    i :| 0 <= i < |g| && g[i] == Sort(g)[r];
    RemovalCommutes(g, i, r);
    MiddleWithout(Sort(g), r);
  }

  lemma MiddleWithoutEnds(s: seq<real>)
    requires |s| >= 3
    ensures MiddleOf(s[1..|s| - 1]) == MiddleOf(s)
    ensures Sorted(s) ==> Sorted(s[1..|s| - 1])
  {
  }

  /** Dropping the smallest and the largest value leaves the median where it was. */
  lemma TrimmingKeepsMedian(g: seq<real>, sorted: seq<real>, trimmed: seq<real>)
    requires |g| >= 3 && sorted == Sort(g) && trimmed == sorted[1..|sorted| - 1]
    ensures Median(trimmed) == Median(g)
  {
    TrimmedMiddle(sorted, trimmed);
  }

  lemma TrimmedMiddle(s: seq<real>, trimmed: seq<real>)
    requires |s| >= 3 && Sorted(s) && trimmed == s[1..|s| - 1]
    ensures Median(trimmed) == Some(MiddleOf(s))
  {
    MiddleWithoutEnds(s);
    SliceSorted(s);
    MedianOfSorted(trimmed);
  }

  lemma SliceSorted(s: seq<real>)
    requires |s| >= 3 && Sorted(s)
    ensures Sorted(s[1..|s| - 1])
  {
  }

  lemma MedianOfSorted(s: seq<real>)
    requires s != [] && Sorted(s)
    ensures Median(s) == Some(MiddleOf(s))
  {
    SortOfSorted(s);
  }

  function Min(x: real, y: real): real { if x <= y then x else y }

  /** The least value of `f` over a sequence. */
  function Least(values: seq<real>, f: real -> real): (m: real)
    requires values != []
    ensures forall k | 0 <= k < |values| :: m <= f(values[k])
    ensures exists k | 0 <= k < |values| :: m == f(values[k])
  {
    var last := |values| - 1;
    if last == 0 then f(values[0])
    else
      var init := values[..last];
      var rest := Least(init, f);
      assert forall k | 0 <= k < last :: values[k] == init[k];
      assert exists k | 0 <= k < |values| :: rest == f(values[k]) by {
        var k :| 0 <= k < last && rest == f(init[k]);
        assert values[k] == init[k];
      }
      Min(rest, f(values[last]))
  }

  lemma LeastOfSameValues(a: seq<real>, b: seq<real>, f: real -> real)
    requires a != [] && b != [] && forall v :: v in a <==> v in b
    ensures Least(a, f) == Least(b, f)
  {
    var i :| 0 <= i < |a| && Least(a, f) == f(a[i]);
    var k :| 0 <= k < |b| && Least(b, f) == f(b[k]);
    var v, w := a[i], b[k];
    assert v in a && v in b && w in b && w in a;
  }

  predicate AllKeepSign(values: seq<real>, c: real, sign: int)
  {
    forall v | v in values :: Sign(v - c) == sign
  }

  /** The distance of a refit from the comparison median, relative to it. */
  function MagnitudeFrom(c: real): real -> real
    requires c != 0.0
  {
    v => Abs((v - c) / Abs(c))
  }

  function LeastMagnitude(values: seq<real>, c: real): Option<real>
  {
    if values == [] || c == 0.0 then None else Some(Least(values, MagnitudeFrom(c)))
  }

  /** The result of the leave-one-out loop, read off at most three central order statistics of the group. */
  function ClosedForm(group: seq<real>, comparison: seq<real>): SensitivityResult
  {
    if comparison == [] || |group| < 2 then SensitivityResult(None, false, None)
    else
      var c, m := Median(comparison).value, Median(group).value;
      var central := CentralRefits(Sort(group));
      SensitivityResult(LeastMagnitude(central, c), AllKeepSign(central, c, Sign(m - c)), if |group| >= 4 then Some(true) else None)
  }

  /** The refits and the central values are the same values. */
  lemma RefitsAreCentral(g: seq<real>)
    requires |g| >= 2
    ensures forall v :: v in Refits(g) <==> v in CentralRefits(Sort(g))
  {
    var central := CentralRefits(Sort(g));
    forall v | v in Refits(g) ensures v in central {
      var i: nat :| i < |g| && Refits(g)[i] == v;
      var k := RefitIsCentral(g, i);
    }
    forall v | v in central ensures v in Refits(g) {
      var k: nat :| k < |central| && central[k] == v;
      var i := CentralIsRefit(g, k);
      assert Refits(g)[i] == v;
    }
  }

  lemma RefitsAgree(g: seq<real>, c: real, sign: int)
    requires |g| >= 2
    ensures LeastMagnitude(Refits(g), c) == LeastMagnitude(CentralRefits(Sort(g)), c)
    ensures AllKeepSign(Refits(g), c, sign) == AllKeepSign(CentralRefits(Sort(g)), c, sign)
  {
    RefitsAreCentral(g);
    SameValuesAgree(Refits(g), CentralRefits(Sort(g)), c, sign);
  }

  lemma SameValuesAgree(a: seq<real>, b: seq<real>, c: real, sign: int)
    requires a != [] && b != [] && forall v :: v in a <==> v in b
    ensures LeastMagnitude(a, c) == LeastMagnitude(b, c) && AllKeepSign(a, c, sign) == AllKeepSign(b, c, sign)
  {
    if c != 0.0 { LeastOfSameValues(a, b, MagnitudeFrom(c)); }
  }

  /** One more refit. */
  lemma StepAgrees(refits: seq<real>, index: nat, c: real, sign: int)
    requires index < |refits|
    ensures AllKeepSign(refits[..index + 1], c, sign) <==> AllKeepSign(refits[..index], c, sign) && Sign(refits[index] - c) == sign
    ensures c != 0.0 ==>
              LeastMagnitude(refits[..index + 1], c) ==
              var m := MagnitudeFrom(c)(refits[index]);
              Some(if index == 0 then m else Min(LeastMagnitude(refits[..index], c).value, m))
  {
    assert refits[..index + 1] == refits[..index] + [refits[index]];
    assert refits[..index + 1][..index] == refits[..index];
    var before, after := refits[..index], refits[..index + 1];
    assert after[index] in after;
    if AllKeepSign(after, c, sign) {
      forall v | v in before ensures Sign(v - c) == sign {
        assert v in after;
      }
    }
  }

  /** `refits` lists the medians of the group without each of its values. */
  ghost predicate ListsRefits(refits: seq<real>, group: seq<real>)
    requires |group| >= 2
  {
    |refits| == |group| && forall i: nat {:trigger Refit(group, i)} :: i < |group| ==> refits[i] == Refit(group, i)
  }

  method RefitAt(group: seq<real>, index: nat, ghost refits: seq<real>) returns (refit: real)
    requires |group| >= 2 && index < |group| && ListsRefits(refits, group)
    ensures refit == refits[index]
  {
    var withoutOne := RemoveAt(group, index);
    refit := Median(withoutOne).value;
    assert refit == Refit(group, index);
  }

  method MagnitudeOf(refit: real, c: real) returns (magnitude: real)
    requires c != 0.0
    ensures magnitude == MagnitudeFrom(c)(refit)
  {
    var effect := RelativeEffect(refit, c);
    magnitude := Abs(effect.value);
  }

  /** The loop: the median without each group value in turn, its sign and its relative effect. */
  method LeaveOneOut(group: seq<real>, c: real, originalSign: int, ghost refits: seq<real>)
    returns (minimum: Option<real>, preservesDirection: bool)
    requires |group| >= 2 && ListsRefits(refits, group)
    ensures preservesDirection == AllKeepSign(refits, c, originalSign)
    ensures minimum == LeastMagnitude(refits, c)
  {
    preservesDirection := true;
    minimum := None;
    for index := 0 to |group|
      invariant preservesDirection == AllKeepSign(refits[..index], c, originalSign)
      invariant minimum == LeastMagnitude(refits[..index], c)
    {
      var refit := RefitAt(group, index, refits);
      StepAgrees(refits, index, c, originalSign);
      if Sign(refit - c) != originalSign { preservesDirection := false; }
      if c != 0.0 {
        var magnitude := MagnitudeOf(refit, c);
        minimum := Some(if minimum.None? then magnitude else Min(minimum.value, magnitude));
      }
    }
    assert refits[..|group|] == refits;
  }

  /** The check on the group without its best and worst value: always passed when it is made. */
  method RemoveBestWorst(group: seq<real>, c: real, originalSign: int) returns (kept: Option<bool>)
    requires group != [] && originalSign == Sign(Median(group).value - c)
    ensures kept == if |group| >= 4 then Some(true) else None
  {
    kept := None;
    if |group| >= 4 {
      var sorted := Sort(group);
      var trimmed := sorted[1..|sorted| - 1];
      TrimmingKeepsMedian(group, sorted, trimmed);
      var trimmedMedian := Median(trimmed);
      kept := Some(trimmedMedian.Some? && Sign(trimmedMedian.value - c) == originalSign);
    }
  }

  /** Refits the effect without each group value in turn; the result is the closed form, whatever the order
      of the group. In particular the check without best and worst never fails when it is made. */
  method EvaluateSensitivity(comparison: seq<real>, group: seq<real>) returns (r: SensitivityResult)
    ensures r == ClosedForm(group, comparison)
  {
    var comparisonMedian, groupMedian := Median(comparison), Median(group);
    if comparisonMedian.None? || groupMedian.None? || |group| < 2 {
      return SensitivityResult(None, false, None);
    }
    var c := comparisonMedian.value;
    var originalSign := Sign(groupMedian.value - c);
    var minimum, preservesDirection := LeaveOneOut(group, c, originalSign, Refits(group));
    RefitsAgree(group, c, originalSign);
    var removeBestWorst := RemoveBestWorst(group, c, originalSign);
    return SensitivityResult(minimum, preservesDirection, removeBestWorst);
  }
}
