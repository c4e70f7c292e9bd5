/** The share of a group's total that its largest value supplies. */
module TopContributor {
  import opened Options
  import opened OrderStatistics
  import opened Sensitivity

  function NonNegative(values: seq<real>): (r: seq<real>)
    ensures forall k | 0 <= k < |r| :: r[k] >= 0.0 && r[k] in values
  {
    if values == [] then [] else (if values[0] >= 0.0 then [values[0]] else []) + NonNegative(values[1..])
  }

  function Sum(values: seq<real>): real
  {
    if values == [] then 0.0 else values[0] + Sum(values[1..])
  }

  function Largest(values: seq<real>): (m: real)
    requires values != []
    ensures m in values && forall k | 0 <= k < |values| :: values[k] <= m
  {
    if |values| == 1 then values[0]
    else
      var rest := Largest(values[1..]);
      if values[0] >= rest then values[0] else rest
  }

  /** Values below zero are not contributions; a total of zero has no shares. */
  function TopContributorShare(values: seq<real>): Option<real>
  {
    var finite := NonNegative(values);
    if finite == [] || Sum(finite) <= 0.0 then None else Some(Largest(finite) / Sum(finite))
  }

  function Contribution(v: real): real { if v >= 0.0 then v else 0.0 }

  function Total(values: seq<real>): real { Sum(NonNegative(values)) }

  lemma {:induction false} TotalIsNonNegative(values: seq<real>)
    ensures 0.0 <= Total(values)
  {
    if values != [] {
      TotalIsNonNegative(values[1..]);
      TotalPrepend(values);
    }
  }

  lemma TotalPrepend(values: seq<real>)
    requires values != []
    ensures Total(values) == Contribution(values[0]) + Total(values[1..])
  {
    var rest := NonNegative(values[1..]);
    if values[0] >= 0.0 {
      assert NonNegative(values)[1..] == rest;
    } else {
      assert NonNegative(values) == rest;
    }
  }

  lemma RemoveLater(values: seq<real>, i: nat)
    requires 0 < i < |values|
    ensures RemoveAt(values, i)[0] == values[0] && RemoveAt(values, i)[1..] == RemoveAt(values[1..], i - 1)
  {
  }

  /** A total is one contribution and the total of the others. */
  lemma {:induction false} TotalWithout(values: seq<real>, i: nat)
    requires i < |values|
    ensures Total(values) == Contribution(values[i]) + Total(RemoveAt(values, i))
  {
    TotalPrepend(values);
    if i == 0 {
      assert RemoveAt(values, 0) == values[1..];
    } else {
      TotalWithout(values[1..], i - 1);
      RemoveLater(values, i);
      TotalPrepend(RemoveAt(values, i));
    }
  }

  lemma {:induction false} KeepsNonNegative(values: seq<real>, i: nat)
    requires i < |values| && values[i] >= 0.0
    ensures values[i] in NonNegative(values)
  {
    if i > 0 { KeepsNonNegative(values[1..], i - 1); }
  }

  /** Some value outweighs all the other contributions together. */
  predicate OneOutweighsTheRest(values: seq<real>)
  {
    exists i | 0 <= i < |values| :: values[i] > Total(RemoveAt(values, i))
  }

  /** The share is above one half exactly when one post outweighs all the others together. */
  lemma ShareAboveHalf(values: seq<real>)
    ensures TopContributorShare(values).Some? && TopContributorShare(values).value > 0.5 <==> OneOutweighsTheRest(values)
  {
    var finite, total := NonNegative(values), Total(values);
    if TopContributorShare(values).Some? && TopContributorShare(values).value > 0.5 {
      var top := Largest(finite);
      HalfOf(top, total);
      assert top in finite && top in values;
      var i: nat :| i < |values| && values[i] == top;
      TotalWithout(values, i);
      assert top >= 0.0;
    }
    if OneOutweighsTheRest(values) {
      var i: nat :| i < |values| && values[i] > Total(RemoveAt(values, i));
      TotalIsNonNegative(RemoveAt(values, i));
      TotalWithout(values, i);
      KeepsNonNegative(values, i);
      HalfOf(Largest(finite), total);
    }
  }

  lemma HalfOf(top: real, total: real)
    requires total > 0.0
    ensures top / total > 0.5 <==> top + top > total
  {
    var share := top / total;
    assert share * total == top;
    if share > 0.5 {
      assert (share - 0.5) * total > 0.0;
    } else {
      ProductNonNegative(0.5 - share, total);
      assert (0.5 - share) * total == 0.5 * total - top;
    }
  }

  /** The share is that of the largest contribution in the total of all. */
  lemma ShareIs(values: seq<real>) returns (i: nat)
    requires TopContributorShare(values).Some?
    ensures i < |values| && forall k | 0 <= k < |values| :: values[k] <= values[i]
    ensures 0.0 < Total(values) && TopContributorShare(values).value == values[i] / Total(values)
  {
    var top := Largest(NonNegative(values));
    LargestOfAll(values, top);
    i :| 0 <= i < |values| && values[i] == top;
  }

  lemma LargestOfAll(values: seq<real>, top: real)
    requires NonNegative(values) != [] && top == Largest(NonNegative(values))
    ensures (exists i | 0 <= i < |values| :: values[i] == top) && forall k | 0 <= k < |values| :: values[k] <= top
  {
    var finite := NonNegative(values);
    assert top in finite;
    var x :| 0 <= x < |finite| && finite[x] == top;
    assert finite[x] in values;
    forall k: nat | k < |values| ensures values[k] <= top {
      if values[k] >= 0.0 {
        KeepsNonNegative(values, k);
        var y :| 0 <= y < |finite| && finite[y] == values[k];
      }
    }
  }

  /** There is a share exactly when something was contributed. */
  lemma ShareWhenContributed(values: seq<real>)
    ensures TopContributorShare(values).Some? <==> exists i | 0 <= i < |values| :: values[i] > 0.0
  {
    if i: nat :| i < |values| && values[i] > 0.0 {
      TotalWithout(values, i);
      TotalIsNonNegative(RemoveAt(values, i));
      KeepsNonNegative(values, i);
    } else {
      NothingContributed(values);
    }
  }

  lemma {:induction false} NothingContributed(values: seq<real>)
    requires forall i | 0 <= i < |values| :: values[i] <= 0.0
    ensures Total(values) == 0.0
  {
    if values != [] {
      NothingContributed(values[1..]);
      TotalPrepend(values);
    }
  }
}
