/** The Benjamini-Hochberg step-up procedure and its declarative form. */
module BenjaminiHochberg {
  import opened OrderStatistics

  // ----- Counting values up to a bound -----

  function CountAtMost(p: seq<real>, t: real): (c: nat)
    ensures c <= |p|
  {
    if p == [] then 0 else CountAtMost(p[1..], t) + (if p[0] <= t then 1 else 0)
  }

  lemma {:induction false} CountInserted(x: real, s: seq<real>, t: real)
    requires Sorted(s)
    ensures CountAtMost(Insert(x, s), t) == CountAtMost(s, t) + (if x <= t then 1 else 0)
  {
    if s != [] && s[0] < x {
      CountInserted(x, s[1..], t);
      assert Insert(x, s)[1..] == Insert(x, s[1..]);
    } else {
      assert Insert(x, s)[1..] == s;
    }
  }

  lemma {:induction false} CountSorted(p: seq<real>, t: real)
    ensures CountAtMost(p, t) == CountAtMost(Sort(p), t)
  {
    if p != [] {
      CountSorted(p[1..], t);
      CountInserted(p[0], Sort(p[1..]), t);
    }
  }

  /** The count depends on the values only, not on their order. */
  lemma CountIgnoresOrder(p: seq<real>, q: seq<real>, t: real)
    requires multiset(p) == multiset(q)
    ensures CountAtMost(p, t) == CountAtMost(q, t) && |p| == |q|
  {
    CountSorted(p, t);
    CountSorted(q, t);
    SortIgnoresOrder(p, q);
    assert |Sort(p)| == |Sort(q)|;
  }

  /** In an ascending sequence the values up to a bound are a prefix, and the count is its length. */
  lemma {:induction false} CountInSorted(s: seq<real>, t: real, r: nat)
    requires Sorted(s) && r < |s|
    ensures r < CountAtMost(s, t) <==> s[r] <= t
  {
    if s[0] <= t {
      if r > 0 { CountInSorted(s[1..], t, r - 1); }
    } else {
      NoneCounted(s, t);
    }
  }

  lemma {:induction false} NoneCounted(s: seq<real>, t: real)
    requires forall i | 0 <= i < |s| :: s[i] > t
    ensures CountAtMost(s, t) == 0
  {
    if s != [] { NoneCounted(s[1..], t); }
  }

  lemma {:induction false} CountPointwise(p: seq<real>, q: seq<real>, t: real, u: real)
    requires |p| == |q| && forall i | 0 <= i < |p| :: p[i] <= t ==> q[i] <= u
    ensures CountAtMost(p, t) <= CountAtMost(q, u)
  {
    if p != [] { CountPointwise(p[1..], q[1..], t, u); }
  }

  function CountBelow(p: seq<real>, t: real): (c: nat)
    ensures c <= |p|
  {
    if p == [] then 0 else CountBelow(p[1..], t) + (if p[0] < t then 1 else 0)
  }

  lemma {:induction false} BelowInserted(x: real, s: seq<real>, t: real)
    requires Sorted(s)
    ensures CountBelow(Insert(x, s), t) == CountBelow(s, t) + (if x < t then 1 else 0)
  {
    if s != [] && s[0] < x {
      BelowInserted(x, s[1..], t);
      assert Insert(x, s)[1..] == Insert(x, s[1..]);
    } else {
      assert Insert(x, s)[1..] == s;
    }
  }

  lemma {:induction false} BelowSorted(p: seq<real>, t: real)
    ensures CountBelow(p, t) == CountBelow(Sort(p), t)
  {
    if p != [] {
      BelowSorted(p[1..], t);
      BelowInserted(p[0], Sort(p[1..]), t);
    }
  }

  /** In an ascending sequence the values below a bound are a prefix, and the count is its length. */
  lemma {:induction false} BelowInSorted(s: seq<real>, t: real, r: nat)
    requires Sorted(s) && r < |s|
    ensures r < CountBelow(s, t) <==> s[r] < t
  {
    if s[0] < t {
      if r > 0 { BelowInSorted(s[1..], t, r - 1); }
    } else {
      NoneBelow(s, t);
    }
  }

  lemma {:induction false} NoneBelow(s: seq<real>, t: real)
    requires forall i | 0 <= i < |s| :: s[i] >= t
    ensures CountBelow(s, t) == 0
  {
    if s != [] { NoneBelow(s[1..], t); }
  }

  // ----- The declarative form -----

  /** The line a p-value has to stay under when `c` of the `m` values are no larger. */
  function Line(m: nat, rate: real): nat -> real
    requires 0 < m
  {
    c => (c as real / m as real) * rate
  }

  predicate UnderLine(p: seq<real>, line: nat -> real, t: real)
  {
    t <= line(CountAtMost(p, t))
  }

  /** Some value at least `v` lies under the line. */
  predicate Reaches(p: seq<real>, line: nat -> real, v: real)
  {
    exists j | 0 <= j < |p| :: v <= p[j] && UnderLine(p, line, p[j])
  }

  /** Hypothesis `i` survives when some `j` has p_j >= p_i and p_j <= (k / m) * rate, where `k` is the number
      of p-values up to p_j. */
  predicate Survives(p: seq<real>, rate: real, i: nat)
    requires i < |p|
  {
    Reaches(p, Line(|p|, rate), p[i])
  }

  ghost predicate Rising(line: nat -> real)
  {
    forall c: nat, d: nat | c <= d :: line(c) <= line(d)
  }

  lemma LineRises(m: nat, rate: real)
    requires 0 < m && 0.0 <= rate
    ensures Rising(Line(m, rate))
  {
    var line := Line(m, rate);
    forall c: nat, d: nat | c <= d ensures line(c) <= line(d) {
      ProductNonNegative((d - c) as real / m as real, rate);
      assert (d - c) as real / m as real == d as real / m as real - c as real / m as real;
    }
  }

  /** Verdicts follow the p-values through any reordering. */
  lemma SurvivalIgnoresOrder(p: seq<real>, q: seq<real>, rate: real, i: nat, k: nat)
    requires multiset(p) == multiset(q) && i < |p| && k < |q| && p[i] == q[k]
    ensures Survives(p, rate, i) <==> Survives(q, rate, k)
  {
    CountIgnoresOrder(p, q, p[i]);
    if Survives(p, rate, i) { ReachesIgnoresOrder(p, q, Line(|p|, rate), p[i]); }
    if Survives(q, rate, k) { ReachesIgnoresOrder(q, p, Line(|p|, rate), p[i]); }
  }

  lemma ReachesIgnoresOrder(p: seq<real>, q: seq<real>, line: nat -> real, v: real)
    requires multiset(p) == multiset(q) && Reaches(p, line, v)
    ensures Reaches(q, line, v)
  {
    var j :| 0 <= j < |p| && v <= p[j] && UnderLine(p, line, p[j]);
    var t := p[j];
    CountIgnoresOrder(p, q, t);
    SameMembers(p, q, t);
    var l :| 0 <= l < |q| && q[l] == t;
  }

  /** A smaller or equal p-value does at least as well; equal ones share their verdict. */
  lemma SurvivalIsDownwardClosed(p: seq<real>, rate: real, i: nat, k: nat)
    requires i < |p| && k < |p| && p[i] <= p[k] && Survives(p, rate, k)
    ensures Survives(p, rate, i)
  {
    var line := Line(|p|, rate);
    var j :| 0 <= j < |p| && p[k] <= p[j] && UnderLine(p, line, p[j]);
  }

  lemma SurvivalGrowsWithRate(p: seq<real>, rate: real, larger: real, i: nat)
    requires i < |p| && rate <= larger && Survives(p, rate, i)
    ensures Survives(p, larger, i)
  {
    var j :| 0 <= j < |p| && p[i] <= p[j] && UnderLine(p, Line(|p|, rate), p[j]);
    LineGrowsWithRate(|p|, rate, larger, CountAtMost(p, p[j]));
    assert UnderLine(p, Line(|p|, larger), p[j]);
  }

  lemma LineGrowsWithRate(m: nat, rate: real, larger: real, c: nat)
    requires 0 < m && rate <= larger
    ensures Line(m, rate)(c) <= Line(m, larger)(c)
  {
    var share := c as real / m as real;
    ProductNonNegative(share, larger - rate);
    assert share * larger - share * rate == share * (larger - rate);
  }

  /** An index of the greatest value among those up to a bound, when there is one. */
  lemma GreatestUpTo(q: seq<real>, t: real, i: nat) returns (j: nat)
    requires i < |q| && q[i] <= t
    ensures j < |q| && q[j] <= t && forall l | 0 <= l < |q| && q[l] <= t :: q[l] <= q[j]
  {
    j := i;
    var n := 0;
    while n < |q|
      invariant 0 <= n <= |q| && j < |q| && q[j] <= t
      invariant forall l | 0 <= l < n && q[l] <= t :: q[l] <= q[j]
    {
      if q[n] <= t && q[j] < q[n] { j := n; }
      n := n + 1;
    }
  }

  /** Lowering one p-value removes no survivor. */
  lemma LoweringKeepsSurvivors(p: seq<real>, rate: real, i: nat, k: nat, v: real)
    requires i < |p| && k < |p| && v <= p[k] && 0.0 <= rate && Survives(p, rate, i)
    ensures Survives(p[k := v], rate, i)
  {
    LineRises(|p|, rate);
    LoweringKeepsReach(p, p[k := v], Line(|p|, rate), i);
  }

  lemma LoweringKeepsReach(p: seq<real>, q: seq<real>, line: nat -> real, i: nat)
    requires Rising(line) && |p| == |q| && i < |p| && Reaches(p, line, p[i])
    requires forall l | 0 <= l < |p| :: q[l] <= p[l]
    ensures Reaches(q, line, q[i])
  {
    var w :| 0 <= w < |p| && p[i] <= p[w] && UnderLine(p, line, p[w]);
    var j := GreatestUpTo(q, p[w], i);
    forall l | 0 <= l < |p| && p[l] <= p[w] ensures q[l] <= q[j] {
    }
    CountPointwise(p, q, p[w], q[j]);
    assert UnderLine(q, line, q[j]);
  }

  /** When every p-value is within the rate, every hypothesis survives. */
  lemma AllWithinRateSurvive(p: seq<real>, rate: real, i: nat)
    requires i < |p| && forall l | 0 <= l < |p| :: p[l] <= rate
    ensures Survives(p, rate, i)
  {
    var j := GreatestUpTo(p, rate, i);
    AllCounted(p, p[j]);
    assert |p| as real / |p| as real == 1.0;
    assert Line(|p|, rate)(|p|) == rate;
    assert UnderLine(p, Line(|p|, rate), p[j]);
  }

  lemma {:induction false} AllCounted(s: seq<real>, t: real)
    requires forall i | 0 <= i < |s| :: s[i] <= t
    ensures CountAtMost(s, t) == |s|
  {
    if s != [] { AllCounted(s[1..], t); }
  }

  // ----- The procedure -----

  datatype Entry = Entry(index: nat, value: real)

  predicate Ascending(es: seq<Entry>)
  {
    forall a, b | 0 <= a <= b < |es| :: es[a].value <= es[b].value
  }

  function InsertEntry(e: Entry, es: seq<Entry>): (r: seq<Entry>)
    requires Ascending(es)
    ensures |r| == |es| + 1 && forall k | 0 <= k < |r| :: r[k] == e || r[k] in es
    ensures Ascending(r)
  {
    if es == [] then [e]
    else if e.value <= es[0].value then [e] + es
    else
      var rest := InsertEntry(e, es[1..]);
      assert forall k | 0 <= k < |rest| :: es[0].value <= rest[k].value;
      [es[0]] + rest
  }

  lemma {:induction false} InsertEntryKeeps(e: Entry, es: seq<Entry>)
    requires Ascending(es)
    ensures multiset(InsertEntry(e, es)) == multiset(es) + multiset{e}
  {
    if es != [] && es[0].value < e.value {
      InsertEntryKeeps(e, es[1..]);
      assert es == [es[0]] + es[1..];
    }
  }

  function SortEntries(es: seq<Entry>): (r: seq<Entry>)
    ensures Ascending(r) && |r| == |es| && multiset(r) == multiset(es)
  {
    if es == [] then []
    else
      assert es == [es[0]] + es[1..];
      InsertEntryKeeps(es[0], SortEntries(es[1..]));
      InsertEntry(es[0], SortEntries(es[1..]))
  }

  /** The entries of the p-values, each with the index it came from. */
  function Indexed(p: seq<real>): (es: seq<Entry>)
    ensures |es| == |p| && forall i | 0 <= i < |p| :: es[i] == Entry(i, p[i])
  {
    seq(|p|, i requires 0 <= i < |p| => Entry(i, p[i]))
  }

  function Values(es: seq<Entry>): (v: seq<real>)
    ensures |v| == |es| && forall i | 0 <= i < |es| :: v[i] == es[i].value
  {
    seq(|es|, i requires 0 <= i < |es| => es[i].value)
  }

  /** The sorted entries: every entry names an index and carries its value, every index has a rank, and the
      values are the p-values in ascending order. */
  ghost predicate Ranks(p: seq<real>, es: seq<Entry>)
  {
    && |es| == |p|
    && (forall r | 0 <= r < |es| :: es[r].index < |p| && es[r].value == p[es[r].index])
    && (forall i | 0 <= i < |p| :: HasRank(es, i))
    && Values(es) == Sort(p)
  }

  predicate HasRank(es: seq<Entry>, i: nat)
  {
    exists r | 0 <= r < |es| :: es[r].index == i
  }

  lemma SortedEntriesRank(p: seq<real>)
    ensures Ranks(p, SortEntries(Indexed(p)))
  {
    var es := SortEntries(Indexed(p));
    forall r | 0 <= r < |es| ensures es[r].index < |p| && es[r].value == p[es[r].index] {
      var e := es[r];
      assert e in multiset(es) && e in multiset(Indexed(p));
      assert e in Indexed(p);
    }
    forall i | 0 <= i < |p| ensures HasRank(es, i) {
      var e := Indexed(p)[i];
      assert e in multiset(Indexed(p)) && e in multiset(es);
      assert e in es;
    }
    SortedValues(Indexed(p));
    assert Values(Indexed(p)) == p;
    SortedUnique(Values(es), Sort(p));
  }

  /** Sorting the entries sorts their values. */
  lemma {:induction false} SortedValues(es: seq<Entry>)
    ensures Sorted(Values(SortEntries(es))) && multiset(Values(SortEntries(es))) == multiset(Values(es))
  {
    if es != [] {
      SortedValues(es[1..]);
      InsertedValues(es[0], SortEntries(es[1..]));
      ValuesPrepend(es[0], es[1..]);
      assert es == [es[0]] + es[1..];
    }
  }

  lemma {:induction false} InsertedValues(e: Entry, es: seq<Entry>)
    requires Ascending(es)
    ensures multiset(Values(InsertEntry(e, es))) == multiset(Values(es)) + multiset{e.value}
  {
    if es != [] && es[0].value < e.value {
      var tail := es[1..];
      InsertedValues(e, tail);
      assert InsertEntry(e, es) == [es[0]] + InsertEntry(e, tail);
      ValuesPrepend(es[0], tail);
      ValuesPrepend(es[0], InsertEntry(e, tail));
      assert [es[0]] + tail == es;
    } else {
      ValuesPrepend(e, es);
      assert InsertEntry(e, es) == [e] + es;
    }
  }

  lemma ValuesPrepend(e: Entry, es: seq<Entry>)
    ensures Values([e] + es) == [e.value] + Values(es)
    ensures multiset(Values([e] + es)) == multiset(Values(es)) + multiset{e.value}
  {
    assert Values([e] + es) == [e.value] + Values(es);
  }

  /** `largest` is the last rank below `upTo` whose value is under the line, or -1. */
  ghost predicate LastPassing(s: seq<real>, line: nat -> real, largest: int, upTo: nat)
    requires upTo <= |s|
  {
    && -1 <= largest < upTo
    && (largest >= 0 ==> s[largest] <= line(largest + 1))
    && forall r: nat | largest < r < upTo :: s[r] > line(r + 1)
  }

  /** A block of equal p-values whose first rank is under the line and whose last rank is not. */
  predicate Straddles(p: seq<real>, line: nat -> real, t: real)
  {
    t <= line(CountBelow(p, t) + 1) && !UnderLine(p, line, t)
  }

  predicate NoTieStraddles(p: seq<real>, rate: real)
  {
    p == [] || forall i | 0 <= i < |p| :: !Straddles(p, Line(|p|, rate), p[i])
  }

  /** The rate is not negative, or no p-value is. */
  predicate Meaningful(p: seq<real>, rate: real)
  {
    0.0 <= rate || forall i | 0 <= i < |p| :: 0.0 <= p[i]
  }

  /** The values up to the last passing one are exactly those at its rank or before. */
  lemma LastPassingCoversTies(s: seq<real>, line: nat -> real, largest: nat)
    requires Sorted(s) && Rising(line) && largest < |s| && LastPassing(s, line, largest, |s|)
    ensures CountAtMost(s, s[largest]) == largest + 1
  {
    var c := CountAtMost(s, s[largest]);
    CountInSorted(s, s[largest], largest);
    if c > largest + 1 {
      assert line(largest + 1) <= line(c);
      CountInSorted(s, s[largest], c - 1);
    }
  }

  /** A hypothesis survives exactly when its value is at most the last passing one. */
  lemma ThresholdForm(p: seq<real>, line: nat -> real, largest: int, i: nat)
    requires i < |p| && Rising(line) && LastPassing(Sort(p), line, largest, |p|)
    ensures Reaches(p, line, p[i]) <==> largest >= 0 && p[i] <= Sort(p)[largest]
  {
    if largest >= 0 && p[i] <= Sort(p)[largest] { LastPassingIsWitness(p, line, largest, p[i]); }
    if Reaches(p, line, p[i]) {
      var j :| 0 <= j < |p| && p[i] <= p[j] && UnderLine(p, line, p[j]);
      WitnessPasses(p, line, j, largest);
    }
  }

  lemma LastPassingIsWitness(p: seq<real>, line: nat -> real, largest: nat, v: real)
    requires Rising(line) && largest < |p| && LastPassing(Sort(p), line, largest, |p|) && v <= Sort(p)[largest]
    ensures Reaches(p, line, v)
  {
    var t := Sort(p)[largest];
    LastPassingCoversTies(Sort(p), line, largest);
    CountSorted(p, t);
    SameMembers(Sort(p), p, t);
    var j :| 0 <= j < |p| && p[j] == t;
    assert UnderLine(p, line, p[j]);
  }

  /** A witness of survival sits at a passing rank. */
  lemma WitnessPasses(p: seq<real>, line: nat -> real, j: nat, largest: int)
    requires j < |p| && UnderLine(p, line, p[j]) && LastPassing(Sort(p), line, largest, |p|)
    ensures largest >= 0 && p[j] <= Sort(p)[largest]
  {
    var s, t := Sort(p), p[j];
    SameMembers(p, s, t);
    var r: nat :| r < |s| && s[r] == t;
    CountSorted(p, t);
    var c := CountAtMost(s, t);
    CountInSorted(s, t, r);
    CountInSorted(s, t, c - 1);
    assert s[c - 1] <= line(c);
  }

  // ----- When the procedure meets the declarative form -----

  ghost predicate Falling(line: nat -> real)
  {
    forall c: nat, d: nat | c <= d :: line(d) <= line(c)
  }

  lemma LineFalls(m: nat, rate: real)
    requires 0 < m && rate <= 0.0
    ensures Falling(Line(m, rate))
  {
    var line := Line(m, rate);
    forall c: nat, d: nat | c <= d ensures line(d) <= line(c) {
      ProductNonNegative((d - c) as real / m as real, -rate);
      assert (d - c) as real / m as real == d as real / m as real - c as real / m as real;
    }
  }

  /** The ranks of a p-value run from the number of smaller ones up to the number of values up to it. */
  lemma RanksOfValue(p: seq<real>, t: real, r: nat)
    requires r < |p| && Sort(p)[r] == t
    ensures CountBelow(p, t) <= r < CountAtMost(p, t)
  {
    BelowSorted(p, t);
    CountSorted(p, t);
    BelowInSorted(Sort(p), t, r);
    CountInSorted(Sort(p), t, r);
  }

  lemma RankIs(p: seq<real>, t: real, r: nat)
    requires t in p && CountBelow(p, t) <= r < CountAtMost(p, t)
    ensures r < |p| && Sort(p)[r] == t
  {
    BelowSorted(p, t);
    CountSorted(p, t);
    BelowInSorted(Sort(p), t, r);
    CountInSorted(Sort(p), t, r);
  }

  /** The entries up to the last passing rank. */
  predicate Marked(es: seq<Entry>, largest: int, i: nat)
  {
    exists r | 0 <= r < largest + 1 && r < |es| :: es[r].index == i
  }

  /** Under a falling line, without a straddling tie, an entry is marked exactly when it survives. */
  lemma MarkedMeansSurvival(p: seq<real>, line: nat -> real, es: seq<Entry>, largest: int, i: nat)
    requires i < |p| && Falling(line) && Ranks(p, es) && LastPassing(Sort(p), line, largest, |p|)
    requires forall k | 0 <= k < |p| :: !Straddles(p, line, p[k])
    ensures Marked(es, largest, i) <==> Reaches(p, line, p[i])
  {
    if Marked(es, largest, i) {
      var r :| 0 <= r < largest + 1 && r < |es| && es[r].index == i;
      assert Values(es)[r] == es[r].value == p[i];
      LastPassingUnderLine(p, line, largest);
      var t := Sort(p)[largest];
      SameMembers(Sort(p), p, t);
      var j :| 0 <= j < |p| && p[j] == t;
    }
    if Reaches(p, line, p[i]) { SurvivorsAreMarked(p, line, es, largest, i); }
  }

  lemma LastPassingUnderLine(p: seq<real>, line: nat -> real, largest: nat)
    requires largest < |p| && Falling(line) && LastPassing(Sort(p), line, largest, |p|)
    requires forall k | 0 <= k < |p| :: !Straddles(p, line, p[k])
    ensures UnderLine(p, line, Sort(p)[largest])
  {
    var t := Sort(p)[largest];
    RanksOfValue(p, t, largest);
    SameMembers(Sort(p), p, t);
    var k :| 0 <= k < |p| && p[k] == t;
    assert line(largest + 1) <= line(CountBelow(p, t) + 1);
  }

  /** Whatever the line, a survivor is marked. */
  lemma SurvivorsAreMarked(p: seq<real>, line: nat -> real, es: seq<Entry>, largest: int, i: nat)
    requires i < |p| && Ranks(p, es) && LastPassing(Sort(p), line, largest, |p|) && Reaches(p, line, p[i])
    ensures Marked(es, largest, i)
  {
    var j: nat :| j < |p| && p[i] <= p[j] && UnderLine(p, line, p[j]);
    var s, t := Sort(p), p[j];
    CountSorted(p, t);
    SameMembers(p, s, t);
    var q: nat :| q < |s| && s[q] == t;
    CountInSorted(s, t, q);
    var c := CountAtMost(s, t);
    CountInSorted(s, t, c - 1);
    assert s[c - 1] <= line(c);
    assert HasRank(es, i);
    var r: nat :| r < |es| && es[r].index == i;
    assert Values(es)[r] == es[r].value == p[i];
    CountInSorted(s, t, r);
  }

  /** Under a falling line a straddling tie has a member that is marked and does not survive. */
  lemma StraddlingTieIsSeparated(p: seq<real>, line: nat -> real, es: seq<Entry>, largest: int, i: nat) returns (k: nat)
    requires i < |p| && Falling(line) && Ranks(p, es) && LastPassing(Sort(p), line, largest, |p|) && Straddles(p, line, p[i])
    ensures k < |p| && Marked(es, largest, k) && !Reaches(p, line, p[k])
  {
    var t := p[i];
    var b := CountBelow(p, t);
    ValueHasARank(p, i);
    RankIs(p, t, b);
    k := es[b].index;
    assert Values(es)[b] == es[b].value == p[k] == t;
    NothingAboveReaches(p, line, t);
  }

  lemma ValueHasARank(p: seq<real>, i: nat)
    requires i < |p|
    ensures CountBelow(p, p[i]) < CountAtMost(p, p[i])
  {
    SameMembers(p, Sort(p), p[i]);
    var r: nat :| r < |Sort(p)| && Sort(p)[r] == p[i];
    RanksOfValue(p, p[i], r);
  }

  lemma NothingAboveReaches(p: seq<real>, line: nat -> real, t: real)
    requires Falling(line) && !UnderLine(p, line, t)
    ensures !Reaches(p, line, t)
  {
    forall j | 0 <= j < |p| && t <= p[j] ensures !UnderLine(p, line, p[j]) {
      CountPointwise(p, p, t, p[j]);
      assert line(CountAtMost(p, p[j])) <= line(CountAtMost(p, t));
    }
  }

  /** Under a rising line no tie straddles. */
  lemma RisingNeverStraddles(p: seq<real>, line: nat -> real, i: nat)
    requires i < |p| && Rising(line)
    ensures !Straddles(p, line, p[i])
  {
    ValueHasARank(p, i);
    assert line(CountBelow(p, p[i]) + 1) <= line(CountAtMost(p, p[i]));
  }

  lemma LineIsNegative(m: nat, rate: real)
    requires 0 < m && rate < 0.0
    ensures forall c: nat | 0 < c :: Line(m, rate)(c) < 0.0
  {
    forall c: nat | 0 < c ensures Line(m, rate)(c) < 0.0 {
      var share := c as real / m as real;
      assert 0.0 < share && share * (-rate) > 0.0;
    }
  }

  /** With a rate or p-values that are not negative no tie straddles the line. */
  lemma MeaningfulNeverStraddles(p: seq<real>, rate: real)
    requires Meaningful(p, rate)
    ensures NoTieStraddles(p, rate)
  {
    if p != [] {
      if rate < 0.0 {
        LineIsNegative(|p|, rate);
      } else {
        LineRises(|p|, rate);
        forall i: nat | i < |p| ensures !Straddles(p, Line(|p|, rate), p[i]) {
          RisingNeverStraddles(p, Line(|p|, rate), i);
        }
      }
    }
  }

  /** The procedure and the declarative form give all the same verdicts exactly when no tie straddles the line. */
  lemma VerdictsExactly(p: seq<real>, rate: real, es: seq<Entry>, largest: int)
    requires p != [] && Ranks(p, es) && LastPassing(Sort(p), Line(|p|, rate), largest, |p|)
    ensures (forall i: nat | i < |p| :: Marked(es, largest, i) <==> Survives(p, rate, i)) <==> NoTieStraddles(p, rate)
  {
    var line := Line(|p|, rate);
    if 0.0 <= rate {
      LineRises(|p|, rate);
      MeaningfulNeverStraddles(p, rate);
      forall i: nat | i < |p| ensures Marked(es, largest, i) <==> Survives(p, rate, i) {
        MarkedReaches(p, line, es, largest, i);
      }
    } else {
      LineFalls(|p|, rate);
      if NoTieStraddles(p, rate) {
        forall i: nat | i < |p| ensures Marked(es, largest, i) <==> Survives(p, rate, i) {
          MarkedMeansSurvival(p, line, es, largest, i);
        }
      } else {
        var i: nat :| i < |p| && Straddles(p, line, p[i]);
        var k := StraddlingTieIsSeparated(p, line, es, largest, i);
      }
    }
  }

  lemma MarkedReaches(p: seq<real>, line: nat -> real, es: seq<Entry>, largest: int, i: nat)
    requires i < |p| && Rising(line) && Ranks(p, es) && LastPassing(Sort(p), line, largest, |p|)
    ensures Marked(es, largest, i) <==> Reaches(p, line, p[i])
  {
    ThresholdForm(p, line, largest, i);
    if Reaches(p, line, p[i]) { SurvivorsAreMarked(p, line, es, largest, i); }
    forall q | 0 <= q < largest + 1 && q < |es| && es[q].index == i ensures p[i] <= Sort(p)[largest] {
      assert es[q].value == Values(es)[q] == Sort(p)[q];
    }
  }

  // ----- The loops -----

  /** Sorts, finds the last rank under the line, and lets everything up to it survive. That is the declarative
      form exactly when no tie straddles the line. */
  method StepUp(p: seq<real>, rate: real) returns (survives: seq<bool>)
    ensures |survives| == |p|
    ensures (forall i | 0 <= i < |p| :: survives[i] <==> Survives(p, rate, i)) <==> NoTieStraddles(p, rate)
    ensures p != [] ==> exists largest ::
              LastPassing(Sort(p), Line(|p|, rate), largest, |p|)
              && forall i: nat | i < |p| :: survives[i] <==> Marked(SortEntries(Indexed(p)), largest, i)
  {
    if p == [] {
      return [];
    }
    var indexed := SortEntries(Indexed(p));
    SortedEntriesRank(p);
    var largest := LastRankUnderLine(indexed, rate);
    assert Values(indexed) == Sort(p);
    survives := MarkUpTo(indexed, largest, |p|);
    VerdictsExactly(p, rate, indexed, largest);
  }

  /** With a negative rate and negative p-values the procedure can separate a tie: of two equal values it keeps
      one, while neither survives declaratively. */
  method SeparateATie(p: seq<real>, rate: real) returns (survives: seq<bool>)
    requires IsTie(p) && rate == -1.5
    ensures survives == [true, false]
    ensures !Survives(p, rate, 0) && !Survives(p, rate, 1)
  {
    survives := StepUp(p, rate);
    ghost var largest :| LastPassing(Sort(p), Line(|p|, rate), largest, |p|)
                         && forall i: nat | i < |p| :: survives[i] <==> Marked(SortEntries(Indexed(p)), largest, i);
    LineOfTwo();
    TieDoesNotSurvive(p, Line(|p|, rate));
    SortedTie(p);
    OnlyFirstMarked(Sort(p), Line(|p|, rate), SortEntries(Indexed(p)), largest);
  }

  predicate InIndexOrder(es: seq<Entry>) { |es| == 2 && es[0].index == 0 && es[1].index == 1 }

  lemma SortedTie(p: seq<real>)
    requires IsTie(p)
    ensures IsTie(Sort(p)) && InIndexOrder(SortEntries(Indexed(p)))
  {
    SortOfSorted(p);
    TwoEntries(Indexed(p));
  }

  lemma LineOfTwo()
    ensures Line(2, -1.5)(1) == -0.75 && Line(2, -1.5)(2) == -1.5
  {
  }

  predicate IsTie(p: seq<real>) { |p| == 2 && p[0] == -1.0 && p[1] == -1.0 }

  lemma TieDoesNotSurvive(p: seq<real>, line: nat -> real)
    requires IsTie(p) && line(2) == -1.5
    ensures !Reaches(p, line, -1.0)
  {
    assert CountAtMost(p[1..], -1.0) == 1;
    assert CountAtMost(p, -1.0) == 2;
  }

  lemma TwoEntries(es: seq<Entry>)
    requires |es| == 2 && es[0].value <= es[1].value
    ensures SortEntries(es) == es
  {
    assert es[1..] == [es[1]] && [es[1]][1..] == [];
    assert SortEntries(es[1..]) == [es[1]];
    assert es == [es[0]] + [es[1]];
  }

  lemma OnlyFirstMarked(s: seq<real>, line: nat -> real, es: seq<Entry>, largest: int)
    requires IsTie(s) && line(1) == -0.75 && line(2) == -1.5 && LastPassing(s, line, largest, 2)
    requires InIndexOrder(es)
    ensures largest == 0 && Marked(es, largest, 0) && !Marked(es, largest, 1)
  {
    assert s[0] <= line(0 + 1) && s[1] > line(1 + 1);
  }

  method LastRankUnderLine(indexed: seq<Entry>, rate: real) returns (largest: int)
    requires indexed != []
    ensures LastPassing(Values(indexed), Line(|indexed|, rate), largest, |indexed|)
  {
    largest := -1;
    for rank := 0 to |indexed|
      invariant LastPassing(Values(indexed), Line(|indexed|, rate), largest, rank)
    {
      var bound := ((rank + 1) as real / |indexed| as real) * rate;
      assert bound == Line(|indexed|, rate)(rank + 1);
      if indexed[rank].value <= bound { largest := rank; }
    }
  }

  method MarkUpTo(indexed: seq<Entry>, largest: int, m: nat) returns (survives: seq<bool>)
    requires -1 <= largest < |indexed| && forall r | 0 <= r < |indexed| :: indexed[r].index < m
    ensures |survives| == m
    ensures forall i: nat | i < m :: survives[i] <==> Marked(indexed, largest, i)
  {
    survives := seq(m, _ => false);
    for rank := 0 to largest + 1
      invariant |survives| == m
      invariant forall i: nat | i < m :: survives[i] <==> Marked(indexed, rank - 1, i)
    {
      survives := survives[indexed[rank].index := true];
    }
  }
}
