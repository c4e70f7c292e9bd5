/**
 Choosing one snapshot per post for an age window. Snapshot identifiers are numbered in the order their text
 sorts in.
 */
module SnapshotSelection {
  import opened Options

  datatype WindowKey = Import | Hour1 | Day1 | Day3 | Day7 | Day30 | Mature | Lifetime

  /** No target: the window names no moment. No maximum: it is unbounded. */
  datatype Window = Window(target: Option<int>, minimum: int, maximum: Option<int>)

  function WindowFor(key: WindowKey): Window
  {
    match key
    case Import => Window(None, 0, Some(1800))
    case Hour1 => Window(Some(3600), 1800, Some(7200))
    case Day1 => Window(Some(86400), 64800, Some(129600))
    case Day3 => Window(Some(259200), 216000, Some(345600))
    case Day7 => Window(Some(604800), 518400, Some(777600))
    case Day30 => Window(Some(2592000), 2160000, Some(3456000))
    case Mature => Window(None, 3456000, None)
    case Lifetime => Window(None, 0, None)
  }

  function Maturity(key: WindowKey): nat
  {
    match key
    case Import => 0
    case Hour1 => 1
    case Day1 => 2
    case Day3 => 3
    case Day7 => 4
    case Day30 => 5
    case Mature => 6
    case Lifetime => 7
  }

  datatype Snapshot = Snapshot(id: nat, post: string, age: int, capturedAt: int)

  predicate Within(s: Snapshot, window: Window)
  {
    window.minimum <= s.age && (window.maximum.Some? ==> s.age <= window.maximum.value)
  }

  // ----- The order of preference -----

  function Distance(x: int, y: int): nat { if x < y then y - x else x - y }

  /** What the comparison looks at, in order. */
  function Rank(s: Snapshot, target: Option<int>): (int, int, int, int)
  {
    if target.None? then (-s.age, s.capturedAt, s.id, 0) else (Distance(s.age, target.value), s.age, s.capturedAt, s.id)
  }

  predicate Less(a: (int, int, int, int), b: (int, int, int, int))
  {
    a.0 < b.0 || (a.0 == b.0 && (a.1 < b.1 || (a.1 == b.1 && (a.2 < b.2 || (a.2 == b.2 && a.3 < b.3)))))
  }

  predicate Before(a: Snapshot, b: Snapshot, target: Option<int>) { Less(Rank(a, target), Rank(b, target)) }

  /** The first entry of the stable sort: the earliest of those that nothing precedes. */
  function Preferred(s: seq<Snapshot>, target: Option<int>): (p: Snapshot)
    requires s != []
    ensures p in s && forall i | 0 <= i < |s| :: !Before(s[i], p, target)
  {
    if |s| == 1 then s[0]
    else
      var last, rest := s[|s| - 1], Preferred(s[..|s| - 1], target);
      assert forall i | 0 <= i < |s| - 1 :: s[i] == s[..|s| - 1][i];
      if Before(last, rest, target) then last else rest
  }

  function Eligible(s: seq<Snapshot>, window: Window): (r: seq<Snapshot>)
    ensures forall x :: x in r <==> x in s && Within(x, window)
  {
    if s == [] then []
    else
      var rest, last := Eligible(s[..|s| - 1], window), s[|s| - 1];
      assert s == s[..|s| - 1] + [last];
      if Within(last, window) then rest + [last] else rest
  }

  function SelectComparableSnapshot(candidates: seq<Snapshot>, key: WindowKey): (chosen: Option<Snapshot>)
    ensures chosen.None? <==> forall x | x in candidates :: !Within(x, WindowFor(key))
    ensures chosen.Some? ==> chosen.value in candidates && Within(chosen.value, WindowFor(key))
  {
    var eligible := Eligible(candidates, WindowFor(key));
    if eligible == [] then (assert forall x | x in candidates && Within(x, WindowFor(key)) :: x in eligible; None)
    else (assert eligible[0] in eligible; Some(Preferred(eligible, WindowFor(key).target)))
  }

  // ----- What the choice depends on -----

  predicate DistinctIds(s: seq<Snapshot>)
  {
    forall x, y | x in s && y in s && x.id == y.id :: x == y
  }

  /** The chosen snapshot is the only eligible one that no eligible one precedes. */
  lemma ChosenIsLeast(candidates: seq<Snapshot>, key: WindowKey, x: Snapshot)
    requires DistinctIds(candidates) && x in candidates && Within(x, WindowFor(key))
    ensures var chosen := SelectComparableSnapshot(candidates, key);
            chosen.Some? && (x == chosen.value || Before(chosen.value, x, WindowFor(key).target))
  {
    var window := WindowFor(key);
    var eligible := Eligible(candidates, window);
    assert x in eligible;
    var p := Preferred(eligible, window.target);
    assert p in eligible && p in candidates;
    var i :| 0 <= i < |eligible| && eligible[i] == x;
    assert !Before(x, p, window.target);
    if x.id == p.id { assert x == p; }
  }

  /** `a` is at least as close to `target` as `b`. */
  predicate AsClose(a: int, b: int, target: int)
  {
    (a >= target ==> a - target <= b - target || a - target <= target - b) && (a < target ==> target - a <= b - target || target - a <= target - b)
  }

  /** In a window with a target the chosen snapshot is the one taken closest to it; of two equally close the one at
      the lower age; of two of one age the one captured first, and then the one with the smaller identifier. */
  lemma ChosenIsClosest(candidates: seq<Snapshot>, key: WindowKey, target: int, x: Snapshot)
    requires DistinctIds(candidates) && x in candidates && Within(x, WindowFor(key)) && WindowFor(key).target == Some(target)
    ensures var c := SelectComparableSnapshot(candidates, key);
            && c.Some? && AsClose(c.value.age, x.age, target)
            && (AsClose(x.age, c.value.age, target) ==> c.value.age <= x.age)
            && (c.value.age == x.age ==> c.value.capturedAt <= x.capturedAt)
            && (c.value.age == x.age && c.value.capturedAt == x.capturedAt ==> c.value.id <= x.id)
  {
    ChosenIsLeast(candidates, key, x);
  }

  /** In a window without one it is the most mature; of one age the first captured, and then the smaller identifier. */
  lemma ChosenIsMostMature(candidates: seq<Snapshot>, key: WindowKey, x: Snapshot)
    requires DistinctIds(candidates) && x in candidates && Within(x, WindowFor(key)) && WindowFor(key).target.None?
    ensures var c := SelectComparableSnapshot(candidates, key);
            && c.Some? && x.age <= c.value.age
            && (c.value.age == x.age ==> c.value.capturedAt <= x.capturedAt)
            && (c.value.age == x.age && c.value.capturedAt == x.capturedAt ==> c.value.id <= x.id)
  {
    ChosenIsLeast(candidates, key, x);
  }

  /** The windows, in minutes, hours and days after publication. */
  lemma WindowsAre()
    ensures var minute, hour, day := 60, 3_600, 86_400;
            && WindowFor(Import) == Window(None, 0, Some(30 * minute))
            && WindowFor(Hour1) == Window(Some(hour), 30 * minute, Some(2 * hour))
            && WindowFor(Day1) == Window(Some(day), 18 * hour, Some(36 * hour))
            && WindowFor(Day3) == Window(Some(3 * day), 60 * hour, Some(4 * day))
            && WindowFor(Day7) == Window(Some(7 * day), 6 * day, Some(9 * day))
            && WindowFor(Day30) == Window(Some(30 * day), 25 * day, Some(40 * day))
            && WindowFor(Mature) == Window(None, 40 * day, None)
            && WindowFor(Lifetime) == Window(None, 0, None)
    ensures Maturity(Import) < Maturity(Hour1) < Maturity(Day1) < Maturity(Day3) < Maturity(Day7) < Maturity(Day30) < Maturity(Mature) < Maturity(Lifetime)
  {
  }

  /** The choice depends on which candidates there are, not on their order or repetition. */
  lemma SelectionIgnoresOrder(a: seq<Snapshot>, b: seq<Snapshot>, key: WindowKey)
    requires DistinctIds(a) && forall x :: x in a <==> x in b
    ensures SelectComparableSnapshot(a, key) == SelectComparableSnapshot(b, key)
  {
    var p, q := SelectComparableSnapshot(a, key), SelectComparableSnapshot(b, key);
    if p.Some? {
      assert p.value in b;
      ChosenIsLeast(b, key, p.value);
      ChosenIsLeast(a, key, q.value);
    }
  }

  /** For a post with a mature snapshot, reading all its snapshots chooses the same one. */
  lemma LifetimeAgreesWithMature(candidates: seq<Snapshot>)
    requires DistinctIds(candidates) && SelectComparableSnapshot(candidates, Mature).Some?
    ensures SelectComparableSnapshot(candidates, Lifetime) == SelectComparableSnapshot(candidates, Mature)
  {
    var m := SelectComparableSnapshot(candidates, Mature).value;
    ChosenIsLeast(candidates, Lifetime, m);
    var l := SelectComparableSnapshot(candidates, Lifetime).value;
    assert l.age >= m.age;
    ChosenIsLeast(candidates, Mature, l);
  }

  // ----- One snapshot per post -----

  function OfPost(s: seq<Snapshot>, post: string): (r: seq<Snapshot>)
    ensures forall x :: x in r <==> x in s && x.post == post
  {
    if s == [] then []
    else
      var rest, last := OfPost(s[..|s| - 1], post), s[|s| - 1];
      assert s == s[..|s| - 1] + [last];
      if last.post == post then rest + [last] else rest
  }

  /** The choice for one post. */
  function ChosenFor(candidates: seq<Snapshot>, key: WindowKey, post: string): Option<Snapshot>
  {
    SelectComparableSnapshot(OfPost(candidates, post), key)
  }

  function Lookup(selected: map<string, Snapshot>, post: string): Option<Snapshot>
  {
    if post in selected then Some(selected[post]) else None
  }

  function Chooses(candidates: seq<Snapshot>, key: WindowKey): string -> Option<Snapshot>
  {
    (p: string) => ChosenFor(candidates, key, p)
  }

  /** A map from each post that has a choice to that choice. */
  ghost predicate IsChoice(selected: map<string, Snapshot>, choice: string -> Option<Snapshot>)
  {
    forall p :: Lookup(selected, p) == choice(p)
  }

  method GroupByPost(candidates: seq<Snapshot>) returns (byPost: map<string, seq<Snapshot>>)
    ensures forall p :: p in byPost <==> OfPost(candidates, p) != []
    ensures forall p | p in byPost :: byPost[p] == OfPost(candidates, p)
  {
    byPost := map[];
    for n := 0 to |candidates|
      invariant forall p :: p in byPost <==> OfPost(candidates[..n], p) != []
      invariant forall p | p in byPost :: byPost[p] == OfPost(candidates[..n], p)
    {
      assert candidates[..n + 1][..n] == candidates[..n];
      var c := candidates[n];
      byPost := byPost[c.post := (if c.post in byPost then byPost[c.post] else []) + [c]];
    }
    assert candidates[..|candidates|] == candidates;
  }

  /** Applies the choice per post; posts with nothing in the window are absent. */
  method SelectComparableSnapshots(candidates: seq<Snapshot>, key: WindowKey) returns (selected: map<string, Snapshot>)
    ensures IsChoice(selected, Chooses(candidates, key))
  {
    var byPost := GroupByPost(candidates);
    selected := ChooseEach(byPost, key);
    forall p ensures Lookup(selected, p) == ChosenFor(candidates, key, p) {
      assert p in byPost || OfPost(candidates, p) == [];
    }
  }

  method ChooseEach(byPost: map<string, seq<Snapshot>>, key: WindowKey) returns (selected: map<string, Snapshot>)
    ensures forall p :: Lookup(selected, p) == if p in byPost then SelectComparableSnapshot(byPost[p], key) else None
  {
    selected := map[];
    var left := byPost.Keys;
    while left != {}
      invariant left <= byPost.Keys
      invariant forall p :: Lookup(selected, p) == if p in byPost && p !in left then SelectComparableSnapshot(byPost[p], key) else None
      decreases |left|
    {
      var p :| p in left;
      var chosen := SelectComparableSnapshot(byPost[p], key);
      if chosen.Some? { selected := selected[p := chosen.value]; }
      left := left - {p};
    }
  }
}
