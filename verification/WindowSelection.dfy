/** Choosing the age window a run publishes for. */
module WindowSelection {
  import opened Options
  import opened SnapshotSelection

  datatype Candidate = Candidate(key: WindowKey, posts: nat)

  function Where(cs: seq<Candidate>, keep: Candidate -> bool): (r: seq<Candidate>)
    ensures forall c :: c in r <==> c in cs && keep(c)
  {
    if cs == [] then []
    else
      var rest := Where(cs[1..], keep);
      assert cs == [cs[0]] + cs[1..];
      if keep(cs[0]) then [cs[0]] + rest else rest
  }

  /** The winner of a reduction that replaces the winner by a better candidate. */
  function Winner(cs: seq<Candidate>, better: (Candidate, Candidate) -> bool): (w: Candidate)
    requires cs != []
  {
    if |cs| == 1 then cs[0]
    else
      var rest, last := Winner(cs[..|cs| - 1], better), cs[|cs| - 1];
      if better(last, rest) then last else rest
  }

  predicate MoreMature(a: Candidate, b: Candidate) { Maturity(a.key) > Maturity(b.key) }

  predicate Wider(a: Candidate, b: Candidate)
  {
    a.posts > b.posts || (a.posts == b.posts && Maturity(a.key) > Maturity(b.key))
  }

  function MostMature(cs: seq<Candidate>): Candidate requires cs != [] { Winner(cs, MoreMature) }

  function Widest(cs: seq<Candidate>): Candidate requires cs != [] { Winner(cs, Wider) }

  predicate Measures(c: Candidate) { c.posts > 0 }

  predicate Matches(c: Candidate) { c.posts > 0 && c.key != Lifetime }

  predicate IsLifetime(c: Candidate) { c.posts > 0 && c.key == Lifetime }

  function AtLeast(n: nat): Candidate -> bool { (c: Candidate) => Matches(c) && c.posts >= n }

  /** `adequate` is the coverage at which maturity leads, `usable` the posts a matched window needs at all. */
  function SelectAgeWindow(cs: seq<Candidate>, adequate: nat, usable: nat): Option<WindowKey>
  {
    var measured, matched := Where(cs, Measures), Where(cs, Matches);
    var covered, enough := Where(cs, AtLeast(adequate)), Where(cs, AtLeast(usable));
    var lifetime := Where(cs, IsLifetime);
    if measured == [] then None
    else if covered != [] then Some(MostMature(covered).key)
    else if enough != [] then Some(Widest(enough).key)
    else if lifetime == [] then Some(Widest(measured).key)
    else if matched != [] && Widest(matched).posts >= lifetime[0].posts then Some(Widest(matched).key)
    else Some(lifetime[0].key)
  }

  // ----- What the choice depends on -----

  predicate DistinctKeys(cs: seq<Candidate>)
  {
    forall c, d | c in cs && d in cs && c.key == d.key :: c == d
  }

  ghost predicate Orders(better: (Candidate, Candidate) -> bool)
  {
    && (forall a, b, c | better(a, b) && better(b, c) :: better(a, c))
    && (forall a: Candidate, b: Candidate | a.key != b.key :: better(a, b) || better(b, a))
    && (forall a, b | better(a, b) :: !better(b, a))
  }

  lemma BothOrder()
    ensures Orders(MoreMature) && Orders(Wider)
  {
  }

  /** The winner is in the list and better than everything else in it. */
  lemma {:induction false} WinnerIsBest(cs: seq<Candidate>, better: (Candidate, Candidate) -> bool)
    requires cs != [] && DistinctKeys(cs) && Orders(better)
    ensures var w := Winner(cs, better); w in cs && forall c | c in cs && c != w :: better(w, c)
  {
    var n := |cs| - 1;
    assert cs == cs[..n] + [cs[n]];
    if n > 0 {
      WinnerIsBest(cs[..n], better);
      var rest := Winner(cs[..n], better);
      assert rest in cs && cs[n] in cs;
    }
  }

  lemma SameWinner(a: seq<Candidate>, b: seq<Candidate>, better: (Candidate, Candidate) -> bool)
    requires a != [] && b != [] && DistinctKeys(a) && Orders(better) && forall c :: c in a <==> c in b
    ensures Winner(a, better) == Winner(b, better)
  {
    WinnerIsBest(a, better);
    WinnerIsBest(b, better);
  }

  lemma WhereIgnoresOrder(a: seq<Candidate>, b: seq<Candidate>, keep: Candidate -> bool)
    requires DistinctKeys(a) && forall c :: c in a <==> c in b
    ensures var p, q := Where(a, keep), Where(b, keep);
            && (p == [] <==> q == [])
            && (p != [] ==> Winner(p, MoreMature) == Winner(q, MoreMature) && Winner(p, Wider) == Winner(q, Wider))
  {
    var p, q := Where(a, keep), Where(b, keep);
    if p != [] { assert p[0] in p && p[0] in q; }
    if q != [] { assert q[0] in q && q[0] in p; }
    if p != [] {
      BothOrder();
      SameWinner(p, q, MoreMature);
      SameWinner(p, q, Wider);
    }
  }

  lemma {:induction false} NoneKept(cs: seq<Candidate>, keep: Candidate -> bool)
    requires forall c | c in cs :: !keep(c)
    ensures Where(cs, keep) == []
  {
    if cs != [] {
      assert cs == [cs[0]] + cs[1..];
      NoneKept(cs[1..], keep);
    }
  }

  lemma OneLifetime(a: seq<Candidate>, b: seq<Candidate>)
    requires DistinctKeys(a) && forall c :: c in a <==> c in b
    ensures var p, q := Where(a, IsLifetime), Where(b, IsLifetime);
            (p == [] <==> q == []) && (p != [] ==> p[0] == q[0] && p[0] in a && IsLifetime(p[0]))
  {
    WhereIgnoresOrder(a, b, IsLifetime);
    var p, q := Where(a, IsLifetime), Where(b, IsLifetime);
    if p != [] {
      assert p[0] in p && q[0] in q;
      assert p[0] in a && q[0] in a;
    }
  }

  /** The window depends on which candidates there are, not on their order or repetition. */
  lemma SelectionIgnoresOrder(a: seq<Candidate>, b: seq<Candidate>, adequate: nat, usable: nat)
    requires DistinctKeys(a) && forall c :: c in a <==> c in b
    ensures SelectAgeWindow(a, adequate, usable) == SelectAgeWindow(b, adequate, usable)
  {
    WhereIgnoresOrder(a, b, Measures);
    WhereIgnoresOrder(a, b, Matches);
    WhereIgnoresOrder(a, b, AtLeast(adequate));
    WhereIgnoresOrder(a, b, AtLeast(usable));
    OneLifetime(a, b);
  }

  /** The unmatched window is chosen exactly when it measures something, no matched window has enough posts to
      compare, and it sees strictly more posts than every one of them. */
  predicate OnlyLifetimeHelps(cs: seq<Candidate>, adequate: nat, usable: nat)
  {
    exists l | l in cs ::
      IsLifetime(l) && forall c | c in cs && Matches(c) :: c.posts < adequate && c.posts < usable && c.posts < l.posts
  }

  lemma LifetimeOnlyWhenItSeesMore(cs: seq<Candidate>, adequate: nat, usable: nat)
    requires DistinctKeys(cs)
    ensures SelectAgeWindow(cs, adequate, usable) == Some(Lifetime) <==> OnlyLifetimeHelps(cs, adequate, usable)
  {
    var matched, lifetime := Where(cs, Matches), Where(cs, IsLifetime);
    var covered, enough := Where(cs, AtLeast(adequate)), Where(cs, AtLeast(usable));
    BothOrder();
    OneLifetime(cs, cs);
    if OnlyLifetimeHelps(cs, adequate, usable) {
      var l :| l in cs && IsLifetime(l) && forall c | c in cs && Matches(c) :: c.posts < adequate && c.posts < usable && c.posts < l.posts;
      assert l in lifetime && l in Where(cs, Measures);
      assert lifetime[0] == l;
      NoneKept(cs, AtLeast(adequate));
      NoneKept(cs, AtLeast(usable));
      if matched != [] { WinnerIsBest(matched, Wider); }
    }
    if SelectAgeWindow(cs, adequate, usable) == Some(Lifetime) {
      WinnersMatch(cs, adequate, usable);
      if matched != [] { WinnerIsBest(matched, Wider); }
      forall c | c in cs && Matches(c) ensures c.posts < adequate && c.posts < usable && c.posts < lifetime[0].posts {
        assert c in matched && c !in covered && c !in enough;
      }
    }
  }

  /** When a matched window wins, it is not the unmatched one. */
  lemma WinnersMatch(cs: seq<Candidate>, adequate: nat, usable: nat)
    requires DistinctKeys(cs) && SelectAgeWindow(cs, adequate, usable) == Some(Lifetime)
    ensures Where(cs, AtLeast(adequate)) == [] && Where(cs, AtLeast(usable)) == [] && Where(cs, IsLifetime) != []
    ensures Where(cs, Matches) != [] ==> Widest(Where(cs, Matches)).posts < Where(cs, IsLifetime)[0].posts
  {
    var measured, matched := Where(cs, Measures), Where(cs, Matches);
    var covered, enough := Where(cs, AtLeast(adequate)), Where(cs, AtLeast(usable));
    BothOrder();
    if covered != [] { WinnerIsBest(covered, MoreMature); }
    if enough != [] { WinnerIsBest(enough, Wider); }
    if matched != [] { WinnerIsBest(matched, Wider); }
    if measured != [] {
      WinnerIsBest(measured, Wider);
      var w := Widest(measured);
      assert w in cs;
      if w.key == Lifetime { assert w in Where(cs, IsLifetime); }
    }
  }

  /** Past the coverage floor the most mature matched window wins; something is published whenever anything is measured. */
  lemma MaturityLeadsWhenCovered(cs: seq<Candidate>, adequate: nat, usable: nat)
    requires DistinctKeys(cs)
    ensures SelectAgeWindow(cs, adequate, usable).None? <==> forall c | c in cs :: !Measures(c)
    ensures forall c | c in cs && AtLeast(adequate)(c) ::
              var k := SelectAgeWindow(cs, adequate, usable); k.Some? && Maturity(c.key) <= Maturity(k.value) && k.value != Lifetime
  {
    var measured, covered := Where(cs, Measures), Where(cs, AtLeast(adequate));
    BothOrder();
    if measured != [] { assert measured[0] in measured; }
    forall c | c in cs && AtLeast(adequate)(c)
      ensures var k := SelectAgeWindow(cs, adequate, usable); k.Some? && Maturity(c.key) <= Maturity(k.value) && k.value != Lifetime {
      assert c in covered && c in measured;
      WinnerIsBest(covered, MoreMature);
    }
  }

  lemma {:induction false} WinnerIsMember(cs: seq<Candidate>, better: (Candidate, Candidate) -> bool)
    requires cs != []
    ensures Winner(cs, better) in cs
  {
    if |cs| > 1 { WinnerIsMember(cs[..|cs| - 1], better); }
  }

  /** The chosen window is one of those offered. */
  lemma ChosenIsOffered(cs: seq<Candidate>, adequate: nat, usable: nat)
    requires SelectAgeWindow(cs, adequate, usable).Some?
    ensures exists c | c in cs :: c.key == SelectAgeWindow(cs, adequate, usable).value
  {
    var measured, matched, lifetime := Where(cs, Measures), Where(cs, Matches), Where(cs, IsLifetime);
    var covered, enough := Where(cs, AtLeast(adequate)), Where(cs, AtLeast(usable));
    if covered != [] { WinnerIsMember(covered, MoreMature); }
    if enough != [] { WinnerIsMember(enough, Wider); }
    if measured != [] { WinnerIsMember(measured, Wider); }
    if matched != [] { WinnerIsMember(matched, Wider); }
    if lifetime != [] { assert lifetime[0] in lifetime; }
  }

  /** The candidate has the most posts of the matched windows and of those with as many is the most mature. */
  predicate HasMostPosts(cs: seq<Candidate>, c: Candidate)
  {
    c in cs && Matches(c) && forall d | d in cs && Matches(d) :: d.posts < c.posts || (d.posts == c.posts && Maturity(d.key) <= Maturity(c.key))
  }

  /** Short of the coverage floor, a matched window that is chosen has the most posts. */
  lemma WidestOtherwise(cs: seq<Candidate>, adequate: nat, usable: nat)
    requires DistinctKeys(cs) && forall c | c in cs && Matches(c) :: c.posts < adequate
    ensures var k := SelectAgeWindow(cs, adequate, usable);
            k.Some? && k.value != Lifetime ==> exists c | c in cs :: c.key == k.value && HasMostPosts(cs, c)
  {
    var measured, matched, enough := Where(cs, Measures), Where(cs, Matches), Where(cs, AtLeast(usable));
    var k := SelectAgeWindow(cs, adequate, usable);
    NoneKept(cs, AtLeast(adequate));
    if k.Some? && k.value != Lifetime {
      var c: Candidate;
      if enough != [] {
        WidestOfEnough(cs, usable);
        c := Widest(enough);
      } else if Where(cs, IsLifetime) == [] {
        OnlyMatched(cs);
        c := Widest(measured);
      } else {
        OneLifetime(cs, cs);
        WidestOfMatched(cs);
        c := Widest(matched);
      }
      assert c.key == k.value && HasMostPosts(cs, c);
    }
  }

  lemma WidestOfMatched(cs: seq<Candidate>)
    requires DistinctKeys(cs) && Where(cs, Matches) != []
    ensures HasMostPosts(cs, Widest(Where(cs, Matches)))
  {
    BothOrder();
    WinnerIsBest(Where(cs, Matches), Wider);
  }

  lemma WidestOfEnough(cs: seq<Candidate>, usable: nat)
    requires DistinctKeys(cs) && Where(cs, AtLeast(usable)) != []
    ensures HasMostPosts(cs, Widest(Where(cs, AtLeast(usable))))
  {
    var enough := Where(cs, AtLeast(usable));
    BothOrder();
    WinnerIsBest(enough, Wider);
    var w := Widest(enough);
    forall d | d in cs && Matches(d) ensures d.posts < w.posts || (d.posts == w.posts && Maturity(d.key) <= Maturity(w.key)) {
      if d.posts >= usable { assert d in enough; }
    }
  }

  lemma OnlyMatched(cs: seq<Candidate>)
    requires DistinctKeys(cs) && Where(cs, Measures) != [] && Where(cs, IsLifetime) == []
    ensures HasMostPosts(cs, Widest(Where(cs, Measures)))
  {
    var measured := Where(cs, Measures);
    BothOrder();
    WinnerIsBest(measured, Wider);
    var w := Widest(measured);
    assert w in cs && w !in Where(cs, IsLifetime);
    forall d | d in cs && Matches(d) ensures d.posts < w.posts || (d.posts == w.posts && Maturity(d.key) <= Maturity(w.key)) {
      assert d in measured;
    }
  }
}
