/** Comparison cohorts: dropping collaborator copies, and counting why posts contribute or not. */
module Cohorts {
  import opened Options
  import opened SnapshotSelection
  import opened AnalyticsInputs

  // ----- Collaborator copies -----

  predicate HasMedia(posts: seq<PostRow>, media: string)
  {
    exists i | 0 <= i < |posts| :: posts[i].media == media
  }

  /** The first copy of every post. */
  function FirstCopies(posts: seq<PostRow>): (kept: seq<PostRow>)
    ensures |kept| <= |posts|
  {
    if posts == [] then []
    else
      var n := |posts| - 1;
      if HasMedia(posts[..n], posts[n].media) then FirstCopies(posts[..n]) else FirstCopies(posts[..n]) + [posts[n]]
  }

  predicate DistinctMedia(posts: seq<PostRow>)
  {
    forall i, j | 0 <= i < j < |posts| :: posts[i].media != posts[j].media
  }

  /** Every video is kept exactly once, through the first of its copies. */
  lemma {:induction false} EveryVideoOnce(posts: seq<PostRow>)
    ensures DistinctMedia(FirstCopies(posts))
    ensures forall media :: HasMedia(FirstCopies(posts), media) <==> HasMedia(posts, media)
    ensures forall i | 0 <= i < |posts| && !HasMedia(posts[..i], posts[i].media) :: posts[i] in FirstCopies(posts)
  {
    if posts != [] {
      var n := |posts| - 1;
      EveryVideoOnce(posts[..n]);
      var before, kept := FirstCopies(posts[..n]), FirstCopies(posts);
      forall media ensures HasMedia(kept, media) <==> HasMedia(posts, media) {
        AppendedMedia(posts, n, media);
        if kept != before {
          assert kept[..|before|] == before;
          AppendedMedia(kept, |before|, media);
        }
      }
      forall i | 0 <= i < |posts| && !HasMedia(posts[..i], posts[i].media) ensures posts[i] in kept {
        if i < n { assert posts[..n][..i] == posts[..i]; }
      }
    }
  }

  lemma AppendedMedia(posts: seq<PostRow>, n: nat, media: string)
    requires n + 1 == |posts|
    ensures HasMedia(posts, media) <==> HasMedia(posts[..n], media) || posts[n].media == media
  {
    assert forall i | 0 <= i < n :: posts[..n][i] == posts[i];
  }

  /** Nothing is dropped from posts of distinct videos, so deduplicating twice is deduplicating once. */
  lemma {:induction false} DistinctVideosStay(posts: seq<PostRow>)
    requires DistinctMedia(posts)
    ensures FirstCopies(posts) == posts
  {
    if posts != [] {
      var n := |posts| - 1;
      DistinctVideosStay(posts[..n]);
      assert posts == posts[..n] + [posts[n]];
    }
  }

  method DedupeCollaboratorPosts(posts: seq<PostRow>) returns (kept: seq<PostRow>)
    ensures kept == FirstCopies(posts) && DistinctMedia(kept)
  {
    var seen: set<string> := {};
    kept := [];
    for n := 0 to |posts|
      invariant kept == FirstCopies(posts[..n])
      invariant forall media :: media in seen <==> HasMedia(posts[..n], media)
    {
      assert posts[..n + 1][..n] == posts[..n];
      forall media ensures HasMedia(posts[..n + 1], media) <==> HasMedia(posts[..n], media) || posts[n].media == media {
        AppendedMedia(posts[..n + 1], n, media);
      }
      if posts[n].media !in seen {
        seen := seen + {posts[n].media};
        kept := kept + [posts[n]];
      }
    }
    assert posts[..|posts|] == posts;
    EveryVideoOnce(posts);
  }

  // ----- Counting a cohort -----

  datatype Member = Member(post: string, snapshot: nat, value: real)

  datatype Coverage = Coverage(eligible: nat, missingRatio: real, missingMetric: nat, missingSnapshot: nat, withValue: nat)

  type ValueOf = Snapshot -> Option<real>

  predicate DistinctPosts(posts: seq<string>)
  {
    forall i, j | 0 <= i < j < |posts| :: posts[i] != posts[j]
  }

  type Choice = string -> Option<Snapshot>

  /** The members of a cohort: the posts with a chosen snapshot that has the metric, in the cohort's order. */
  function MembersOf(posts: seq<string>, choice: Choice, valueOf: ValueOf): (m: seq<Member>)
    ensures |m| <= |posts|
  {
    if posts == [] then []
    else
      var n := |posts| - 1;
      var rest, chosen := MembersOf(posts[..n], choice, valueOf), choice(posts[n]);
      if chosen.Some? && valueOf(chosen.value).Some? then rest + [Member(posts[n], chosen.value.id, valueOf(chosen.value).value)] else rest
  }

  /** A member is a post of the cohort with the value of its chosen snapshot. */
  lemma {:induction false} MembersExactly(posts: seq<string>, choice: Choice, valueOf: ValueOf, m: Member)
    ensures m in MembersOf(posts, choice, valueOf) <==>
              m.post in posts && choice(m.post).Some? && choice(m.post).value.id == m.snapshot && valueOf(choice(m.post).value) == Some(m.value)
  {
    if posts != [] {
      var n := |posts| - 1;
      assert posts == posts[..n] + [posts[n]];
      MembersExactly(posts[..n], choice, valueOf, m);
    }
  }

  function Having(posts: seq<string>, has: string -> bool): (n: nat)
    ensures n <= |posts|
  {
    if posts == [] then 0 else Having(posts[..|posts| - 1], has) + if has(posts[|posts| - 1]) then 1 else 0
  }

  function IsObserved(choice: Choice): string -> bool { (p: string) => choice(p).Some? }

  /** How many posts have a snapshot in the window. */
  function Observed(posts: seq<string>, choice: Choice): nat { Having(posts, IsObserved(choice)) }

  lemma {:induction false} HavingCountsSet(posts: seq<string>, has: string -> bool, those: set<string>)
    requires DistinctPosts(posts) && forall p :: p in those <==> p in posts && has(p)
    ensures |those| == Having(posts, has)
  {
    if posts == [] {
      assert those == {};
    } else {
      var n := |posts| - 1;
      var last := posts[n];
      assert posts == posts[..n] + [last];
      HavingCountsSet(posts[..n], has, those - {last});
    }
  }

  lemma ChosenAreObserved(posts: seq<string>, choice: Choice, chosen: map<string, Snapshot>)
    requires DistinctPosts(posts) && IsChoice(chosen, choice) && forall p | choice(p).Some? :: p in posts
    ensures |chosen| == Observed(posts, choice)
  {
    forall p ensures p in chosen <==> choice(p).Some? {
      assert Lookup(chosen, p) == choice(p);
    }
    HavingCountsSet(posts, IsObserved(choice), chosen.Keys);
    assert |chosen| == |chosen.Keys|;
  }

  /** Reads the value of each post's chosen snapshot and counts what is missing. */
  method CountCohort(posts: seq<string>, snapshots: seq<Snapshot>, key: WindowKey, valueOf: ValueOf)
    returns (members: seq<Member>, missingMetric: nat, missingSnapshot: nat)
    requires DistinctPosts(posts) && forall s | s in snapshots :: s.post in posts
    ensures members == MembersOf(posts, Chooses(snapshots, key), valueOf)
    ensures missingSnapshot == |posts| - Observed(posts, Chooses(snapshots, key))
    ensures |members| + missingMetric + missingSnapshot == |posts|
  {
    ghost var choice := Chooses(snapshots, key);
    var chosen := SelectComparableSnapshots(snapshots, key);
    forall p | choice(p).Some? ensures p in posts {
      assert choice(p).value in OfPost(snapshots, p);
    }
    ChosenAreObserved(posts, choice, chosen);
    members, missingMetric := ReadMembers(posts, chosen, valueOf, choice);
    missingSnapshot := |posts| - |chosen|;
  }

  /** The snapshots read are those of the cohort's posts. Every eligible post is counted once: it has a value,
      lacks the metric, or lacks a snapshot. */
  method LoadCohort(posts: seq<string>, snapshots: seq<Snapshot>, key: WindowKey, valueOf: ValueOf)
    returns (members: seq<Member>, coverage: Coverage)
    requires DistinctPosts(posts) && forall s | s in snapshots :: s.post in posts
    ensures members == MembersOf(posts, Chooses(snapshots, key), valueOf)
    ensures coverage.eligible == |posts| && coverage.withValue == |members|
    ensures coverage.missingSnapshot == |posts| - Observed(posts, Chooses(snapshots, key))
    ensures coverage.withValue + coverage.missingMetric + coverage.missingSnapshot == coverage.eligible
    ensures coverage == SummariseCoverage(|posts|, coverage.missingMetric, coverage.missingSnapshot, |members|)
  {
    var missingMetric, missingSnapshot;
    members, missingMetric, missingSnapshot := CountCohort(posts, snapshots, key, valueOf);
    coverage := SummariseCoverage(|posts|, missingMetric, missingSnapshot, |members|);
  }

  function MissingShare(missing: nat, eligible: nat): (r: real)
    ensures missing <= eligible ==> 0.0 <= r <= 1.0
  {
    if 0 < eligible && missing <= eligible then
      RatioInUnit(missing as real, eligible as real);
      missing as real / eligible as real
    else if eligible == 0 then 0.0
    else missing as real / eligible as real
  }

  function SummariseCoverage(eligible: nat, missingMetric: nat, missingSnapshot: nat, withValue: nat): Coverage
  {
    Coverage(eligible, MissingShare(missingSnapshot + missingMetric, eligible), missingMetric, missingSnapshot, withValue)
  }

  /** When every eligible post is counted once, the ratio is the share of them that has no value. */
  lemma RatioIsShareWithoutValue(eligible: nat, missingMetric: nat, missingSnapshot: nat, withValue: nat)
    requires withValue + missingMetric + missingSnapshot == eligible
    ensures SummariseCoverage(eligible, missingMetric, missingSnapshot, withValue).missingRatio
            == if eligible == 0 then 0.0 else (eligible - withValue) as real / eligible as real
    ensures 0.0 <= SummariseCoverage(eligible, missingMetric, missingSnapshot, withValue).missingRatio <= 1.0
  {
    assert missingSnapshot + missingMetric == eligible - withValue;
  }

  lemma RatioInUnit(part: real, whole: real)
    requires 0.0 <= part <= whole && whole > 0.0
    ensures 0.0 <= part / whole <= 1.0
  {
  }

  method ReadMembers(posts: seq<string>, chosen: map<string, Snapshot>, valueOf: ValueOf, ghost choice: Choice)
    returns (members: seq<Member>, missingMetric: nat)
    requires IsChoice(chosen, choice)
    ensures members == MembersOf(posts, choice, valueOf) && |members| + missingMetric == Observed(posts, choice)
  {
    members, missingMetric := [], 0;
    for n := 0 to |posts|
      invariant members == MembersOf(posts[..n], choice, valueOf) && |members| + missingMetric == Observed(posts[..n], choice)
    {
      assert posts[..n + 1][..n] == posts[..n];
      var selected := Lookup(chosen, posts[n]);
      if selected.Some? {
        var value := valueOf(selected.value);
        if value.None? {
          missingMetric := missingMetric + 1;
        } else {
          members := members + [Member(posts[n], selected.value.id, value.value)];
        }
      }
    }
    assert posts[..|posts|] == posts;
  }
}
