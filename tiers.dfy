/** Tier resolution: stored tiers are read as triples, sorted by threshold
    with a stable sort, and walked in ascending order; the tier that decides
    the amount is the last reached one in that order. */
module Tiers {
  import opened IncentiveModel

  /** A stored tier read as a triple: a two-field tier has percentage 0. */
  function NormaliseTier(s: StoredTier): (t: Tier)
    ensures t.threshold == s.threshold && t.premium == s.premium
    ensures s.Pair? ==> t.percentage == 0.0
    ensures s.Triple? ==> t.percentage == s.percentage
  {
    match s
    case Pair(threshold, premium) => Tier(threshold, premium, 0.0)
    case Triple(threshold, premium, percentage) => Tier(threshold, premium, percentage)
  }

  /** The normalised tier list, in stored order. */
  function Normalise(stored: seq<StoredTier>): (ts: seq<Tier>)
    ensures |ts| == |stored|
    ensures forall i :: 0 <= i < |stored| ==> ts[i] == NormaliseTier(stored[i])
  {
    seq(|stored|, i requires 0 <= i < |stored| => NormaliseTier(stored[i]))
  }

  predicate SortedByThreshold(s: seq<Tier>) {
    forall i, j :: 0 <= i < j < |s| ==> s[i].threshold <= s[j].threshold
  }

  /** Inserts a tier after every tier whose threshold is not greater, so
      that tiers with equal thresholds keep their stored order. */
  function InsertTier(t: Tier, s: seq<Tier>): (r: seq<Tier>)
    ensures multiset(r) == multiset(s) + multiset{t}
  {
    if s == [] || t.threshold < s[0].threshold then [t] + s
    else
      assert s == [s[0]] + s[1..];
      [s[0]] + InsertTier(t, s[1..])
  }

  predicate AllAtLeast(s: seq<Tier>, bound: real) {
    forall i :: 0 <= i < |s| ==> s[i].threshold >= bound
  }

  lemma InsertTierAtLeast(t: Tier, s: seq<Tier>, bound: real)
    requires AllAtLeast(s, bound) && t.threshold >= bound
    ensures AllAtLeast(InsertTier(t, s), bound)
  {
    var r := InsertTier(t, s);
    forall i | 0 <= i < |r| ensures r[i].threshold >= bound {
      assert r[i] in multiset(s) + multiset{t};
      if r[i] != t {
        var k :| 0 <= k < |s| && s[k] == r[i];
      }
    }
  }

  lemma ConsSortedTier(h: Tier, rest: seq<Tier>)
    requires SortedByThreshold(rest) && AllAtLeast(rest, h.threshold)
    ensures SortedByThreshold([h] + rest)
  {
    var r := [h] + rest;
    forall i, j | 0 <= i < j < |r| ensures r[i].threshold <= r[j].threshold {
      assert r[j] == rest[j - 1];
      if i > 0 {
        assert r[i] == rest[i - 1];
      }
    }
  }

  /** Without its first tier a sorted list stays sorted, and its first tier
      is a lower bound for the rest. */
  lemma SortedTailTier(s: seq<Tier>)
    requires SortedByThreshold(s) && s != []
    ensures SortedByThreshold(s[1..]) && AllAtLeast(s[1..], s[0].threshold)
  {
    var tail := s[1..];
    forall i, j | 0 <= i < j < |tail| ensures tail[i].threshold <= tail[j].threshold {
      assert tail[i] == s[i + 1] && tail[j] == s[j + 1];
    }
    forall i | 0 <= i < |tail| ensures tail[i].threshold >= s[0].threshold {
      assert tail[i] == s[i + 1];
    }
  }

  lemma {:induction false} InsertTierSorted(t: Tier, s: seq<Tier>)
    requires SortedByThreshold(s)
    ensures SortedByThreshold(InsertTier(t, s))
    decreases |s|
  {
    if s != [] && t.threshold >= s[0].threshold {
      var tail := s[1..];
      SortedTailTier(s);
      InsertTierSorted(t, tail);
      InsertTierAtLeast(t, tail, s[0].threshold);
      ConsSortedTier(s[0], InsertTier(t, tail));
    }
  }

  /** The tier itself if its threshold is `x`, otherwise nothing. */
  function KeepAt(t: Tier, x: real): seq<Tier> {
    if t.threshold == x then [t] else []
  }

  /** The tiers of `s` whose threshold is `x`, in their order in `s`. */
  function SameThreshold(s: seq<Tier>, x: real): seq<Tier>
    decreases |s|
  {
    if s == [] then [] else KeepAt(s[0], x) + SameThreshold(s[1..], x)
  }

  lemma {:induction false} SameThresholdAppend(a: seq<Tier>, b: seq<Tier>, x: real)
    ensures SameThreshold(a + b, x) == SameThreshold(a, x) + SameThreshold(b, x)
    decreases |a|
  {
    if a == [] {
      assert a + b == b;
    } else {
      assert (a + b)[0] == a[0] && (a + b)[1..] == a[1..] + b;
      SameThresholdAppend(a[1..], b, x);
    }
  }

  lemma {:induction false} SameThresholdNone(s: seq<Tier>, x: real)
    requires forall i :: 0 <= i < |s| ==> s[i].threshold > x
    ensures SameThreshold(s, x) == []
    decreases |s|
  {
    if s != [] {
      SameThresholdNone(s[1..], x);
    }
  }

  lemma ConsSameThreshold(h: Tier, s: seq<Tier>, x: real)
    ensures SameThreshold([h] + s, x) == KeepAt(h, x) + SameThreshold(s, x)
  {
    assert ([h] + s)[0] == h && ([h] + s)[1..] == s;
  }

  /** A tier put in front of a sorted list with larger thresholds comes
      after every tier of its own threshold, since there are none. */
  lemma InsertFrontStable(t: Tier, s: seq<Tier>, x: real)
    requires SortedByThreshold(s) && (s == [] || t.threshold < s[0].threshold)
    ensures SameThreshold([t] + s, x) == SameThreshold(s, x) + KeepAt(t, x)
  {
    ConsSameThreshold(t, s, x);
    if t.threshold == x {
      SameThresholdNone(s, x);
    }
  }

  /** Inserting keeps the order of the tiers that share a threshold, the new
      tier coming after all of them. */
  lemma {:induction false} InsertTierStable(t: Tier, s: seq<Tier>, x: real)
    requires SortedByThreshold(s)
    ensures SameThreshold(InsertTier(t, s), x) == SameThreshold(s, x) + KeepAt(t, x)
    decreases |s|
  {
    if s == [] || t.threshold < s[0].threshold {
      assert InsertTier(t, s) == [t] + s;
      InsertFrontStable(t, s, x);
    } else {
      var tail := s[1..];
      SortedTailTier(s);
      var rest := InsertTier(t, tail);
      assert InsertTier(t, s) == [s[0]] + rest;
      InsertTierStable(t, tail, x);
      ConsSameThreshold(s[0], rest, x);
    }
  }

  /** The stable sort by threshold that the tier walk runs over: tiers that
      share a threshold keep their stored order. */
  function SortByThreshold(ts: seq<Tier>): (r: seq<Tier>)
    ensures multiset(r) == multiset(ts)
    ensures SortedByThreshold(r)
    ensures forall x :: SameThreshold(r, x) == SameThreshold(ts, x)
    decreases |ts|
  {
    if ts == [] then []
    else
      var prefix, last := ts[..|ts| - 1], ts[|ts| - 1];
      assert ts == prefix + [last];
      var sorted := SortByThreshold(prefix);
      InsertTierSorted(last, sorted);
      assert forall x :: SameThreshold(InsertTier(last, sorted), x) == SameThreshold(ts, x) by {
        forall x ensures SameThreshold(InsertTier(last, sorted), x) == SameThreshold(ts, x) {
          InsertTierStable(last, sorted, x);
          SameThresholdAppend(prefix, [last], x);
          assert [last][1..] == [];
        }
      }
      InsertTier(last, sorted)
  }

  /** No tier of `s` after index `k` is reached by the value. */
  predicate NoneReachedAfter(s: seq<Tier>, k: nat, value: real) {
    forall j :: k < j < |s| ==> s[j].threshold > value
  }

  /** The last tier of `s` whose threshold the value reaches. */
  function LastReached(s: seq<Tier>, value: real): (r: Option<Tier>)
    ensures r.Some? ==> r.value in s && r.value.threshold <= value
    ensures r.Some? ==> exists k :: 0 <= k < |s| && s[k] == r.value && NoneReachedAfter(s, k, value)
    ensures r.None? <==> forall i :: 0 <= i < |s| ==> s[i].threshold > value
  {
    if s == [] then None
    else if s[|s| - 1].threshold <= value then Some(s[|s| - 1])
    else
      var r := LastReached(s[..|s| - 1], value);
      assert r.Some? ==> exists k :: 0 <= k < |s| && s[k] == r.value && NoneReachedAfter(s, k, value) by {
        if r.Some? {
          var prefix := s[..|s| - 1];
          var k :| 0 <= k < |prefix| && prefix[k] == r.value && NoneReachedAfter(prefix, k, value);
          assert s[k] == r.value;
          forall j | k < j < |s| ensures s[j].threshold > value {
            if j < |prefix| {
              assert s[j] == prefix[j];
            }
          }
        }
      }
      r
  }

  /** The tier that decides the amount, stated on the STORED order: among
      the tiers the value reaches, one with the highest threshold, and among
      those the one stored last. Its index is returned. */
  function WinningTier(ts: seq<Tier>, value: real): (w: Option<nat>)
    ensures w.None? <==> forall i :: 0 <= i < |ts| ==> ts[i].threshold > value
    ensures w.Some? ==> w.value < |ts| && ts[w.value].threshold <= value
    ensures w.Some? ==> forall j :: 0 <= j < |ts| && ts[j].threshold <= value ==>
      ts[j].threshold <= ts[w.value].threshold
    ensures w.Some? ==> forall j :: w.value < j < |ts| && ts[j].threshold <= value ==>
      ts[j].threshold < ts[w.value].threshold
  {
    if ts == [] then None
    else
      var prev := WinningTier(ts[..|ts| - 1], value);
      var last := ts[|ts| - 1];
      if last.threshold <= value && (prev.None? || ts[prev.value].threshold <= last.threshold)
      then Some(|ts| - 1)
      else prev
  }

  /** The winning tier itself, if any. */
  function Winner(ts: seq<Tier>, value: real): Option<Tier> {
    match WinningTier(ts, value)
    case None => None
    case Some(i) => Some(ts[i])
  }

  /** What putting `x` after the tiers already considered does to the choice:
      `x` wins when it is reached and its threshold is at least that of the
      current choice. */
  function Prefer(current: Option<Tier>, x: Tier, value: real): Option<Tier> {
    if x.threshold <= value && (current.None? || current.value.threshold <= x.threshold)
    then Some(x) else current
  }

  lemma {:induction false} LastReachedCons(x: Tier, s: seq<Tier>, value: real)
    ensures LastReached([x] + s, value)
         == if LastReached(s, value).Some? then LastReached(s, value)
            else if x.threshold <= value then Some(x) else None
    decreases |s|
  {
    var xs := [x] + s;
    if s == [] {
      assert xs == [x];
      assert xs[..0] == [];
    } else {
      var n := |s|;
      assert xs[..|xs| - 1] == [x] + s[..n - 1];
      assert xs[|xs| - 1] == s[n - 1];
      LastReachedCons(x, s[..n - 1], value);
    }
  }

  lemma {:induction false} LastReachedInsert(x: Tier, s: seq<Tier>, value: real)
    requires SortedByThreshold(s)
    ensures LastReached(InsertTier(x, s), value) == Prefer(LastReached(s, value), x, value)
    decreases |s|
  {
    if s == [] || x.threshold < s[0].threshold {
      LastReachedCons(x, s, value);
      var c := LastReached(s, value);
      if c.Some? {
        var k :| 0 <= k < |s| && s[k] == c.value;
        assert s[0].threshold <= s[k].threshold;
      }
    } else {
      var rest := s[1..];
      assert SortedByThreshold(rest);
      LastReachedInsert(x, rest, value);
      LastReachedCons(s[0], InsertTier(x, rest), value);
      assert s == [s[0]] + rest;
      LastReachedCons(s[0], rest, value);
    }
  }

  /** The stored-order winner after one more tier is what preferring that
      tier does to the winner before it. */
  lemma WinnerSnoc(ts: seq<Tier>, value: real)
    requires ts != []
    ensures Winner(ts, value) == Prefer(Winner(ts[..|ts| - 1], value), ts[|ts| - 1], value)
  {
    var prefix := ts[..|ts| - 1];
    match WinningTier(prefix, value)
    case None =>
    case Some(i) => assert prefix[i] == ts[i];
  }

  /** The ascending walk over the sorted tiers ends on the winning tier:
      the last reached tier in sorted order is the reached tier with the
      highest threshold, ties going to the tier stored later. */
  lemma {:induction false} SortedWalkFindsWinner(ts: seq<Tier>, value: real)
    ensures LastReached(SortByThreshold(ts), value) == Winner(ts, value)
    decreases |ts|
  {
    if ts != [] {
      var n := |ts|;
      var prefix, last := ts[..n - 1], ts[n - 1];
      var sorted := SortByThreshold(prefix);
      assert SortByThreshold(ts) == InsertTier(last, sorted);
      SortedWalkFindsWinner(prefix, value);
      LastReachedInsert(last, sorted, value);
      WinnerSnoc(ts, value);
    }
  }

  /** Tiers with equal thresholds: the one stored later decides. */
  lemma EqualThresholdsLaterWins(a: Tier, b: Tier, value: real)
    requires a.threshold == b.threshold <= value
    ensures LastReached(SortByThreshold([a, b]), value) == Some(b)
  {
    SortedWalkFindsWinner([a, b], value);
    WinnerSnoc([a, b], value);
    WinnerSnoc([a], value);
    assert [a, b][..1] == [a];
    assert [a][..0] == [];
  }
}
