/** Order statistics over samples: the median and the nearest-rank percentile. */
module OrderStatistics {
  import opened Ordering
  import opened RealArithmetic

  predicate LeReal(a: real, b: real) { a <= b }

  ghost predicate Ascending(s: seq<real>) {
    forall i, j :: 0 <= i < j < |s| ==> s[i] <= s[j]
  }

  function SortReals(s: seq<real>): (r: seq<real>)
    ensures multiset(r) == multiset(s) && |r| == |s|
    ensures Ascending(r)
  {
    SortBySorted(s, LeReal);
    SortBy(s, LeReal)
  }

  lemma SortRealsUnique(s: seq<real>, r: seq<real>)
    requires multiset(r) == multiset(s) && Ascending(r)
    ensures r == SortReals(s)
  {
    SortedUnique(r, SortReals(s), LeReal);
  }

  function AtMost(x: real): real -> bool { v => v <= x }
  function AtLeast(x: real): real -> bool { v => v >= x }
  function Above(x: real): real -> bool { v => v > x }
  function Below(x: real): real -> bool { v => v < x }

  lemma AscendingRank(t: seq<real>, k: nat, x: real)
    requires k < |t| && Ascending(t)
    ensures t[k] <= x <==> Count(t, AtMost(x)) > k
    ensures t[k] >= x <==> Count(t, Below(x)) <= k
  {
    if t[k] <= x {
      CountAtLeast(t, AtMost(x), k + 1);
    } else {
      CountAtMost(t, AtMost(x), k);
    }
    if t[k] < x {
      CountAtLeast(t, Below(x), k + 1);
    } else {
      CountAtMost(t, Below(x), k);
    }
  }

  /** The k-th order statistic is at most x exactly when more than k samples are. */
  lemma RankAtMost(s: seq<real>, k: nat, x: real)
    requires k < |s|
    ensures SortReals(s)[k] <= x <==> Count(s, AtMost(x)) > k
  {
    var t := SortReals(s);
    CountPermutation(s, t, AtMost(x));
    AscendingRank(t, k, x);
  }

  /** The k-th order statistic is at least x exactly when at most k samples are below x. */
  lemma RankAtLeast(s: seq<real>, k: nat, x: real)
    requires k < |s|
    ensures SortReals(s)[k] >= x <==> Count(s, Below(x)) <= k
  {
    var t := SortReals(s);
    CountPermutation(s, t, Below(x));
    AscendingRank(t, k, x);
  }

  lemma {:induction false} CountComplement(s: seq<real>, x: real)
    ensures Count(s, Below(x)) + Count(s, AtLeast(x)) == |s|
    ensures Count(s, AtMost(x)) + Count(s, Above(x)) == |s|
  {
    if s != [] { CountComplement(s[1..], x); }
  }

  // ---------------------------------------------------------------- median

  function Median(s: seq<real>): real {
    if |s| == 0 then 0.0
    else
      var t := SortReals(s);
      var mid := |t| / 2;
      if |t| % 2 == 0 then (t[mid - 1] + t[mid]) / 2.0 else t[mid]
  }

  lemma MedianPermutation(a: seq<real>, b: seq<real>)
    requires multiset(a) == multiset(b)
    ensures Median(a) == Median(b)
  {
    SameSize(a, b);
    SortRealsUnique(a, SortReals(b));
  }

  /** x is the sample of rank k: more than k samples are at most x, and at most k are below it. */
  ghost predicate HasRank(s: seq<real>, k: nat, x: real) {
    Count(s, AtMost(x)) > k && Count(s, Below(x)) <= k
  }

  lemma RankIsHeld(s: seq<real>, k: nat)
    requires k < |s|
    ensures SortReals(s)[k] in s && HasRank(s, k, SortReals(s)[k])
  {
    hide SortReals;
    hide Count;
    SameMembers(SortReals(s), s);
    RankAtMost(s, k, SortReals(s)[k]);
    RankAtLeast(s, k, SortReals(s)[k]);
  }

  /** The median is the sample of middle rank, or the mean of the two samples of middle ranks. */
  lemma MedianLaw(s: seq<real>)
    requires s != []
    ensures exists x, y :: x in s && y in s && HasRank(s, (|s| - 1) / 2, x) && HasRank(s, |s| / 2, y)
              && 2.0 * Median(s) == x + y
    ensures Median([]) == 0.0
  {
    hide SortReals;
    hide Count;
    var t, low, high := SortReals(s), (|s| - 1) / 2, |s| / 2;
    assert 2.0 * Median(s) == t[low] + t[high];
    hide Median;
    hide HasRank;
    RankIsHeld(s, low);
    RankIsHeld(s, high);
  }

  /** A strict majority of samples inside an interval forces the median into that interval. */
  lemma MedianMajority(s: seq<real>, lo: real, hi: real)
    requires 2 * Count(s, AtLeast(lo)) > |s|
    requires 2 * Count(s, AtMost(hi)) > |s|
    ensures lo <= Median(s) <= hi
  {
    CountBounds(s, AtMost(hi));
    CountComplement(s, lo);
    hide Count;
    hide SortReals;
    MiddleWithin(s, |s| / 2, lo, hi);
    if |s| % 2 == 0 { MiddleWithin(s, |s| / 2 - 1, lo, hi); }
  }

  /** The order statistics next to the middle lie in that interval. */
  lemma MiddleWithin(s: seq<real>, k: nat, lo: real, hi: real)
    requires k < |s| && |s| - 2 <= 2 * k <= |s|
    requires 2 * Count(s, Below(lo)) < |s| && 2 * Count(s, AtMost(hi)) > |s|
    ensures lo <= SortReals(s)[k] <= hi
  {
    hide Count;
    hide SortReals;
    RankAtMost(s, k, hi);
    RankAtLeast(s, k, lo);
  }

  ghost predicate Agree(s: seq<real>, t: seq<real>, kept: set<nat>)
    requires |s| == |t|
  {
    forall i :: i in kept ==> i < |s| && s[i] == t[i]
  }

  /** Samples at kept indices that satisfy p are counted by Count. */
  lemma {:induction false} CountAtKept(t: seq<real>, kept: set<nat>, p: real -> bool)
    requires forall i :: i in kept ==> i < |t| && p(t[i])
    ensures Count(t, p) >= |kept|
    decreases |t|
  {
    if t == [] {
      assert kept == {};
    } else {
      var last := |t| - 1;
      var rest := kept - {last};
      CountAtKept(t[..last], rest, p);
      assert t == t[..last] + [t[last]];
      CountConcat(t[..last], [t[last]], p);
      assert last in kept ==> kept == rest + {last};
      assert last !in kept ==> kept == rest;
    }
  }

  /** Breakdown bound: arbitrary replacement of fewer than half of the samples leaves the median
      between any bounds of the samples that were not touched. */
  lemma MedianBreakdown(s: seq<real>, t: seq<real>, kept: set<nat>, lo: real, hi: real)
    requires |s| == |t|
    requires Agree(s, t, kept) && 2 * |kept| > |s|
    requires forall i :: i in kept ==> lo <= s[i] <= hi
    ensures lo <= Median(t) <= hi
  {
    CountAtKept(t, kept, AtLeast(lo));
    CountAtKept(t, kept, AtMost(hi));
    MedianMajority(t, lo, hi);
  }

  /** The bound is sharp: replacing half of the samples can put the median outside. */
  lemma MedianBreakdownIsSharp()
    ensures var s, t, kept := [1.0, 1.0], [1.0, 9.0], {0 as nat};
            Agree(s, t, kept) && 2 * |kept| == |s| && Median(t) == 5.0
  {
    SortRealsUnique([1.0, 9.0], [1.0, 9.0]);
  }

  /** Where the median lies between its neighbouring order statistics of non-negative samples. */
  lemma MedianBrackets(s: seq<real>)
    requires s != []
    requires forall x :: x in s ==> x >= 0.0
    ensures Median(s) >= 0.0
    ensures SortReals(s)[|s| / 2] <= 2.0 * Median(s)
    ensures SortReals(s)[(|s| - 1) / 2] <= Median(s)
  {
    var n, t := |s|, SortReals(s);
    SameMembers(s, t);
    assert t[n / 2] in s;
    if n % 2 == 0 { assert t[n / 2 - 1] in s; }
  }

  lemma AboveRank(s: seq<real>, k: nat, x: real)
    requires k < |s| && SortReals(s)[k] <= x
    ensures Count(s, Above(x)) <= |s| - k - 1
  {
    CountComplement(s, x);
    RankAtMost(s, k, x);
  }

  /** How many samples can exceed a threshold set from their own median. */
  lemma AboveMedian(s: seq<real>, threshold: real)
    requires s != []
    requires forall x :: x in s ==> x >= 0.0
    ensures threshold >= 2.0 * Median(s) ==> Count(s, Above(threshold)) <= (|s| - 1) / 2
    ensures threshold >= Median(s) ==> Count(s, Above(threshold)) <= |s| / 2
  {
    MedianBrackets(s);
    Halves(|s|);
    if threshold >= 2.0 * Median(s) { AboveRank(s, |s| / 2, threshold); }
    if threshold >= Median(s) { AboveRank(s, (|s| - 1) / 2, threshold); }
  }

  lemma Halves(n: nat)
    requires n > 0
    ensures n - n / 2 - 1 == (n - 1) / 2
    ensures n - (n - 1) / 2 - 1 == n / 2
  {
  }

  // ---------------------------------------------------------------- percentile

  function Ceil(x: real): int { -((-x).Floor) }

  /** A share of n samples. */
  function Portion(probability: real, n: nat): real { probability * n as real }

  lemma PortionMonotone(p: real, q: real, n: nat)
    requires p <= q
    ensures Portion(p, n) <= Portion(q, n)
    ensures Portion(1.0, n) == n as real
    ensures p > 0.0 && n > 0 ==> Portion(p, n) > 0.0
  {
    Scale(q, p, n as real);
    if p > 0.0 && n > 0 { StrictScale(p, 0.0, n as real); }
  }

  lemma CeilMonotone(a: real, b: real)
    requires a <= b
    ensures Ceil(a) <= Ceil(b)
  {
  }

  lemma CeilBounds(x: real)
    ensures x <= Ceil(x) as real < x + 1.0
  {
  }

  lemma CeilNat(n: nat)
    ensures Ceil(n as real) == n
  {
  }

  /** Index of the nearest-rank percentile, as both implementations compute it. */
  function RankIndex(probability: real, n: nat): (k: nat)
    requires n > 0 && probability <= 1.0
    ensures k < n
  {
    var c := Ceil(Portion(probability, n)) - 1;
    RankInRange(probability, n);
    if c < 0 then 0 else c
  }

  lemma RankInRange(probability: real, n: nat)
    requires n > 0 && probability <= 1.0
    ensures Ceil(Portion(probability, n)) <= n
  {
    hide Ceil;
    PortionMonotone(probability, 1.0, n);
    CeilMonotone(Portion(probability, n), n as real);
    CeilNat(n);
  }

  lemma RankIndexBounds(probability: real, n: nat)
    requires n > 0 && 0.0 < probability <= 1.0
    ensures RankIndex(probability, n) as real < Portion(probability, n) <= RankIndex(probability, n) as real + 1.0
  {
    hide Ceil;
    hide Portion;
    PortionMonotone(probability, 1.0, n);
    CeilBounds(Portion(probability, n));
  }

  lemma RankIndexMonotone(p: real, q: real, n: nat)
    requires n > 0 && p <= q <= 1.0
    ensures RankIndex(p, n) <= RankIndex(q, n)
  {
    hide Ceil;
    hide Portion;
    PortionMonotone(p, q, n);
    CeilMonotone(Portion(p, n), Portion(q, n));
  }

  function NearestRank(s: seq<real>, probability: real): real
    requires s != [] && probability <= 1.0
  {
    SortReals(s)[RankIndex(probability, |s|)]
  }

  /** Nearest-rank law: the percentile is a real sample, at least a `probability` share of the samples
      is at or below it, and strictly less than that share is below it. */
  lemma NearestRankLaw(s: seq<real>, probability: real)
    requires s != [] && 0.0 < probability <= 1.0
    ensures NearestRank(s, probability) in s
    ensures Count(s, AtMost(NearestRank(s, probability))) as real >= Portion(probability, |s|)
    ensures Count(s, Below(NearestRank(s, probability))) as real < Portion(probability, |s|)
  {
    hide Portion;
    var k, v := RankIndex(probability, |s|), NearestRank(s, probability);
    SameMembers(s, SortReals(s));
    assert v in SortReals(s);
    RankAtMost(s, k, v);
    RankAtLeast(s, k, v);
    RankIndexBounds(probability, |s|);
  }

  lemma NearestRankMonotone(s: seq<real>, p: real, q: real)
    requires s != [] && p <= q <= 1.0
    ensures NearestRank(s, p) <= NearestRank(s, q)
  {
    RankIndexMonotone(p, q, |s|);
  }

  lemma NearestRankPermutation(a: seq<real>, b: seq<real>, p: real)
    requires multiset(a) == multiset(b) && a != [] && p <= 1.0
    ensures b != [] && NearestRank(a, p) == NearestRank(b, p)
  {
    SameSize(a, b);
    SortRealsUnique(a, SortReals(b));
  }
}
