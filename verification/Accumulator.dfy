/** Window accumulators: what a window remembers of its events and the snapshot it reports. */
module Accumulator {
  import opened Ordering
  import opened OrderStatistics
  import opened RealArithmetic
  import opened DeliveryEvents

  datatype Acc = Acc(
    requests: int,
    errors5xx: int,
    cacheHits: int,
    bytesSent: int,
    originMsTotal: real,
    samples: seq<real>)

  const EMPTY := Acc(0, 0, 0, 0, 0.0, [])

  function Is5xx(e: DeliveryEvent): bool { e.httpStatus >= 500 }
  function IsHit(e: DeliveryEvent): bool { e.cacheStatus == "HIT" }
  function TtfbOf(e: DeliveryEvent): real { e.ttfbMs }
  function OriginOf(e: DeliveryEvent): real { e.originMs }
  function BytesOf(e: DeliveryEvent): real { e.bytesSent as real }

  function AddTo(acc: Acc, e: DeliveryEvent): Acc {
    Acc(acc.requests + 1,
        acc.errors5xx + (if Is5xx(e) then 1 else 0),
        acc.cacheHits + (if IsHit(e) then 1 else 0),
        acc.bytesSent + e.bytesSent,
        acc.originMsTotal + e.originMs,
        acc.samples + [e.ttfbMs])
  }

  function Merge(a: Acc, b: Acc): Acc {
    Acc(a.requests + b.requests, a.errors5xx + b.errors5xx, a.cacheHits + b.cacheHits, a.bytesSent + b.bytesSent,
        a.originMsTotal + b.originMsTotal, a.samples + b.samples)
  }

  /** The accumulator after the given events, in order of arrival. */
  function Fold(events: seq<DeliveryEvent>): Acc
    decreases |events|
  {
    if events == [] then EMPTY else AddTo(Fold(events[..|events| - 1]), events[|events| - 1])
  }

  function PercentileOf(samples: seq<real>, probability: real): real
    requires probability <= 1.0
  {
    if samples == [] then 0.0 else NearestRank(samples, probability)
  }

  datatype Snapshot = Snapshot(
    requests: int,
    errors5xx: int,
    cacheHits: int,
    bytesSent: int,
    originMsTotal: real,
    p50: real,
    p95: real,
    p99: real)

  function SnapshotOf(acc: Acc): Snapshot {
    Snapshot(acc.requests, acc.errors5xx, acc.cacheHits, acc.bytesSent, acc.originMsTotal,
             PercentileOf(acc.samples, 0.50), PercentileOf(acc.samples, 0.95), PercentileOf(acc.samples, 0.99))
  }

  function Ratio(numerator: int, denominator: int): real {
    if denominator == 0 then 0.0 else numerator as real / denominator as real
  }

  /** The accumulator object; `View` is its value. */
  class MetricAccumulator {
    var requests: int
    var errors5xx: int
    var cacheHits: int
    var bytesSent: int
    var originMsTotal: real
    var ttfbSamples: seq<real>

    function View(): Acc
      reads this
    {
      Acc(requests, errors5xx, cacheHits, bytesSent, originMsTotal, ttfbSamples)
    }

    constructor ()
      ensures View() == EMPTY
    {
      requests, errors5xx, cacheHits, bytesSent, originMsTotal, ttfbSamples := 0, 0, 0, 0, 0.0, [];
    }

    method Add(e: DeliveryEvent)
      modifies this
      ensures View() == AddTo(old(View()), e)
    {
      requests := requests + 1;
      if e.httpStatus >= 500 { errors5xx := errors5xx + 1; }
      if e.cacheStatus == "HIT" { cacheHits := cacheHits + 1; }
      bytesSent := bytesSent + e.bytesSent;
      originMsTotal := originMsTotal + e.originMs;
      ttfbSamples := ttfbSamples + [e.ttfbMs];
    }

    /** Also right when an accumulator is merged into itself. */
    method MergeWith(other: MetricAccumulator)
      modifies this
      ensures View() == Merge(old(View()), old(other.View()))
    {
      requests := requests + other.requests;
      errors5xx := errors5xx + other.errors5xx;
      cacheHits := cacheHits + other.cacheHits;
      bytesSent := bytesSent + other.bytesSent;
      originMsTotal := originMsTotal + other.originMsTotal;
      ttfbSamples := ttfbSamples + other.ttfbSamples;
    }

    method Percentile(probability: real) returns (r: real)
      requires probability <= 1.0
      ensures r == PercentileOf(ttfbSamples, probability)
    {
      if ttfbSamples == [] { return 0.0; }
      var sorted := SortReals(ttfbSamples);
      return sorted[RankIndex(probability, |sorted|)];
    }

    method GetResult() returns (snapshot: Snapshot)
      ensures snapshot == SnapshotOf(View())
    {
      var p50 := Percentile(0.50);
      var p95 := Percentile(0.95);
      var p99 := Percentile(0.99);
      snapshot := Snapshot(requests, errors5xx, cacheHits, bytesSent, originMsTotal, p50, p95, p99);
    }
  }

  // ---------------------------------------------------------------- laws

  /** A fold holds exactly the batch counts, sums and samples of its events. */
  lemma {:induction false} FoldLaw(events: seq<DeliveryEvent>)
    ensures Fold(events).requests == |events|
    ensures Fold(events).errors5xx == Count(events, Is5xx)
    ensures Fold(events).cacheHits == Count(events, IsHit)
    ensures Fold(events).bytesSent as real == RealSum(events, BytesOf)
    ensures Fold(events).originMsTotal == RealSum(events, OriginOf)
    ensures Fold(events).samples == MapSeq(events, TtfbOf)
    decreases |events|
  {
    if events != [] {
      var last := |events| - 1;
      FoldLaw(events[..last]);
      assert events == events[..last] + [events[last]];
      CountConcat(events[..last], [events[last]], Is5xx);
      CountConcat(events[..last], [events[last]], IsHit);
      RealSumConcat(events[..last], [events[last]], BytesOf);
      RealSumConcat(events[..last], [events[last]], OriginOf);
    }
  }

  lemma FoldSnoc(events: seq<DeliveryEvent>, e: DeliveryEvent)
    ensures Fold(events + [e]) == AddTo(Fold(events), e)
  {
    assert (events + [e])[..|events|] == events;
  }

  lemma MergeAdd(a: Acc, b: Acc, e: DeliveryEvent)
    ensures Merge(a, AddTo(b, e)) == AddTo(Merge(a, b), e)
  {
    assert a.samples + (b.samples + [e.ttfbMs]) == (a.samples + b.samples) + [e.ttfbMs];
  }

  lemma MergeEmpty(a: Acc)
    ensures Merge(a, EMPTY) == a && Fold([]) == EMPTY
  {
  }

  /** Merging the accumulators of two batches is accumulating their concatenation. */
  lemma {:induction false} MergeHomomorphism(a: seq<DeliveryEvent>, b: seq<DeliveryEvent>)
    ensures Merge(Fold(a), Fold(b)) == Fold(a + b)
    decreases |b|
  {
    hide *;
    if b == [] {
      assert a + b == a;
      MergeEmpty(Fold(a));
    } else {
      var last := |b| - 1;
      MergeHomomorphism(a, b[..last]);
      MergeAdd(Fold(a), Fold(b[..last]), b[last]);
      FoldSnoc(a + b[..last], b[last]);
      FoldSnoc(b[..last], b[last]);
      assert b == b[..last] + [b[last]];
      assert a + b == (a + b[..last]) + [b[last]];
    }
  }

  lemma PercentilePermutation(a: seq<real>, b: seq<real>, p: real)
    requires multiset(a) == multiset(b) && p <= 1.0
    ensures PercentileOf(a, p) == PercentileOf(b, p)
  {
    hide NearestRank;
    SameSize(a, b);
    if a != [] { NearestRankPermutation(a, b, p); }
  }

  /** The snapshot of a window does not depend on the order in which its events arrived. */
  lemma SnapshotOrderIrrelevant(a: seq<DeliveryEvent>, b: seq<DeliveryEvent>)
    requires multiset(a) == multiset(b)
    ensures SnapshotOf(Fold(a)) == SnapshotOf(Fold(b))
  {
    hide Fold;
    hide PercentileOf;
    SameSize(a, b);
    FoldLaw(a);
    FoldLaw(b);
    CountPermutation(a, b, Is5xx);
    CountPermutation(a, b, IsHit);
    RealSumPermutation(a, b, BytesOf);
    RealSumPermutation(a, b, OriginOf);
    MapPermutation(a, b, TtfbOf);
    PercentilePermutation(Fold(a).samples, Fold(b).samples, 0.50);
    PercentilePermutation(Fold(a).samples, Fold(b).samples, 0.95);
    PercentilePermutation(Fold(a).samples, Fold(b).samples, 0.99);
  }

  lemma RatioUnit(numerator: int, denominator: int)
    requires 0 <= numerator <= denominator
    ensures 0.0 <= Ratio(numerator, denominator) <= 1.0
  {
    if denominator > 0 { Quotient(numerator as real, denominator as real); }
  }

  /** What a snapshot says of its events: how many there are, how many failed and how many hit the cache, what they add
      up to, and which of their latencies are the percentiles; rates lie in [0,1] and percentiles are ordered. */
  lemma SnapshotLaw(events: seq<DeliveryEvent>)
    requires events != []
    ensures var s := SnapshotOf(Fold(events));
            && s.requests == |events|
            && s.errors5xx == Count(events, (e: DeliveryEvent) => e.httpStatus >= 500)
            && s.cacheHits == Count(events, (e: DeliveryEvent) => e.cacheStatus == "HIT")
            && s.bytesSent as real == RealSum(events, (e: DeliveryEvent) => e.bytesSent as real)
            && s.originMsTotal == RealSum(events, (e: DeliveryEvent) => e.originMs)
            && s.p50 == NearestRank(MapSeq(events, (e: DeliveryEvent) => e.ttfbMs), 0.50)
            && s.p95 == NearestRank(MapSeq(events, (e: DeliveryEvent) => e.ttfbMs), 0.95)
            && s.p99 == NearestRank(MapSeq(events, (e: DeliveryEvent) => e.ttfbMs), 0.99)
            && 0.0 <= Ratio(s.errors5xx, s.requests) <= 1.0
            && 0.0 <= Ratio(s.cacheHits, s.requests) <= 1.0
            && s.p50 <= s.p95 <= s.p99
            && (exists e :: e in events && s.p50 == e.ttfbMs) && (exists e :: e in events && s.p95 == e.ttfbMs)
            && exists e :: e in events && s.p99 == e.ttfbMs
  {
    hide Fold;
    hide NearestRank;
    hide Ratio;
    FoldLaw(events);
    CountBounds(events, Is5xx);
    CountBounds(events, IsHit);
    RatioUnit(Count(events, Is5xx), |events|);
    RatioUnit(Count(events, IsHit), |events|);
    CountAgree(events, Is5xx, (e: DeliveryEvent) => e.httpStatus >= 500);
    CountAgree(events, IsHit, (e: DeliveryEvent) => e.cacheStatus == "HIT");
    RealSumAgree(events, BytesOf, (e: DeliveryEvent) => e.bytesSent as real);
    RealSumAgree(events, OriginOf, (e: DeliveryEvent) => e.originMs);
    var samples := MapSeq(events, TtfbOf);
    assert samples == MapSeq(events, (e: DeliveryEvent) => e.ttfbMs);
    NearestRankMonotone(samples, 0.50, 0.95);
    NearestRankMonotone(samples, 0.95, 0.99);
    NearestRankLaw(samples, 0.50);
    NearestRankLaw(samples, 0.95);
    NearestRankLaw(samples, 0.99);
  }
}
