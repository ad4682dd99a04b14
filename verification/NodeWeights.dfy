/** Weights over the candidates `E`: maps from node ids to reals.

Functions give the value of each stage; the methods are the scorer's loops, proved to compute those values in
whatever order a map is visited. */
module NodeWeights {
  import opened Domain
  import opened Ordering
  import opened RealArithmetic
  import opened Candidates

  type Weights = map<string, real>

  /** Reading a Go map: a missing key gives zero. */
  function Get(w: Weights, id: string): real { if id in w then w[id] else 0.0 }

  // ---------------------------------------------------------------- current weights

  function PositiveSum(E: seq<NodeMetric>, w: Weights): real
    decreases |E|
  {
    if E == [] then 0.0
    else
      var last := |E| - 1;
      PositiveSum(E[..last], w) + (if Get(w, E[last].nodeId) > 0.0 then Get(w, E[last].nodeId) else 0.0)
  }

  ghost predicate SomePositive(E: seq<NodeMetric>, w: Weights) {
    exists i :: 0 <= i < |E| && Get(w, E[i].nodeId) > 0.0
  }

  /** The requested weights restricted to candidates with a positive weight and scaled to sum 1; uniform when no
      candidate has a positive weight. */
  ghost function Normalise(E: seq<NodeMetric>, w: Weights): Weights
    requires E != []
  {
    PositiveSumSign(E, w);
    if SomePositive(E, w)
    then map id | id in Ids(E) && Get(w, id) > 0.0 :: Get(w, id) / PositiveSum(E, w)
    else map id | id in Ids(E) :: 1.0 / |E| as real
  }

  lemma {:induction false} PositiveSumSign(E: seq<NodeMetric>, w: Weights)
    ensures PositiveSum(E, w) >= 0.0
    ensures PositiveSum(E, w) != 0.0 <==> SomePositive(E, w)
    decreases |E|
  {
    if E != [] {
      var last := |E| - 1;
      PositiveSumSign(E[..last], w);
      if SomePositive(E[..last], w) {
        var i :| 0 <= i < last && Get(w, E[..last][i].nodeId) > 0.0;
        assert Get(w, E[i].nodeId) > 0.0;
      }
      if SomePositive(E, w) && Get(w, E[last].nodeId) <= 0.0 {
        var i :| 0 <= i < |E| && Get(w, E[i].nodeId) > 0.0;
        assert Get(w, E[..last][i].nodeId) > 0.0;
      }
    }
  }

  lemma PositiveSumEmpty(w: Weights)
    ensures PositiveSum([], w) == 0.0
  {
  }

  lemma PositiveSumSnoc(E: seq<NodeMetric>, i: nat, w: Weights)
    requires i < |E|
    ensures PositiveSum(E[..i + 1], w) ==
            PositiveSum(E[..i], w) + (if Get(w, E[i].nodeId) > 0.0 then Get(w, E[i].nodeId) else 0.0)
  {
    assert E[..i + 1][..i] == E[..i];
  }

  method NormalizedCurrent(current: Weights, E: seq<NodeMetric>) returns (result: Weights)
    requires E != []
    ensures result == Normalise(E, current)
  {
    hide PositiveSum;
    result := map[];
    var sum := 0.0;
    PositiveSumEmpty(current);
    for i := 0 to |E|
      invariant sum == PositiveSum(E[..i], current)
      invariant result.Keys == set m | m in E[..i] && Get(current, m.nodeId) > 0.0 :: m.nodeId
      invariant forall id :: id in result ==> result[id] == Get(current, id)
    {
      var id := E[i].nodeId;
      assert E[..i + 1] == E[..i] + [E[i]];
      PositiveSumSnoc(E, i, current);
      if Get(current, id) > 0.0 {
        result := result[id := Get(current, id)];
        sum := sum + Get(current, id);
      }
    }
    assert E[..|E|] == E;
    PositiveSumSign(E, current);
    if sum == 0.0 {
      var weight := 1.0 / |E| as real;
      result := UniformWeights(E, result, weight);
      return;
    }
    result := DivideAll(result, sum);
  }

  method UniformWeights(E: seq<NodeMetric>, before: Weights, weight: real) returns (result: Weights)
    requires before.Keys == {}
    ensures result == map id | id in Ids(E) :: weight
  {
    result := before;
    for i := 0 to |E|
      invariant result.Keys == Ids(E[..i])
      invariant forall id :: id in result ==> result[id] == weight
    {
      assert E[..i + 1] == E[..i] + [E[i]];
      result := result[E[i].nodeId := weight];
    }
    assert E[..|E|] == E;
  }

  /** Divides every entry of a map in place. */
  method DivideAll(weights: Weights, divisor: real) returns (result: Weights)
    requires divisor != 0.0
    ensures result == map id | id in weights :: weights[id] / divisor
  {
    result := weights;
    var order := Enumerate(weights.Keys);
    for i := 0 to |order|
      invariant result.Keys == weights.Keys
      invariant forall j :: 0 <= j < i ==> result[order[j]] == weights[order[j]] / divisor
      invariant forall j :: i <= j < |order| ==> result[order[j]] == weights[order[j]]
    {
      result := result[order[i] := result[order[i]] / divisor];
    }
  }

  // ---------------------------------------------------------------- target weights

  ghost function Lowest(s: seq<real>): real
    requires s != []
  {
    if |s| == 1 then s[0] else Min(Lowest(s[..|s| - 1]), s[|s| - 1])
  }

  ghost function Highest(s: seq<real>): real
    requires s != []
  {
    if |s| == 1 then s[0] else Max(Highest(s[..|s| - 1]), s[|s| - 1])
  }

  const FLAT := 0.000000000001

  /** Position of x between the extremes of the samples; 0 when they (almost) coincide. */
  function Scaled(x: real, lowest: real, highest: real): real {
    if Abs(highest - lowest) < FLAT then 0.0 else (x - lowest) / (highest - lowest)
  }

  ghost function Factor(E: seq<NodeMetric>, value: NodeMetric -> real, m: NodeMetric): real
    requires E != []
  {
    Scaled(value(m), Lowest(MapSeq(E, value)), Highest(MapSeq(E, value)))
  }

  method Normalized(E: seq<NodeMetric>, value: NodeMetric -> real) returns (result: seq<real>)
    requires E != []
    ensures |result| == |E|
    ensures forall i :: 0 <= i < |E| ==> result[i] == Factor(E, value, E[i])
  {
    hide Scaled;
    ghost var all := MapSeq(E, value);
    var raw := [value(E[0])];
    var minimum, maximum := value(E[0]), value(E[0]);
    for i := 1 to |E|
      invariant raw == all[..i]
      invariant minimum == Lowest(all[..i]) && maximum == Highest(all[..i])
    {
      assert all[..i + 1][..i] == all[..i];
      var x := value(E[i]);
      raw := raw + [x];
      minimum := Min(minimum, x);
      maximum := Max(maximum, x);
    }
    assert all[..|E|] == all;
    result := [];
    for i := 0 to |raw|
      invariant |result| == i
      invariant forall j :: 0 <= j < i ==> result[j] == Scaled(raw[j], minimum, maximum)
    {
      result := result + [Scaled(raw[i], minimum, maximum)];
    }
  }

  function MissOf(m: NodeMetric): real { 1.0 - m.cacheHitRate }
  function CostOf(m: NodeMetric): real { if m.requests == 0 then 0.0 else m.originMs / m.requests as real }
  function SaturationOf(m: NodeMetric): real { m.saturation }

  /** The extra penalty of a node whose signal is anomalous. */
  function Surcharge(signals: map<string, Signal>, id: string): real {
    if id in signals && signals[id].anomalous then 0.25 * signals[id].severity else 0.0
  }

  function Combine(latency: real, errors: real, misses: real, cost: real, saturation: real): real {
    0.35 * latency + 0.25 * errors + 0.15 * misses + 0.15 * cost + 0.10 * saturation
  }

  ghost function Penalty(E: seq<NodeMetric>, signals: map<string, Signal>, m: NodeMetric): real
    requires E != []
  {
    Combine(Factor(E, P95Of, m), Factor(E, ErrorOf, m), Factor(E, MissOf, m), Factor(E, CostOf, m),
            Factor(E, SaturationOf, m))
    + Surcharge(signals, m.nodeId)
  }

  function Attractiveness(penalty: real): real { if 0.05 + penalty == 0.0 then 0.0 else 1.0 / (0.05 + penalty) }

  ghost function Raw(E: seq<NodeMetric>, signals: map<string, Signal>, m: NodeMetric): real
    requires E != []
  {
    Attractiveness(Penalty(E, signals, m))
  }

  ghost function RawSum(E: seq<NodeMetric>, signals: map<string, Signal>, n: nat): real
    requires E != [] && n <= |E|
  {
    if n == 0 then 0.0 else RawSum(E, signals, n - 1) + Raw(E, signals, E[n - 1])
  }

  ghost function RawTotal(E: seq<NodeMetric>, signals: map<string, Signal>): real
    requires E != []
  {
    RawSum(E, signals, |E|)
  }

  ghost function MetricOf(E: seq<NodeMetric>, id: string): NodeMetric
    requires id in Ids(E)
  {
    var m :| m in E && m.nodeId == id; m
  }

  function Share(raw: real, total: real): real { if total == 0.0 then 0.0 else raw / total }

  /** The normalised target: proportional to the attractiveness of the candidates. */
  ghost function TargetOf(E: seq<NodeMetric>, signals: map<string, Signal>): Weights
    requires E != []
  {
    map id | id in Ids(E) :: Share(Raw(E, signals, MetricOf(E, id)), RawTotal(E, signals))
  }

  /** Severities come from the detector, which clamps them to [0,1]; only their sign matters here. */
  ghost predicate NonNegativeSeverities(signals: map<string, Signal>) {
    forall id :: id in signals ==> signals[id].severity >= 0.0
  }

  lemma ExtremesBound(s: seq<real>)
    requires s != []
    ensures forall x :: x in s ==> Lowest(s) <= x <= Highest(s)
    decreases |s|
  {
    if |s| > 1 {
      var last := |s| - 1;
      ExtremesBound(s[..last]);
      assert s == s[..last] + [s[last]];
    }
  }

  lemma ScaledUnit(x: real, lowest: real, highest: real)
    requires lowest <= x <= highest
    ensures 0.0 <= Scaled(x, lowest, highest) <= 1.0
  {
    if Abs(highest - lowest) >= FLAT {
      var d := highest - lowest;
      assert d > 0.0;
      Quotient(x - lowest, d);
    }
  }

  lemma FactorUnit(E: seq<NodeMetric>, value: NodeMetric -> real, m: NodeMetric)
    requires m in E
    ensures 0.0 <= Factor(E, value, m) <= 1.0
  {
    hide Scaled;
    var i :| 0 <= i < |E| && E[i] == m;
    assert MapSeq(E, value)[i] in MapSeq(E, value);
    ExtremesBound(MapSeq(E, value));
    ScaledUnit(value(m), Lowest(MapSeq(E, value)), Highest(MapSeq(E, value)));
  }

  lemma PenaltyBounds(E: seq<NodeMetric>, signals: map<string, Signal>, m: NodeMetric)
    requires m in E && NonNegativeSeverities(signals)
    ensures Surcharge(signals, m.nodeId) <= Penalty(E, signals, m) <= 1.0 + Surcharge(signals, m.nodeId)
    ensures Penalty(E, signals, m) >= 0.0
  {
    hide Factor;
    FactorUnit(E, P95Of, m);
    FactorUnit(E, ErrorOf, m);
    FactorUnit(E, MissOf, m);
    FactorUnit(E, CostOf, m);
    FactorUnit(E, SaturationOf, m);
  }

  lemma RawPositive(E: seq<NodeMetric>, signals: map<string, Signal>, m: NodeMetric)
    requires m in E && NonNegativeSeverities(signals)
    ensures Raw(E, signals, m) > 0.0
    ensures Raw(E, signals, m) * (0.05 + Penalty(E, signals, m)) == 1.0
  {
    hide Penalty;
    PenaltyBounds(E, signals, m);
  }

  lemma {:induction false} RawSumPositive(E: seq<NodeMetric>, signals: map<string, Signal>, n: nat)
    requires 0 < n <= |E| && NonNegativeSeverities(signals)
    ensures RawSum(E, signals, n) > 0.0
  {
    hide Raw;
    RawPositive(E, signals, E[n - 1]);
    if n > 1 { RawSumPositive(E, signals, n - 1); }
  }

  method RawWeights(E: seq<NodeMetric>, signals: map<string, Signal>) returns (raw: Weights, sum: real)
    requires E != [] && DistinctIds(E)
    ensures raw.Keys == Ids(E) && sum == RawTotal(E, signals)
    ensures forall i :: 0 <= i < |E| ==> raw[E[i].nodeId] == Raw(E, signals, E[i])
  {
    hide *;
    var latency := Normalized(E, P95Of);
    var errors := Normalized(E, ErrorOf);
    var misses := Normalized(E, MissOf);
    var cost := Normalized(E, CostOf);
    var saturation := Normalized(E, SaturationOf);
    raw, sum := map[], 0.0;
    IdsOfNone(E[..0]);
    RawSumZero(E, signals);
    for i := 0 to |E|
      invariant raw.Keys == Ids(E[..i]) && sum == RawSum(E, signals, i)
      invariant forall j :: 0 <= j < i ==> E[j].nodeId in raw && raw[E[j].nodeId] == Raw(E, signals, E[j])
    {
      IdsSnoc(E, i);
      RawParts(E, signals, i);
      RepeatedId(E, i);
      var id := E[i].nodeId;
      var penalty := Combine(latency[i], errors[i], misses[i], cost[i], saturation[i]) + Surcharge(signals, id);
      raw := raw[id := Attractiveness(penalty)];
      sum := sum + raw[id];
    }
    assert E[..|E|] == E;
    RawTotalIsSum(E, signals);
  }

  lemma IdsOfNone(E: seq<NodeMetric>)
    requires E == []
    ensures Ids(E) == {}
  {
  }

  lemma IdsSnoc(E: seq<NodeMetric>, i: nat)
    requires i < |E|
    ensures Ids(E[..i + 1]) == Ids(E[..i]) + {E[i].nodeId}
  {
    assert E[..i + 1] == E[..i] + [E[i]];
  }

  lemma RepeatedId(E: seq<NodeMetric>, i: nat)
    requires i < |E| && DistinctIds(E)
    ensures forall j :: 0 <= j < i ==> E[j].nodeId != E[i].nodeId
  {
  }

  lemma RawSumZero(E: seq<NodeMetric>, signals: map<string, Signal>)
    requires E != []
    ensures RawSum(E, signals, 0) == 0.0
  {
  }

  lemma RawTotalIsSum(E: seq<NodeMetric>, signals: map<string, Signal>)
    requires E != []
    ensures RawTotal(E, signals) == RawSum(E, signals, |E|)
  {
  }

  lemma RawParts(E: seq<NodeMetric>, signals: map<string, Signal>, i: nat)
    requires i < |E|
    ensures var m := E[i];
            Raw(E, signals, m) ==
            Attractiveness(Combine(Factor(E, P95Of, m), Factor(E, ErrorOf, m), Factor(E, MissOf, m),
                                   Factor(E, CostOf, m), Factor(E, SaturationOf, m))
                           + Surcharge(signals, m.nodeId))
    ensures RawSum(E, signals, i + 1) == RawSum(E, signals, i) + Raw(E, signals, E[i])
  {
    hide Factor;
    hide Attractiveness;
    hide Combine;
  }

  method TargetWeights(E: seq<NodeMetric>, signals: map<string, Signal>) returns (target: Weights)
    requires E != [] && DistinctIds(E) && NonNegativeSeverities(signals)
    ensures target == TargetOf(E, signals)
  {
    hide Raw;
    var raw, sum := RawWeights(E, signals);
    RawSumPositive(E, signals, |E|);
    target := DivideAll(raw, sum);
    forall id | id in Ids(E) ensures raw[id] == Raw(E, signals, MetricOf(E, id)) {
      var m := MetricOf(E, id);
      var i :| 0 <= i < |E| && E[i] == m;
    }
  }

  // ---------------------------------------------------------------- the bounded step

  function Gap(c: Weights, t: Weights, id: string): real { Abs(Get(t, id) - Get(c, id)) }

  /** The max-norm distance between two weight maps over the candidates. */
  ghost function Distance(E: seq<NodeMetric>, c: Weights, t: Weights): real
    decreases |E|
  {
    if E == [] then 0.0
    else Max(Distance(E[..|E| - 1], c, t), Gap(c, t, E[|E| - 1].nodeId))
  }

  /** The shared factor that keeps a move over `distance` within `step`. */
  function FactorFor(step: real, distance: real): real {
    if distance <= step || distance == 0.0 then 1.0 else step / distance
  }

  function Toward(from: real, to: real, fraction: real): real { from + fraction * (to - from) }

  ghost function Moved(c: Weights, t: Weights, fraction: real): Weights {
    map id | id in t :: Toward(Get(c, id), t[id], fraction)
  }

  lemma {:induction false} DistanceLaw(E: seq<NodeMetric>, c: Weights, t: Weights)
    ensures Distance(E, c, t) >= 0.0
    ensures forall id :: id in Ids(E) ==> Gap(c, t, id) <= Distance(E, c, t)
    ensures Distance(E, c, t) == 0.0 || exists id :: id in Ids(E) && Gap(c, t, id) == Distance(E, c, t)
    decreases |E|
  {
    if E != [] {
      var last := |E| - 1;
      DistanceLaw(E[..last], c, t);
      assert E == E[..last] + [E[last]];
      assert E[last].nodeId in Ids(E);
      if Distance(E[..last], c, t) >= Gap(c, t, E[last].nodeId) && Distance(E, c, t) != 0.0 {
        var id :| id in Ids(E[..last]) && Gap(c, t, id) == Distance(E[..last], c, t);
        assert id in Ids(E);
      }
    }
  }

  lemma FactorForNarrows(step: real, widest: real, delta: real)
    requires step >= 0.0 && widest >= 0.0 && delta > step
    ensures delta > 0.0
    ensures Min(FactorFor(step, widest), step / delta) == FactorFor(step, Max(widest, delta))
  {
    Quotient(step, delta);
    if widest > step {
      if widest >= delta { QuotientOrder(step, delta, widest); } else { QuotientOrder(step, widest, delta); }
    }
  }

  method StepFactor(E: seq<NodeMetric>, c: Weights, t: Weights, step: real) returns (fraction: real)
    requires t.Keys == Ids(E) && step >= 0.0
    ensures fraction == FactorFor(step, Distance(E, c, t))
  {
    hide FactorFor;
    fraction := 1.0;
    ghost var widest := 0.0;
    FactorForZero(step);
    var order := Enumerate(t.Keys);
    for i := 0 to |order|
      invariant fraction == FactorFor(step, widest) && widest >= 0.0
      invariant forall j :: 0 <= j < i ==> Gap(c, t, order[j]) <= widest
      invariant widest == 0.0 || exists j :: 0 <= j < i && Gap(c, t, order[j]) == widest
    {
      var delta := Abs(t[order[i]] - Get(c, order[i]));
      assert delta == Gap(c, t, order[i]);
      if delta > step {
        FactorForNarrows(step, widest, delta);
        fraction := Min(fraction, step / delta);
      } else {
        FactorForKeeps(step, widest, delta);
      }
      widest := Max(widest, delta);
    }
    DistanceLaw(E, c, t);
    if Distance(E, c, t) != 0.0 {
      var id :| id in Ids(E) && Gap(c, t, id) == Distance(E, c, t);
      var j :| 0 <= j < |order| && order[j] == id;
    }
  }

  lemma FactorForZero(step: real)
    requires step >= 0.0
    ensures FactorFor(step, 0.0) == 1.0
  {
  }

  lemma FactorForKeeps(step: real, widest: real, delta: real)
    requires widest >= 0.0 && 0.0 <= delta <= step
    ensures FactorFor(step, Max(widest, delta)) == FactorFor(step, widest)
  {
  }

  method Move(c: Weights, t: Weights, fraction: real) returns (proposed: Weights)
    ensures proposed == Moved(c, t, fraction)
  {
    hide Toward;
    proposed := map[];
    var order := Enumerate(t.Keys);
    for i := 0 to |order|
      invariant proposed.Keys == set j | 0 <= j < i :: order[j]
      invariant forall id :: id in proposed ==> id in t && proposed[id] == Toward(Get(c, id), t[id], fraction)
    {
      proposed := proposed[order[i] := Toward(Get(c, order[i]), t[order[i]], fraction)];
    }
  }

  // ---------------------------------------------------------------- weighted sums

  ghost function Dot(E: seq<NodeMetric>, w: Weights, value: NodeMetric -> real): real
    decreases |E|
  {
    if E == [] then 0.0
    else Dot(E[..|E| - 1], w, value) + Term(w, E[|E| - 1], value)
  }

  /** What one candidate adds to a weighted sum. */
  function Term(w: Weights, m: NodeMetric, value: NodeMetric -> real): real { Get(w, m.nodeId) * value(m) }

  function One(m: NodeMetric): real { 1.0 }

  function OriginPerRequest(m: NodeMetric): real { m.originMs / (if m.requests >= 1 then m.requests as real else 1.0) }

  function UnitPenalty(m: NodeMetric): real {
    0.35 * m.p95Ms / 1000.0 + 0.25 * m.errorRate + 0.15 * (1.0 - m.cacheHitRate)
    + 0.15 * OriginPerRequest(m) / 1000.0 + 0.10 * m.saturation
  }

  lemma DotSnoc(E: seq<NodeMetric>, i: nat, w: Weights, value: NodeMetric -> real)
    requires i < |E|
    ensures Dot(E[..i + 1], w, value) == Dot(E[..i], w, value) + Term(w, E[i], value)
  {
    assert E[..i + 1][..i] == E[..i];
  }

  method WeightedPenalty(E: seq<NodeMetric>, w: Weights) returns (value: real)
    ensures value == Dot(E, w, UnitPenalty)
  {
    hide Term;
    value := 0.0;
    for i := 0 to |E|
      invariant value == Dot(E[..i], w, UnitPenalty)
    {
      DotSnoc(E, i, w, UnitPenalty);
      value := value + Term(w, E[i], UnitPenalty);
    }
    assert E[..|E|] == E;
  }

  ghost function DeltaOf(E: seq<NodeMetric>, c: Weights, p: Weights): ExpectedDelta {
    ExpectedDelta(Dot(E, p, P95Of) - Dot(E, c, P95Of),
                  Dot(E, p, ErrorOf) - Dot(E, c, ErrorOf),
                  Dot(E, p, OriginPerRequest) - Dot(E, c, OriginPerRequest))
  }

  method ExpectedDeltaOf(E: seq<NodeMetric>, c: Weights, p: Weights) returns (delta: ExpectedDelta)
    ensures delta == DeltaOf(E, c, p)
  {
    hide Term;
    hide OriginPerRequest;
    var currentP95, proposedP95, currentError, proposedError, currentCost, proposedCost := 0.0, 0.0, 0.0, 0.0, 0.0, 0.0;
    for i := 0 to |E|
      invariant currentP95 == Dot(E[..i], c, P95Of) && proposedP95 == Dot(E[..i], p, P95Of)
      invariant currentError == Dot(E[..i], c, ErrorOf) && proposedError == Dot(E[..i], p, ErrorOf)
      invariant currentCost == Dot(E[..i], c, OriginPerRequest) && proposedCost == Dot(E[..i], p, OriginPerRequest)
    {
      DotSnoc(E, i, c, P95Of);
      DotSnoc(E, i, p, P95Of);
      DotSnoc(E, i, c, ErrorOf);
      DotSnoc(E, i, p, ErrorOf);
      DotSnoc(E, i, c, OriginPerRequest);
      DotSnoc(E, i, p, OriginPerRequest);
      var m := E[i];
      currentP95 := currentP95 + Term(c, m, P95Of);
      proposedP95 := proposedP95 + Term(p, m, P95Of);
      currentError := currentError + Term(c, m, ErrorOf);
      proposedError := proposedError + Term(p, m, ErrorOf);
      currentCost := currentCost + Term(c, m, OriginPerRequest);
      proposedCost := proposedCost + Term(p, m, OriginPerRequest);
    }
    assert E[..|E|] == E;
    delta := ExpectedDelta(proposedP95 - currentP95, proposedError - currentError, proposedCost - currentCost);
  }
}
