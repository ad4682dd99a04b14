/** What every proposal guarantees: a bounded, largest-possible move on the simplex, linear expected effects,
    and no starvation of any candidate. */
module ScorerProperties {
  import opened Domain
  import opened Ordering
  import opened RealArithmetic
  import opened Candidates
  import opened NodeWeights
  import opened Scorer

  // ---------------------------------------------------------------- weighted sums

  lemma MemberId(E: seq<NodeMetric>, i: nat)
    requires i < |E|
    ensures E[i].nodeId in Ids(E)
  {
    assert E[i] in E;
  }

  lemma TermToward(c: Weights, t: Weights, fraction: real, m: NodeMetric, value: NodeMetric -> real)
    requires m.nodeId in t
    ensures Term(Moved(c, t, fraction), m, value)
            == Term(c, m, value) + fraction * (Term(t, m, value) - Term(c, m, value))
  {
    var a, b, v := Get(c, m.nodeId), t[m.nodeId], value(m);
    assert Get(Moved(c, t, fraction), m.nodeId) == a + fraction * (b - a);
    assert (a + fraction * (b - a)) * v == a * v + fraction * (b * v - a * v);
  }

  lemma Distribute(fraction: real, x: real, y: real)
    ensures fraction * (x + y) == fraction * x + fraction * y
  {
  }

  /** Weighted sums are affine along a move. */
  lemma {:induction false} DotMoved(E: seq<NodeMetric>, c: Weights, t: Weights, fraction: real,
      value: NodeMetric -> real)
    requires Ids(E) <= t.Keys
    ensures Dot(E, Moved(c, t, fraction), value) ==
            Dot(E, c, value) + fraction * (Dot(E, t, value) - Dot(E, c, value))
    decreases |E|
  {
    hide Moved;
    hide Term;
    if E != [] {
      var last := |E| - 1;
      MemberId(E, last);
      IdsSnoc(E, last);
      assert E[..last + 1] == E;
      DotMoved(E[..last], c, t, fraction, value);
      TermToward(c, t, fraction, E[last], value);
      Distribute(fraction, Dot(E[..last], t, value) - Dot(E[..last], c, value),
                 Term(t, E[last], value) - Term(c, E[last], value));
    }
  }

  ghost predicate NonNegative(w: Weights) { forall id :: id in w ==> w[id] >= 0.0 }

  lemma TermOne(w: Weights, m: NodeMetric)
    ensures Term(w, m, One) == Get(w, m.nodeId)
  {
  }

  lemma {:induction false} MassBounds(E: seq<NodeMetric>, w: Weights)
    requires NonNegative(w)
    ensures Dot(E, w, One) >= 0.0
    ensures forall id :: id in Ids(E) ==> Get(w, id) <= Dot(E, w, One)
    decreases |E|
  {
    if E != [] {
      var last := |E| - 1;
      MassBounds(E[..last], w);
      TermOne(w, E[last]);
      IdsSnoc(E, last);
      assert E[..last + 1] == E;
    }
  }

  /** Weights in [0,1] with total 1, over candidates only. */
  ghost predicate OnSimplex(E: seq<NodeMetric>, w: Weights) {
    && w.Keys <= Ids(E)
    && (forall id :: id in w ==> 0.0 <= w[id] <= 1.0)
    && Dot(E, w, One) == 1.0
  }

  lemma SimplexFromMass(E: seq<NodeMetric>, w: Weights)
    requires w.Keys <= Ids(E) && NonNegative(w) && Dot(E, w, One) == 1.0
    ensures OnSimplex(E, w)
  {
    MassBounds(E, w);
    forall id | id in w ensures w[id] <= 1.0 {
      assert Get(w, id) <= Dot(E, w, One);
    }
  }

  // ---------------------------------------------------------------- the current weights

  lemma {:induction false} PositiveMass(E: seq<NodeMetric>, E0: seq<NodeMetric>, w: Weights, c: Weights, total: real)
    requires E <= E0 && total > 0.0
    requires forall id :: id in Ids(E0) ==> Get(c, id) == (if Get(w, id) > 0.0 then Get(w, id) / total else 0.0)
    ensures Dot(E, c, One) == PositiveSum(E, w) / total
    decreases |E|
  {
    if E != [] {
      var last := |E| - 1;
      PositiveMass(E[..last], E0, w, c, total);
      TermOne(c, E[last]);
      assert E[last] == E0[last];
      MemberId(E0, last);
      var x := if Get(w, E[last].nodeId) > 0.0 then Get(w, E[last].nodeId) else 0.0;
      QuotientSum(PositiveSum(E[..last], w), x, total);
    }
  }

  lemma {:induction false} UniformMass(E: seq<NodeMetric>, c: Weights, weight: real)
    requires forall i :: 0 <= i < |E| ==> Get(c, E[i].nodeId) == weight
    ensures Dot(E, c, One) == |E| as real * weight
    decreases |E|
  {
    hide Term;
    hide Get;
    if E != [] {
      var last := |E| - 1;
      UniformMass(E[..last], c, weight);
      TermOne(c, E[last]);
      assert |E| as real * weight == last as real * weight + weight;
    }
  }

  lemma NormalisePositive(E: seq<NodeMetric>, w: Weights)
    requires E != []
    ensures forall id :: id in Normalise(E, w) ==> Normalise(E, w)[id] > 0.0
  {
    PositiveSumSign(E, w);
    forall id | id in Normalise(E, w) ensures Normalise(E, w)[id] > 0.0 {
      if SomePositive(E, w) {
        Quotient(Get(w, id), PositiveSum(E, w));
      } else {
        Quotient(1.0, |E| as real);
      }
    }
  }

  lemma SelfQuotient(x: real)
    requires x != 0.0
    ensures x / x == 1.0 && x * (1.0 / x) == 1.0
  {
  }

  lemma NormaliseMass(E: seq<NodeMetric>, w: Weights)
    requires E != []
    ensures Dot(E, Normalise(E, w), One) == 1.0
  {
    hide Dot;
    hide PositiveSum;
    PositiveSumSign(E, w);
    var c, total := Normalise(E, w), PositiveSum(E, w);
    if SomePositive(E, w) {
      SelfQuotient(total);
      PositiveMass(E, E, w, c, total);
    } else {
      var n := |E| as real;
      SelfQuotient(n);
      forall i | 0 <= i < |E| ensures Get(c, E[i].nodeId) == 1.0 / n { MemberId(E, i); }
      UniformMass(E, c, 1.0 / n);
    }
  }

  lemma NormaliseOnSimplex(E: seq<NodeMetric>, w: Weights)
    requires E != []
    ensures OnSimplex(E, Normalise(E, w))
  {
    hide Dot;
    NormalisePositive(E, w);
    NormaliseMass(E, w);
    SimplexFromMass(E, Normalise(E, w));
  }

  ghost predicate AllPositive(E: seq<NodeMetric>, w: Weights) {
    forall i :: 0 <= i < |E| ==> Get(w, E[i].nodeId) > 0.0
  }

  /** The published `current` map covers all candidates exactly when all of them, or none, had a positive weight. */
  lemma CurrentKeysLaw(E: seq<NodeMetric>, w: Weights)
    requires E != []
    ensures Normalise(E, w).Keys <= Ids(E)
    ensures Normalise(E, w).Keys == Ids(E) <==> AllPositive(E, w) || !SomePositive(E, w)
  {
    hide PositiveSum;
    var c := Normalise(E, w);
    if SomePositive(E, w) {
      if c.Keys == Ids(E) {
        forall i | 0 <= i < |E| ensures Get(w, E[i].nodeId) > 0.0 {
          MemberId(E, i);
          assert E[i].nodeId in c;
        }
      }
      if AllPositive(E, w) {
        forall id | id in Ids(E) ensures id in c {
          var i :| 0 <= i < |E| && E[i].nodeId == id;
        }
      }
    }
  }

  // ---------------------------------------------------------------- the target

  lemma ShareAt(E: seq<NodeMetric>, signals: map<string, Signal>, m: NodeMetric)
    requires DistinctIds(E) && m in E && NonNegativeSeverities(signals)
    ensures RawTotal(E, signals) > 0.0
    ensures m.nodeId in TargetOf(E, signals)
    ensures TargetOf(E, signals)[m.nodeId] == Raw(E, signals, m) / RawTotal(E, signals)
  {
    hide Raw;
    hide RawSum;
    RawSumPositive(E, signals, |E|);
    assert m.nodeId in Ids(E);
    UniqueMetric(E, m, MetricOf(E, m.nodeId));
  }

  lemma {:induction false} TargetPrefixMass(E: seq<NodeMetric>, signals: map<string, Signal>, n: nat)
    requires DistinctIds(E) && E != [] && n <= |E| && NonNegativeSeverities(signals)
    ensures RawTotal(E, signals) > 0.0
    ensures Dot(E[..n], TargetOf(E, signals), One) == RawSum(E, signals, n) / RawTotal(E, signals)
  {
    hide Raw;
    hide TargetOf;
    hide RawTotal;
    ShareAt(E, signals, E[0]);
    if n > 0 {
      var m := E[n - 1];
      TargetPrefixMass(E, signals, n - 1);
      ShareAt(E, signals, m);
      DotSnoc(E, n - 1, TargetOf(E, signals), One);
      TermOne(TargetOf(E, signals), m);
      QuotientSum(RawSum(E, signals, n - 1), Raw(E, signals, m), RawTotal(E, signals));
    }
  }

  lemma TargetPositive(E: seq<NodeMetric>, signals: map<string, Signal>)
    requires DistinctIds(E) && E != [] && NonNegativeSeverities(signals)
    ensures TargetOf(E, signals).Keys == Ids(E)
    ensures forall id :: id in Ids(E) ==> TargetOf(E, signals)[id] > 0.0
  {
    hide Raw;
    hide RawTotal;
    hide TargetOf;
    TargetKeys(E, signals);
    forall id | id in Ids(E) ensures TargetOf(E, signals)[id] > 0.0 {
      var m := MetricOf(E, id);
      ShareAt(E, signals, m);
      RawPositive(E, signals, m);
      Quotient(Raw(E, signals, m), RawTotal(E, signals));
    }
  }

  lemma TargetOnSimplex(E: seq<NodeMetric>, signals: map<string, Signal>)
    requires DistinctIds(E) && E != [] && NonNegativeSeverities(signals)
    ensures OnSimplex(E, TargetOf(E, signals))
  {
    hide TargetOf;
    hide RawSum;
    hide Dot;
    TargetPositive(E, signals);
    TargetPrefixMass(E, signals, |E|);
    assert E[..|E|] == E;
    SimplexFromMass(E, TargetOf(E, signals));
  }

  /** The denominator of a target weight, spelled out. */
  ghost function Burden(E: seq<NodeMetric>, signals: map<string, Signal>, m: NodeMetric): real
    requires m in E
  {
    0.05
    + 0.35 * Factor(E, P95Of, m) + 0.25 * Factor(E, ErrorOf, m) + 0.15 * Factor(E, MissOf, m)
    + 0.15 * Factor(E, CostOf, m) + 0.10 * Factor(E, SaturationOf, m)
    + (if m.nodeId in signals && signals[m.nodeId].anomalous then 0.25 * signals[m.nodeId].severity else 0.0)
  }

  /** Target weights are inversely proportional to 0.05 plus the candidate's penalty: 35% latency, 25% errors, 15%
      misses, 15% origin cost and 10% saturation, each scaled to the candidates' range, plus a quarter of the severity
      of an anomalous signal. */
  lemma TargetProportions(E: seq<NodeMetric>, signals: map<string, Signal>, a: NodeMetric, b: NodeMetric)
    requires DistinctIds(E) && a in E && b in E && NonNegativeSeverities(signals)
    ensures a.nodeId in TargetOf(E, signals) && b.nodeId in TargetOf(E, signals)
    ensures TargetOf(E, signals)[a.nodeId] * Burden(E, signals, a)
            == TargetOf(E, signals)[b.nodeId] * Burden(E, signals, b)
  {
    hide Factor;
    hide TargetOf;
    hide Raw;
    hide RawTotal;
    ShareAt(E, signals, a);
    ShareAt(E, signals, b);
    RawPositive(E, signals, a);
    RawPositive(E, signals, b);
    assert Burden(E, signals, a) == 0.05 + Penalty(E, signals, a);
    assert Burden(E, signals, b) == 0.05 + Penalty(E, signals, b);
    hide Burden;
    hide Penalty;
    var total := RawTotal(E, signals);
    ShareProduct(Raw(E, signals, a), total, Burden(E, signals, a));
    ShareProduct(Raw(E, signals, b), total, Burden(E, signals, b));
  }

  lemma ShareProduct(raw: real, total: real, denominator: real)
    requires total > 0.0 && raw * denominator == 1.0
    ensures raw / total * denominator == 1.0 / total
  {
  }

  // ---------------------------------------------------------------- the factors in terms of the metrics

  lemma ExtremesAre(E: seq<NodeMetric>, value: NodeMetric -> real, low: NodeMetric, high: NodeMetric)
    requires low in E && high in E && forall m :: m in E ==> value(low) <= value(m) <= value(high)
    ensures Lowest(MapSeq(E, value)) == value(low) && Highest(MapSeq(E, value)) == value(high)
  {
    var s := MapSeq(E, value);
    ExtremesBound(s);
    ExtremesReached(s);
    var i :| 0 <= i < |E| && E[i] == low;
    var j :| 0 <= j < |E| && E[j] == high;
    assert s[i] in s && s[j] in s;
    var k :| 0 <= k < |s| && s[k] == Lowest(s);
    var l :| 0 <= l < |s| && s[l] == Highest(s);
    assert E[k] in E && E[l] in E;
  }

  lemma ExtremesReached(s: seq<real>)
    requires s != []
    ensures Lowest(s) in s && Highest(s) in s
    decreases |s|
  {
    if |s| > 1 {
      var last := |s| - 1;
      ExtremesReached(s[..last]);
      assert s == s[..last] + [s[last]];
    }
  }

  /** A factor is the position between the candidates' extremes: 0 at the lowest, 1 at the highest, linear in between;
      and 0 for all when the extremes are closer than 1e-12. */
  lemma FactorLaw(E: seq<NodeMetric>, value: NodeMetric -> real, m: NodeMetric, low: NodeMetric, high: NodeMetric)
    requires m in E && low in E && high in E && forall x :: x in E ==> value(low) <= value(x) <= value(high)
    ensures if value(high) - value(low) < 0.000000000001 then Factor(E, value, m) == 0.0
            else Factor(E, value, m) * (value(high) - value(low)) == value(m) - value(low)
  {
    ExtremesAre(E, value, low, high);
    if value(high) - value(low) >= 0.000000000001 {
      Quotient(value(m) - value(low), value(high) - value(low));
    }
  }

  /** What the five factors measure, and the same quantities in the penalty of a unit of weight. */
  lemma QuantitiesLaw(m: NodeMetric)
    ensures P95Of(m) == m.p95Ms && ErrorOf(m) == m.errorRate && SaturationOf(m) == m.saturation
    ensures MissOf(m) + m.cacheHitRate == 1.0
    ensures if m.requests == 0 then CostOf(m) == 0.0 else CostOf(m) * m.requests as real == m.originMs
    ensures OriginPerRequest(m) * (if m.requests == 0 then 1.0 else m.requests as real) == m.originMs
    ensures 1000.0 * UnitPenalty(m) == 0.35 * m.p95Ms + 250.0 * m.errorRate + 150.0 * (1.0 - m.cacheHitRate)
                                       + 0.15 * OriginPerRequest(m) + 100.0 * m.saturation
  {
    if m.requests > 0 { Quotient(m.originMs, m.requests as real); }
  }

  /** Normalisation keeps the proportions of the positive requested weights, and is uniform without any. */
  lemma CurrentProportions(E: seq<NodeMetric>, w: Weights, a: string, b: string)
    requires E != []
    ensures SomePositive(E, w) && a in Normalise(E, w) && b in Normalise(E, w) ==>
              Get(w, a) > 0.0 && Normalise(E, w)[a] * Get(w, b) == Normalise(E, w)[b] * Get(w, a)
    ensures !SomePositive(E, w) ==>
              forall id :: id in Ids(E) ==> id in Normalise(E, w) && Normalise(E, w)[id] * |E| as real == 1.0
  {
    hide PositiveSum;
    if SomePositive(E, w) && a in Normalise(E, w) && b in Normalise(E, w) {
      NormaliseTimes(E, w, a);
      NormaliseTimes(E, w, b);
      hide Normalise;
      CrossProduct(Normalise(E, w)[a], Normalise(E, w)[b], PositiveSum(E, w));
    }
    if !SomePositive(E, w) { Quotient(1.0, |E| as real); }
  }

  lemma NormaliseTimes(E: seq<NodeMetric>, w: Weights, id: string)
    requires E != [] && SomePositive(E, w) && id in Normalise(E, w)
    ensures Get(w, id) > 0.0 && Normalise(E, w)[id] * PositiveSum(E, w) == Get(w, id)
  {
    hide PositiveSum;
    PositiveSumSign(E, w);
    Quotient(Get(w, id), PositiveSum(E, w));
  }

  lemma CrossProduct(x: real, y: real, d: real)
    ensures x * (y * d) == y * (x * d)
  {
  }

  // ---------------------------------------------------------------- the move

  lemma FactorForLaw(step: real, distance: real)
    requires step >= 0.0 && distance >= 0.0
    ensures 0.0 <= FactorFor(step, distance) <= 1.0
    ensures FactorFor(step, distance) * distance == Min(step, distance)
    ensures step > 0.0 ==> FactorFor(step, distance) > 0.0
  {
    if distance > step { Quotient(step, distance); }
  }

  lemma TowardWithin(from: real, to: real, fraction: real)
    requires 0.0 <= fraction <= 1.0 && from >= 0.0 && to >= 0.0
    ensures Toward(from, to, fraction) >= 0.0
    ensures fraction > 0.0 && to > 0.0 ==> Toward(from, to, fraction) > 0.0
  {
    Product(1.0 - fraction, from);
    Product(fraction, to);
    assert Toward(from, to, fraction) == (1.0 - fraction) * from + fraction * to;
    if fraction > 0.0 && to > 0.0 { StrictScale(fraction, 0.0, to); }
  }

  lemma MovedNonNegative(c: Weights, t: Weights, fraction: real)
    requires 0.0 <= fraction <= 1.0 && NonNegative(c) && NonNegative(t)
    ensures NonNegative(Moved(c, t, fraction))
    ensures fraction > 0.0 ==> forall id :: id in t && t[id] > 0.0 ==> Moved(c, t, fraction)[id] > 0.0
  {
    hide Toward;
    forall id | id in t
      ensures Moved(c, t, fraction)[id] >= 0.0
      ensures fraction > 0.0 && t[id] > 0.0 ==> Moved(c, t, fraction)[id] > 0.0
    {
      TowardWithin(Get(c, id), t[id], fraction);
    }
  }

  lemma MovedOnSimplex(E: seq<NodeMetric>, c: Weights, t: Weights, fraction: real)
    requires 0.0 <= fraction <= 1.0 && OnSimplex(E, c) && OnSimplex(E, t) && t.Keys == Ids(E)
    ensures OnSimplex(E, Moved(c, t, fraction)) && Moved(c, t, fraction).Keys == Ids(E)
  {
    hide Dot;
    hide Toward;
    MovedNonNegative(c, t, fraction);
    DotMoved(E, c, t, fraction, One);
    SimplexFromMass(E, Moved(c, t, fraction));
  }

  lemma AbsScaled(fraction: real, x: real)
    requires fraction >= 0.0
    ensures Abs(fraction * x) == fraction * Abs(x)
  {
    if x >= 0.0 { Product(fraction, x); } else { Product(fraction, -x); }
  }

  lemma GapMoved(c: Weights, t: Weights, fraction: real, id: string)
    requires 0.0 <= fraction <= 1.0 && id in t
    ensures Gap(c, Moved(c, t, fraction), id) == fraction * Gap(c, t, id)
    ensures Gap(Moved(c, t, fraction), t, id) == (1.0 - fraction) * Gap(c, t, id)
  {
    var d := t[id] - Get(c, id);
    AbsScaled(fraction, d);
    AbsScaled(1.0 - fraction, d);
    assert t[id] - Toward(Get(c, id), t[id], fraction) == (1.0 - fraction) * d;
  }

  /** The share mu of the full move keeps every weight within the step. */
  ghost predicate Feasible(E: seq<NodeMetric>, c: Weights, t: Weights, step: real, mu: real) {
    forall id :: id in Ids(E) ==> Gap(c, Moved(c, t, mu), id) <= step
  }

  lemma StepFeasible(E: seq<NodeMetric>, c: Weights, t: Weights, step: real)
    requires step >= 0.0 && t.Keys == Ids(E)
    ensures Feasible(E, c, t, step, FactorFor(step, Distance(E, c, t)))
  {
    hide Moved;
    hide Gap;
    hide Distance;
    hide FactorFor;
    hide Ids;
    var d := Distance(E, c, t);
    var fraction := FactorFor(step, d);
    DistanceLaw(E, c, t);
    FactorForLaw(step, d);
    forall id | id in Ids(E) ensures Gap(c, Moved(c, t, fraction), id) <= step {
      GapMoved(c, t, fraction, id);
      Reach(Gap(c, Moved(c, t, fraction), id), fraction, Gap(c, t, id), d, step);
    }
  }

  lemma Reach(moved: real, fraction: real, gap: real, widest: real, step: real)
    requires fraction >= 0.0 && gap <= widest
    requires moved == fraction * gap && fraction * widest == Min(step, widest)
    ensures moved <= step
  {
    Scale(widest, gap, fraction);
  }

  lemma ShareAtMost(mu: real, d: real, step: real)
    requires d > step >= 0.0 && mu * d <= step
    ensures mu <= FactorFor(step, d)
  {
    Quotient(step, d);
    if mu > step / d { StrictScale(mu, step / d, d); }
  }

  lemma FeasibleShare(E: seq<NodeMetric>, c: Weights, t: Weights, step: real, mu: real)
    requires step >= 0.0 && t.Keys == Ids(E)
    requires 0.0 <= mu <= 1.0 && Feasible(E, c, t, step, mu)
    ensures mu <= FactorFor(step, Distance(E, c, t))
  {
    hide Moved;
    hide Gap;
    hide Distance;
    hide Ids;
    var d := Distance(E, c, t);
    DistanceLaw(E, c, t);
    if d > step {
      hide FactorFor;
      var id :| id in Ids(E) && Gap(c, t, id) == d;
      GapMoved(c, t, mu, id);
      ShareAtMost(mu, d, step);
    }
  }

  /** The step bound and its tightness: no weight moves by more than the maximum step, and no larger share of the full
      move would respect that. */
  lemma StepLaw(E: seq<NodeMetric>, c: Weights, t: Weights, step: real)
    requires step >= 0.0 && t.Keys == Ids(E)
    ensures 0.0 <= FactorFor(step, Distance(E, c, t)) <= 1.0
    ensures forall id :: id in Ids(E) ==> Gap(c, Moved(c, t, FactorFor(step, Distance(E, c, t))), id) <= step
    ensures forall mu: real :: 0.0 <= mu <= 1.0 && Feasible(E, c, t, step, mu) ==>
              mu <= FactorFor(step, Distance(E, c, t))
  {
    hide Moved;
    hide Gap;
    hide Distance;
    hide FactorFor;
    DistanceLaw(E, c, t);
    FactorForLaw(step, Distance(E, c, t));
    StepFeasible(E, c, t, step);
    forall mu: real | 0.0 <= mu <= 1.0 && Feasible(E, c, t, step, mu) ensures mu <= FactorFor(step, Distance(E, c, t)) {
      FeasibleShare(E, c, t, step, mu);
    }
  }

  lemma DifferenceMoved(E: seq<NodeMetric>, c: Weights, t: Weights, fraction: real, value: NodeMetric -> real)
    requires t.Keys == Ids(E)
    ensures Dot(E, Moved(c, t, fraction), value) - Dot(E, c, value) == fraction * (Dot(E, t, value) - Dot(E, c, value))
  {
    hide *;
    DotMoved(E, c, t, fraction, value);
  }

  lemma Negated(fraction: real, x: real)
    ensures -(fraction * x) == fraction * -x
  {
  }

  lemma BenefitMoved(E: seq<NodeMetric>, c: Weights, t: Weights, fraction: real)
    requires t.Keys == Ids(E)
    ensures Benefit(E, c, Moved(c, t, fraction)) == fraction * Benefit(E, c, t)
  {
    hide Dot;
    hide Moved;
    hide Ids;
    DifferenceMoved(E, c, t, fraction, UnitPenalty);
    Negated(fraction, Dot(E, t, UnitPenalty) - Dot(E, c, UnitPenalty));
  }

  /** Expected deltas and the penalty benefit of a shortened move are the same share of those of the full move. */
  lemma EffectsLaw(E: seq<NodeMetric>, c: Weights, t: Weights, fraction: real)
    requires t.Keys == Ids(E)
    ensures var part, full := DeltaOf(E, c, Moved(c, t, fraction)), DeltaOf(E, c, t);
            && part.p95Ms == fraction * full.p95Ms
            && part.errorRate == fraction * full.errorRate
            && part.costUnits == fraction * full.costUnits
    ensures Benefit(E, c, Moved(c, t, fraction)) == fraction * Benefit(E, c, t)
  {
    hide Dot;
    hide Moved;
    hide Ids;
    hide Benefit;
    BenefitMoved(E, c, t, fraction);
    DifferenceMoved(E, c, t, fraction, P95Of);
    DifferenceMoved(E, c, t, fraction, ErrorOf);
    DifferenceMoved(E, c, t, fraction, OriginPerRequest);
  }

  // ---------------------------------------------------------------- no starvation

  ghost predicate UnitSeverities(signals: map<string, Signal>) {
    forall id :: id in signals ==> 0.0 <= signals[id].severity <= 1.0
  }

  lemma InverseRange(x: real, y: real)
    requires 0.05 <= x <= 1.30 && y * x == 1.0
    ensures 1.0 / 1.30 <= y <= 20.0
  {
    assert y == 1.0 / x;
    QuotientOrder(1.0, 0.05, x);
    QuotientOrder(1.0, x, 1.30);
  }

  lemma RawRange(E: seq<NodeMetric>, signals: map<string, Signal>, m: NodeMetric)
    requires m in E && UnitSeverities(signals)
    ensures 1.0 / 1.30 <= Raw(E, signals, m) <= 20.0
  {
    hide Raw;
    hide Penalty;
    PenaltyBounds(E, signals, m);
    RawPositive(E, signals, m);
    InverseRange(0.05 + Penalty(E, signals, m), Raw(E, signals, m));
  }

  lemma {:induction false} RawSumRange(E: seq<NodeMetric>, signals: map<string, Signal>, n: nat, low: real)
    requires E != [] && n <= |E| && UnitSeverities(signals)
    requires forall m :: m in E ==> Raw(E, signals, m) <= 26.0 * low
    ensures RawSum(E, signals, n) <= 26.0 * n as real * low
  {
    hide Raw;
    if n > 0 {
      RawSumRange(E, signals, n - 1, low);
      assert E[n - 1] in E;
      assert 26.0 * n as real * low == 26.0 * (n - 1) as real * low + 26.0 * low;
    }
  }

  lemma ShareLower(raw: real, total: real, bound: real)
    requires raw > 0.0 && total > 0.0 && bound > 0.0 && total <= bound * raw
    ensures raw / total >= 1.0 / bound
  {
    var q, r := raw / total, 1.0 / bound;
    assert q * total == raw && r * bound == 1.0;
    if q < r {
      StrictScale(r, q, total);
      assert r * (bound * raw) == raw;
      Scale(bound * raw, total, r);
    }
  }

  lemma ShareOrder(a: real, b: real, total: real)
    requires total > 0.0 && a <= b
    ensures a / total <= b / total
  {
    Quotient(b - a, total);
    QuotientSum(a, b - a, total);
  }

  /** Whatever the metrics, no candidate's target falls below 1/(26 n), and no candidate gets more than 26 times
      another's target. */
  lemma NoStarvation(E: seq<NodeMetric>, signals: map<string, Signal>, a: NodeMetric, b: NodeMetric)
    requires DistinctIds(E) && a in E && b in E && UnitSeverities(signals)
    ensures a.nodeId in TargetOf(E, signals) && b.nodeId in TargetOf(E, signals)
    ensures TargetOf(E, signals)[a.nodeId] >= 1.0 / (26.0 * |E| as real)
    ensures TargetOf(E, signals)[b.nodeId] <= 26.0 * TargetOf(E, signals)[a.nodeId]
  {
    hide Raw;
    hide RawSum;
    hide TargetOf;
    hide Factor;
    hide RawTotal;
    hide Penalty;
    var low, total := Raw(E, signals, a), RawTotal(E, signals);
    ShareAt(E, signals, a);
    ShareAt(E, signals, b);
    forall m | m in E ensures Raw(E, signals, m) <= 26.0 * low {
      RawRange(E, signals, m);
      RawRange(E, signals, a);
    }
    RawPositive(E, signals, a);
    RawSumRange(E, signals, |E|, low);
    RawTotalIsSum(E, signals);
    SharesSpread(low, Raw(E, signals, b), total, |E| as real);
  }

  lemma SharesSpread(low: real, high: real, total: real, n: real)
    requires low > 0.0 && total > 0.0 && n > 0.0
    requires high <= 26.0 * low && total <= 26.0 * n * low
    ensures low / total >= 1.0 / (26.0 * n)
    ensures high / total <= 26.0 * (low / total)
  {
    ShareLower(low, total, 26.0 * n);
    ShareOrder(high, 26.0 * low, total);
    assert 26.0 * low / total == 26.0 * (low / total);
  }

  lemma ScaledMonotone(x: real, y: real, lowest: real, highest: real)
    requires x <= y && lowest <= highest
    ensures Scaled(x, lowest, highest) <= Scaled(y, lowest, highest)
  {
    if Abs(highest - lowest) >= FLAT { ShareOrder(x - lowest, y - lowest, highest - lowest); }
  }

  lemma FactorMonotone(E: seq<NodeMetric>, value: NodeMetric -> real, a: NodeMetric, b: NodeMetric)
    requires a in E && b in E && value(a) <= value(b)
    ensures Factor(E, value, a) <= Factor(E, value, b)
  {
    hide Scaled;
    var i :| 0 <= i < |E| && E[i] == a;
    assert MapSeq(E, value)[i] in MapSeq(E, value);
    ExtremesBound(MapSeq(E, value));
    ScaledMonotone(value(a), value(b), Lowest(MapSeq(E, value)), Highest(MapSeq(E, value)));
  }

  lemma AttractivenessOrder(p: real, q: real)
    requires 0.0 <= p <= q
    ensures Attractiveness(q) <= Attractiveness(p)
  {
    QuotientOrder(1.0, 0.05 + p, 0.05 + q);
  }

  /** A candidate that is no worse in all five factors and in severity never gets a smaller target. */
  lemma BetterGetsMore(E: seq<NodeMetric>, signals: map<string, Signal>, a: NodeMetric, b: NodeMetric)
    requires DistinctIds(E) && a in E && b in E && NonNegativeSeverities(signals)
    requires a.p95Ms <= b.p95Ms && a.errorRate <= b.errorRate && a.cacheHitRate >= b.cacheHitRate
    requires CostOf(a) <= CostOf(b) && a.saturation <= b.saturation
    requires Surcharge(signals, a.nodeId) <= Surcharge(signals, b.nodeId)
    ensures a.nodeId in TargetOf(E, signals) && b.nodeId in TargetOf(E, signals)
    ensures TargetOf(E, signals)[a.nodeId] >= TargetOf(E, signals)[b.nodeId]
  {
    hide Factor;
    hide CostOf;
    hide RawTotal;
    hide TargetOf;
    hide Attractiveness;
    ShareAt(E, signals, a);
    ShareAt(E, signals, b);
    PenaltyBounds(E, signals, a);
    FactorMonotone(E, P95Of, a, b);
    FactorMonotone(E, ErrorOf, a, b);
    FactorMonotone(E, MissOf, a, b);
    FactorMonotone(E, CostOf, a, b);
    FactorMonotone(E, SaturationOf, a, b);
    AttractivenessOrder(Penalty(E, signals, a), Penalty(E, signals, b));
    ShareOrder(Raw(E, signals, b), Raw(E, signals, a), RawTotal(E, signals));
  }

  // ---------------------------------------------------------------- evidence

  lemma {:induction false} AddAllLaw(values: seq<string>, additions: seq<string>)
    requires Distinct(values)
    ensures Distinct(AddAll(values, additions))
    ensures forall v :: v in AddAll(values, additions) <==> v in values || v in additions
    decreases |additions|
  {
    if additions != [] {
      var last := |additions| - 1;
      AddAllLaw(values, additions[..last]);
      assert additions == additions[..last] + [additions[last]];
    }
  }

  /** The code is one of an anomalous candidate's signal. */
  ghost predicate RaisedBy(E: seq<NodeMetric>, signals: map<string, Signal>, v: string) {
    exists m :: m in E && m.nodeId in signals && signals[m.nodeId].anomalous && v in signals[m.nodeId].reasonCodes
  }

  /** Reason codes are the three guardrail codes plus exactly the codes of the anomalous candidates, each once. */
  lemma {:induction false} ReasonsLaw(E: seq<NodeMetric>, signals: map<string, Signal>)
    ensures Distinct(Reasons(E, signals))
    ensures forall v :: v in Reasons(E, signals) <==>
              v == "BOUNDED_MULTI_OBJECTIVE_SCORE" || v == "MAX_WEIGHT_STEP_OK" || v == "CAPACITY_HEADROOM_OK"
              || RaisedBy(E, signals, v)
    decreases |E|
  {
    hide RaisedBy;
    if E == [] {
      assert |BASE_REASONS[0]| == 29 && |BASE_REASONS[1]| == 18 && |BASE_REASONS[2]| == 20;
      assert forall v :: v in BASE_REASONS <==> v == BASE_REASONS[0] || v == BASE_REASONS[1] || v == BASE_REASONS[2];
      forall v ensures !RaisedBy(E, signals, v) { NoneRaised(signals, v); }
    } else {
      var last := |E| - 1;
      var codes := CodesOf(signals, E[last].nodeId);
      hide CodesOf;
      ReasonsLaw(E[..last], signals);
      AddAllLaw(Reasons(E[..last], signals), codes);
      hide AddAll;
      forall v ensures RaisedBy(E, signals, v) <==> RaisedBy(E[..last], signals, v) || v in codes {
        RaisedNext(E, signals, v);
      }
    }
  }

  lemma NoneRaised(signals: map<string, Signal>, v: string)
    ensures !RaisedBy([], signals, v)
  {
  }

  lemma RaisedNext(E: seq<NodeMetric>, signals: map<string, Signal>, v: string)
    requires E != []
    ensures var last := |E| - 1;
            RaisedBy(E, signals, v) <==>
            RaisedBy(E[..last], signals, v) || v in CodesOf(signals, E[last].nodeId)
  {
    var last := |E| - 1;
    assert E == E[..last] + [E[last]];
    assert E[last] in E;
  }

  /** The input window spans all candidates' windows (for window starts after the zero instant). */
  lemma {:induction false} SpanLaw(E: seq<NodeMetric>)
    requires E != []
    requires forall m :: m in E ==> m.windowStart > 0 && m.windowEnd > 0
    ensures (forall m :: m in E ==> StartOf(E) <= m.windowStart) && exists m :: m in E && m.windowStart == StartOf(E)
    ensures (forall m :: m in E ==> m.windowEnd <= EndOf(E)) && exists m :: m in E && m.windowEnd == EndOf(E)
    decreases |E|
  {
    var last := |E| - 1;
    assert E == E[..last] + [E[last]];
    assert E[last] in E;
    if last > 0 {
      SpanLaw(E[..last]);
      var a :| a in E[..last] && a.windowStart == StartOf(E[..last]);
      var b :| b in E[..last] && b.windowEnd == EndOf(E[..last]);
      assert a in E && b in E;
    }
  }

  // ---------------------------------------------------------------- the proposal

  /** What a caller may rely on for every successful proposal. */
  ghost predicate Sound(cfg: Config, now: Instant, metrics: seq<NodeMetric>, requested: Weights,
                        signals: map<string, Signal>, p: Proposal)
  {
    var nodes := p.evidence.Keys;
    && |nodes| >= 2
    && (forall id :: id in nodes ==> p.evidence[id].nodeId == id && Usable(cfg, now, metrics, p.evidence[id]))
    && (forall m :: Usable(cfg, now, metrics, m) ==> m.nodeId in nodes && p.evidence[m.nodeId] == m)
    && p.proposed.Keys == nodes
    && p.current.Keys <= nodes
    && (forall id :: id in p.proposed ==> 0.0 <= p.proposed[id] <= 1.0)
    && (forall id :: id in p.current ==> 0.0 < p.current[id] <= 1.0)
    && (forall id :: id in nodes ==> Abs(p.proposed[id] - Get(p.current, id)) <= cfg.maximumWeightStep)
    && Distinct(p.reasonCodes)
  }

  ghost predicate MassOne(E: seq<NodeMetric>, w: Weights) { Dot(E, w, One) == 1.0 }

  function WeightIn(w: Weights): string -> real { id => Get(w, id) }

  lemma {:induction false} IdsSum(E: seq<NodeMetric>, w: Weights)
    ensures RealSum(MapSeq(E, IdOf), WeightIn(w)) == Dot(E, w, One)
    decreases |E|
  {
    if E != [] {
      var last := |E| - 1;
      IdsSum(E[..last], w);
      assert MapSeq(E, IdOf) == MapSeq(E[..last], IdOf) + [E[last].nodeId];
      RealSumConcat(MapSeq(E[..last], IdOf), [E[last].nodeId], WeightIn(w));
      TermOne(w, E[last]);
    }
  }

  lemma IdsList(E: seq<NodeMetric>)
    requires DistinctIds(E)
    ensures Lists(MapSeq(E, IdOf), Ids(E))
  {
    var ids := MapSeq(E, IdOf);
    forall id | id in Ids(E) ensures id in ids {
      var i :| 0 <= i < |E| && E[i].nodeId == id;
      assert ids[i] == id;
    }
  }

  /** The total over the candidates is the sum over the map itself, in any order. */
  lemma MassIsSum(E: seq<NodeMetric>, w: Weights, order: seq<string>)
    requires DistinctIds(E) && w.Keys <= Ids(E) && Lists(order, w.Keys)
    ensures RealSum(order, WeightIn(w)) == Dot(E, w, One)
  {
    hide Ids;
    hide DistinctIds;
    hide RealSum;
    var rest := ListingOf(Ids(E) - w.Keys);
    RealSumZero(rest, WeightIn(w));
    ListsConcat(order, rest, w.Keys, Ids(E));
    IdsList(E);
    ListingsPermute(order + rest, MapSeq(E, IdOf), Ids(E));
    RealSumPermutation(order + rest, MapSeq(E, IdOf), WeightIn(w));
    RealSumConcat(order, rest, WeightIn(w));
    IdsSum(E, w);
  }

  lemma IdsSize(E: seq<NodeMetric>)
    requires DistinctIds(E)
    ensures |Ids(E)| == |E|
    decreases |E|
  {
    if E == [] {
      assert Ids(E) == {};
    } else {
      var last := |E| - 1;
      IdsSize(E[..last]);
      IdsSnoc(E, last);
      assert E[..last + 1] == E;
      assert E[last].nodeId !in Ids(E[..last]);
    }
  }

  lemma EvidenceLaw(cfg: Config, now: Instant, metrics: seq<NodeMetric>, E: seq<NodeMetric>)
    requires CandidateList(cfg, now, metrics, E)
    ensures EvidenceOf(E).Keys == Ids(E) && |EvidenceOf(E).Keys| == |E|
    ensures forall id :: id in Ids(E) ==>
              EvidenceOf(E)[id].nodeId == id && Usable(cfg, now, metrics, EvidenceOf(E)[id])
    ensures forall m :: Usable(cfg, now, metrics, m) ==> m.nodeId in Ids(E) && EvidenceOf(E)[m.nodeId] == m
  {
    IdsSize(E);
    assert EvidenceOf(E).Keys == Ids(E);
    forall id | id in Ids(E)
      ensures EvidenceOf(E)[id].nodeId == id && Usable(cfg, now, metrics, EvidenceOf(E)[id])
    {
      var m := MetricOf(E, id);
      assert m in E;
    }
    forall m | Usable(cfg, now, metrics, m) ensures m.nodeId in Ids(E) && EvidenceOf(E)[m.nodeId] == m {
      assert m in E;
      UniqueMetric(E, MetricOf(E, m.nodeId), m);
    }
  }

  lemma StepWeights(cfg: Config, E: seq<NodeMetric>, requested: Weights, signals: map<string, Signal>)
    requires E != [] && DistinctIds(E) && NonNegativeSeverities(signals) && cfg.maximumWeightStep >= 0.0
    ensures var c := Normalise(E, requested);
            var p := NextWeights(cfg, E, signals, c);
            && OnSimplex(E, c) && OnSimplex(E, p) && p.Keys == Ids(E)
            && (forall id :: id in c ==> c[id] > 0.0)
            && (cfg.maximumWeightStep > 0.0 ==> forall id :: id in p ==> p[id] > 0.0)
            && (forall id :: id in Ids(E) ==> Gap(c, p, id) <= cfg.maximumWeightStep)
  {
    hide Normalise;
    hide TargetOf;
    hide Distance;
    hide Dot;
    hide Gap;
    hide Moved;
    hide FactorFor;
    var c, t := Normalise(E, requested), TargetOf(E, signals);
    var d := Distance(E, c, t);
    var fraction := FactorFor(cfg.maximumWeightStep, d);
    NormaliseOnSimplex(E, requested);
    NormalisePositive(E, requested);
    TargetOnSimplex(E, signals);
    TargetPositive(E, signals);
    DistanceLaw(E, c, t);
    FactorForLaw(cfg.maximumWeightStep, d);
    StepLaw(E, c, t, cfg.maximumWeightStep);
    MovedOnSimplex(E, c, t, fraction);
    MovedNonNegative(c, t, fraction);
  }

  /** Every successful proposal is sound, has both weight maps of total 1 and clears the benefit margin. */
  lemma ProposalLaw(cfg: Config, now: Instant, metrics: seq<NodeMetric>, E: seq<NodeMetric>, requested: Weights,
                    signals: map<string, Signal>, p: Proposal)
    requires CandidateList(cfg, now, metrics, E)
    requires cfg.maximumWeightStep >= 0.0 && NonNegativeSeverities(signals)
    requires Answer(cfg, now, metrics, E, requested, signals) == Ok(p)
    ensures Sound(cfg, now, metrics, requested, signals, p)
    ensures MassOne(E, p.current) && MassOne(E, p.proposed)
    ensures Benefit(E, p.current, p.proposed) >= cfg.benefitMargin
  {
    hide Normalise;
    hide NextWeights;
    hide EvidenceOf;
    hide CandidateList;
    hide Dot;
    hide Reasons;
    hide DeltaOf;
    hide IsEligible;
    hide StartOf;
    hide EndOf;
    hide Ids;
    assert |E| >= 2 && Decide(cfg, E, requested, signals) == Ok(p);
    assert DistinctIds(E) by { CandidatesDistinct(cfg, now, metrics, E); }
    EvidenceLaw(cfg, now, metrics, E);
    ReasonsLaw(E, signals);
    StepWeights(cfg, E, requested, signals);
  }

  // ---------------------------------------------------------------- the published key sets

  /** The routing contract wants `current` and `proposed` over the same node ids.  They are, exactly when all candidates
      or none had a positive requested weight. */
  lemma SameNodeIds(cfg: Config, now: Instant, metrics: seq<NodeMetric>, E: seq<NodeMetric>, requested: Weights,
                    signals: map<string, Signal>, p: Proposal)
    requires CandidateList(cfg, now, metrics, E)
    requires cfg.maximumWeightStep >= 0.0 && NonNegativeSeverities(signals)
    requires Answer(cfg, now, metrics, E, requested, signals) == Ok(p)
    ensures p.current.Keys <= p.proposed.Keys
    ensures p.current.Keys == p.proposed.Keys <==> AllPositive(E, requested) || !SomePositive(E, requested)
  {
    hide Normalise;
    hide NextWeights;
    hide CandidateList;
    hide Benefit;
    CandidatesDistinct(cfg, now, metrics, E);
    StepWeights(cfg, E, requested, signals);
    CurrentKeysLaw(E, requested);
  }

  lemma TwoTerms(x: NodeMetric, y: NodeMetric, w: Weights, value: NodeMetric -> real)
    ensures Dot([x, y], w, value) == Term(w, x, value) + Term(w, y, value)
  {
    hide Term;
    assert [x, y][..1] == [x] && [x][..0] == [];
    assert Dot([], w, value) == 0.0 && Dot([x], w, value) == Term(w, x, value);
  }

  /** `E` lists the two nodes, in either order. */
  ghost predicate TwoNodes(E: seq<NodeMetric>, a: NodeMetric, b: NodeMetric) {
    a.nodeId != b.nodeId && (E == [a, b] || E == [b, a])
  }

  lemma TwoDot(E: seq<NodeMetric>, a: NodeMetric, b: NodeMetric, w: Weights, value: NodeMetric -> real)
    requires TwoNodes(E, a, b)
    ensures Dot(E, w, value) == Get(w, a.nodeId) * value(a) + Get(w, b.nodeId) * value(b)
  {
    hide Dot;
    TwoTerms(a, b, w, value);
    TwoTerms(b, a, w, value);
  }

  /** All requested weight is on a. */
  ghost predicate AllOn(requested: Weights, a: NodeMetric, b: NodeMetric) {
    Get(requested, a.nodeId) > 0.0 && Get(requested, b.nodeId) <= 0.0
  }

  lemma AllOnCurrent(E: seq<NodeMetric>, a: NodeMetric, b: NodeMetric, requested: Weights)
    requires TwoNodes(E, a, b) && AllOn(requested, a, b)
    ensures Normalise(E, requested).Keys == {a.nodeId} && Get(Normalise(E, requested), a.nodeId) == 1.0
  {
    hide Dot;
    hide PositiveSum;
    assert Ids(E) == {a.nodeId, b.nodeId};
    assert SomePositive(E, requested) by { assert a in E; }
    NormaliseMass(E, requested);
    TwoDot(E, a, b, Normalise(E, requested), One);
  }

  lemma FullBenefit(E: seq<NodeMetric>, a: NodeMetric, b: NodeMetric, c: Weights, t: Weights)
    requires TwoNodes(E, a, b) && c.Keys == {a.nodeId} && Get(c, a.nodeId) == 1.0 && Dot(E, t, One) == 1.0
    ensures Benefit(E, c, t) == Get(t, b.nodeId) * (UnitPenalty(a) - UnitPenalty(b))
  {
    hide Dot;
    hide UnitPenalty;
    TwoDot(E, a, b, c, UnitPenalty);
    TwoDot(E, a, b, t, UnitPenalty);
    TwoDot(E, a, b, t, One);
    Spread(Get(t, a.nodeId), Get(t, b.nodeId), UnitPenalty(a), UnitPenalty(b));
  }

  lemma Spread(ta: real, tb: real, ua: real, ub: real)
    requires ta + tb == 1.0
    ensures ua - (ta * ua + tb * ub) == tb * (ua - ub)
  {
    assert ta * ua == (1.0 - tb) * ua == ua - tb * ua;
  }

  /** Weights differ by at most 1, so a step below 1 is at most the shared factor. */
  lemma FactorAtLeastStep(E: seq<NodeMetric>, c: Weights, t: Weights, step: real)
    requires 0.0 < step <= 1.0 && OnSimplex(E, c) && OnSimplex(E, t)
    ensures FactorFor(step, Distance(E, c, t)) >= step
  {
    hide Dot;
    hide Distance;
    hide FactorFor;
    DistanceLaw(E, c, t);
    UnitFactor(step, Distance(E, c, t));
  }

  lemma UnitFactor(step: real, d: real)
    requires 0.0 < step <= 1.0 && d <= 1.0
    ensures FactorFor(step, d) >= step
  {
    if d > step {
      Quotient(step, d);
      Scale(1.0, d, step / d);
    }
  }

  lemma GateBound(fraction: real, step: real, share: real, gain: real, margin: real)
    requires fraction >= step > 0.0 && share >= 1.0 / 52.0 && gain >= 0.0 && 52.0 * margin <= step * gain
    ensures fraction * (share * gain) >= margin
  {
    Scale(share, 1.0 / 52.0, gain);
    Scale(fraction, step, share * gain);
    Scale(share * gain, gain / 52.0, step);
  }

  /** The contract does fail, for every configuration and any signals: when all requested weight is on the worse of two
      candidates and the difference is worth the margin, a proposal over both nodes comes with a current map over
      one. */
  lemma SameNodeIdsCanFail(cfg: Config, now: Instant, metrics: seq<NodeMetric>, E: seq<NodeMetric>, a: NodeMetric,
                           b: NodeMetric, requested: Weights, signals: map<string, Signal>)
    requires CandidateList(cfg, now, metrics, E) && TwoNodes(E, a, b)
    requires UnitSeverities(signals) && 0.0 < cfg.maximumWeightStep <= 1.0
    requires AllOn(requested, a, b) && UnitPenalty(a) >= UnitPenalty(b)
    requires 52.0 * cfg.benefitMargin <= cfg.maximumWeightStep * (UnitPenalty(a) - UnitPenalty(b))
    ensures Answer(cfg, now, metrics, E, requested, signals).Ok?
    ensures var p := Answer(cfg, now, metrics, E, requested, signals).value;
            p.current.Keys == {a.nodeId} && p.proposed.Keys == {a.nodeId, b.nodeId}
  {
    hide Normalise;
    hide CandidateList;
    hide UnitPenalty;
    hide Benefit;
    hide NextWeights;
    hide OnSimplex;
    hide Reasons;
    hide DeltaOf;
    hide EvidenceOf;
    hide StartOf;
    hide EndOf;
    CandidatesDistinct(cfg, now, metrics, E);
    StepWeights(cfg, E, requested, signals);
    AllOnCurrent(E, a, b, requested);
    TwoBenefit(cfg, E, a, b, requested, signals);
    assert Ids(E) == {a.nodeId, b.nodeId};
  }

  lemma TwoBenefit(cfg: Config, E: seq<NodeMetric>, a: NodeMetric, b: NodeMetric, requested: Weights,
                   signals: map<string, Signal>)
    requires TwoNodes(E, a, b) && DistinctIds(E)
    requires UnitSeverities(signals) && 0.0 < cfg.maximumWeightStep <= 1.0
    requires AllOn(requested, a, b) && UnitPenalty(a) >= UnitPenalty(b)
    requires 52.0 * cfg.benefitMargin <= cfg.maximumWeightStep * (UnitPenalty(a) - UnitPenalty(b))
    ensures var c := Normalise(E, requested);
            Benefit(E, c, NextWeights(cfg, E, signals, c)) >= cfg.benefitMargin
  {
    hide Normalise;
    hide TargetOf;
    hide UnitPenalty;
    hide Benefit;
    hide Distance;
    hide FactorFor;
    hide Moved;
    hide Dot;
    hide AllOn;
    var c, t := Normalise(E, requested), TargetOf(E, signals);
    var fraction := FactorFor(cfg.maximumWeightStep, Distance(E, c, t));
    NormaliseOnSimplex(E, requested);
    TargetPositive(E, signals);
    TargetOnSimplex(E, signals);
    assert a in E && b in E && |E| == 2;
    NoStarvation(E, signals, b, a);
    AllOnCurrent(E, a, b, requested);
    FullBenefit(E, a, b, c, t);
    BenefitMoved(E, c, t, fraction);
    FactorAtLeastStep(E, c, t, cfg.maximumWeightStep);
    GateBound(fraction, cfg.maximumWeightStep, t[b.nodeId], UnitPenalty(a) - UnitPenalty(b), cfg.benefitMargin);
  }

  // ---------------------------------------------------------------- what the gate measures

  lemma {:induction false} DotCombination(E: seq<NodeMetric>, w: Weights)
    ensures Dot(E, w, UnitPenalty) ==
            0.35 * Dot(E, w, P95Of) / 1000.0 + 0.25 * Dot(E, w, ErrorOf) + 0.15 * Dot(E, w, MissOf)
            + 0.15 * Dot(E, w, OriginPerRequest) / 1000.0 + 0.10 * Dot(E, w, SaturationOf)
    decreases |E|
  {
    hide Term;
    if E != [] {
      var last := |E| - 1;
      DotCombination(E[..last], w);
      TermCombination(w, E[last]);
    }
  }

  lemma TermCombination(w: Weights, m: NodeMetric)
    ensures Term(w, m, UnitPenalty) ==
            0.35 * Term(w, m, P95Of) / 1000.0 + 0.25 * Term(w, m, ErrorOf) + 0.15 * Term(w, m, MissOf)
            + 0.15 * Term(w, m, OriginPerRequest) / 1000.0 + 0.10 * Term(w, m, SaturationOf)
  {
    hide OriginPerRequest;
  }

  /** The gated benefit is the negated weighted sum of the published deltas (latency in seconds, error rate, origin time
      per request in seconds) and of the unpublished changes in miss rate and saturation. */
  lemma BenefitFromDeltas(E: seq<NodeMetric>, c: Weights, p: Weights)
    ensures var d := DeltaOf(E, c, p);
            Benefit(E, c, p) == -(0.35 * d.p95Ms / 1000.0 + 0.25 * d.errorRate + 0.15 * d.costUnits / 1000.0
                                  + 0.15 * (Dot(E, p, MissOf) - Dot(E, c, MissOf))
                                  + 0.10 * (Dot(E, p, SaturationOf) - Dot(E, c, SaturationOf)))
  {
    hide Dot;
    DotCombination(E, c);
    DotCombination(E, p);
  }

  /** A proposal moves by the largest share of the full move that keeps every weight within the step. */
  lemma ProposalIsLargestMove(cfg: Config, E: seq<NodeMetric>, requested: Weights, signals: map<string, Signal>,
                              p: Proposal, mu: real)
    requires E != [] && cfg.maximumWeightStep >= 0.0 && Decide(cfg, E, requested, signals) == Ok(p)
    requires 0.0 <= mu <= 1.0 && Feasible(E, p.current, TargetOf(E, signals), cfg.maximumWeightStep, mu)
    ensures exists fraction: real :: mu <= fraction <= 1.0
              && p.proposed == Moved(p.current, TargetOf(E, signals), fraction)
  {
    hide Normalise;
    hide TargetOf;
    hide Distance;
    hide Feasible;
    hide Moved;
    hide FactorFor;
    hide Benefit;
    var t := TargetOf(E, signals);
    TargetKeys(E, signals);
    DistanceLaw(E, p.current, t);
    FactorForLaw(cfg.maximumWeightStep, Distance(E, p.current, t));
    FeasibleShare(E, p.current, t, cfg.maximumWeightStep, mu);
    assert p.proposed == Moved(p.current, t, FactorFor(cfg.maximumWeightStep, Distance(E, p.current, t)));
  }
}
