/** What the detector guarantees whatever the data: order independence, immunity of the frozen baseline to
    rejected spikes, bounded severities and a bound on how many nodes the location rule can flag. */
module DetectorProperties {
  import opened Domain
  import opened Ordering
  import opened RealArithmetic
  import opened OrderStatistics
  import opened Detector

  // ---------------------------------------------------------------- order independence

  lemma ZScorePermutation(value: real, a: seq<real>, b: seq<real>)
    requires multiset(a) == multiset(b)
    ensures ZScore(value, a) == ZScore(value, b)
  {
    hide Median;
    SameSize(a, b);
    MedianPermutation(a, b);
    var center := Median(a);
    var distance := (x: real) => Abs(x - center);
    MapPermutation(a, b, distance);
    assert Deviations(a, center) == MapSeq(a, distance);
    assert Deviations(b, center) == MapSeq(b, distance);
    MedianPermutation(Deviations(a, center), Deviations(b, center));
  }

  /** The location baseline does not depend on the order in which the nodes are visited. */
  lemma BaselineOrderIrrelevant(groups: map<string, seq<NodeMetric>>, a: seq<string>, b: seq<string>)
    requires Lists(a, groups.Keys) && Lists(b, groups.Keys)
    ensures LocationBaseline(groups, a) == LocationBaseline(groups, b)
  {
    hide Median;
    ListingsPermute(a, b, groups.Keys);
    MapPermutation(a, b, LatestP95(groups));
    MedianPermutation(MapSeq(a, LatestP95(groups)), MapSeq(b, LatestP95(groups)));
  }

  /** No node has two different samples with the same window end. */
  ghost predicate NoConflictingWindows(history: seq<NodeMetric>) {
    forall x, y :: x in history && y in history && x.nodeId == y.nodeId && x.windowEnd == y.windowEnd ==> x == y
  }

  lemma {:induction false} OfNodeMembers(history: seq<NodeMetric>, nodeId: string)
    ensures forall m :: m in OfNode(history, nodeId) <==> m in history && m.nodeId == nodeId
    decreases |history|
  {
    if history != [] {
      var last := |history| - 1;
      OfNodeMembers(history[..last], nodeId);
      assert history == history[..last] + [history[last]];
    }
  }

  lemma {:induction false} OfNodeAll(history: seq<NodeMetric>, nodeId: string)
    requires forall i :: 0 <= i < |history| ==> history[i].nodeId == nodeId
    ensures OfNode(history, nodeId) == history
    decreases |history|
  {
    if history != [] {
      var last := |history| - 1;
      assert OfNode(history, nodeId) == OfNode(history[..last], nodeId) + [history[last]];
      hide OfNode;
      OfNodeAll(history[..last], nodeId);
      assert history == history[..last] + [history[last]];
    }
  }

  lemma SliceUnique(history: seq<NodeMetric>, nodeId: string, a: seq<NodeMetric>, b: seq<NodeMetric>)
    requires NoConflictingWindows(history)
    requires IsHistoryOf(history, nodeId, a) && IsHistoryOf(history, nodeId, b)
    ensures a == b
  {
    OfNodeMembers(history, nodeId);
    SameMembers(a, OfNode(history, nodeId));
    assert SortedBy(a, LeEnd) && SortedBy(b, LeEnd);
    forall x, y | x in a && y in a && LeEnd(x, y) && LeEnd(y, x) ensures x == y {
      assert x in OfNode(history, nodeId) && y in OfNode(history, nodeId);
    }
    SortedUnique(a, b, LeEnd);
  }

  lemma GroupsUnique(history: seq<NodeMetric>, a: map<string, seq<NodeMetric>>, b: map<string, seq<NodeMetric>>)
    requires NoConflictingWindows(history)
    requires Grouped(history, a) && Grouped(history, b)
    ensures a == b
  {
    forall n ensures n in a <==> n in b {
      if n in a { var m :| m in history && m.nodeId == n; }
      if n in b { var m :| m in history && m.nodeId == n; }
    }
    forall n | n in a ensures a[n] == b[n] {
      SliceUnique(history, n, a[n], b[n]);
    }
  }

  lemma EvaluationUnique(cfg: Config, history: seq<NodeMetric>,
                         s1: map<string, Signal>, g1: map<string, seq<NodeMetric>>, n1: seq<string>,
                         s2: map<string, Signal>, g2: map<string, seq<NodeMetric>>, n2: seq<string>)
    requires NoConflictingWindows(history)
    requires Evaluation(cfg, history, s1, g1, n1) && Evaluation(cfg, history, s2, g2, n2)
    ensures s1 == s2
  {
    hide SignalMap;
    hide LocationBaseline;
    GroupsUnique(history, g1, g2);
    BaselineOrderIrrelevant(g1, n1, n2);
  }

  /** Map iteration and unstable sorting never show: two evaluations of one history agree. */
  lemma EvaluationDeterministic(cfg: Config, history: seq<NodeMetric>, s1: map<string, Signal>, s2: map<string, Signal>)
    requires NoConflictingWindows(history)
    requires IsEvaluation(cfg, history, s1) && IsEvaluation(cfg, history, s2)
    ensures s1 == s2
  {
    hide Evaluation;
    hide NoConflictingWindows;
    var g1: map<string, seq<NodeMetric>>, n1: seq<string> :| Evaluation(cfg, history, s1, g1, n1);
    var g2: map<string, seq<NodeMetric>>, n2: seq<string> :| Evaluation(cfg, history, s2, g2, n2);
    EvaluationUnique(cfg, history, s1, g1, n1, s2, g2, n2);
  }

  /** `past` and `latest` are the node's samples in the history, in order of their window ends. */
  ghost predicate SamplesOf(history: seq<NodeMetric>, nodeId: string, past: seq<NodeMetric>, latest: NodeMetric) {
    && (forall i, j :: 0 <= i < j < |past| ==> past[i].windowEnd <= past[j].windowEnd)
    && (forall m :: m in past ==> m.windowEnd <= latest.windowEnd)
    && forall m :: multiset(past + [latest])[m] == if m.nodeId == nodeId then multiset(history)[m] else 0
  }

  /** An evaluation judges every node of the history once, on its samples in order of time, against the median over the
      nodes of their newest latencies. */
  lemma EvaluationLaw(cfg: Config, history: seq<NodeMetric>, signals: map<string, Signal>)
    returns (past: map<string, seq<NodeMetric>>, latest: map<string, NodeMetric>, nodes: seq<string>)
    requires IsEvaluation(cfg, history, signals)
    ensures signals.Keys == (set m | m in history :: m.nodeId) && Lists(nodes, signals.Keys)
    ensures past.Keys == latest.Keys == signals.Keys
    ensures forall n :: n in signals ==> SamplesOf(history, n, past[n], latest[n])
    ensures var baseline := Median(MapSeq(nodes, (n: string) => if n in latest then latest[n].p95Ms else 0.0));
            forall n :: n in signals ==> signals[n] == NodeSignal(cfg, n, past[n], latest[n], baseline)
  {
    hide NodeSignal;
    hide Grouped;
    hide SamplesOf;
    hide Median;
    var groups: map<string, seq<NodeMetric>>, order: seq<string> :| Evaluation(cfg, history, signals, groups, order);
    nodes := order;
    NonEmptyGroups(history, groups);
    GroupsAreSamples(history, groups);
    past := map n | n in groups :: groups[n][..|groups[n]| - 1];
    latest := map n | n in groups :: groups[n][|groups[n]| - 1];
    hide Lists;
    assert MapSeq(nodes, LatestP95(groups))
        == MapSeq(nodes, (n: string) => if n in latest then latest[n].p95Ms else 0.0);
  }

  lemma NonEmptyGroups(history: seq<NodeMetric>, groups: map<string, seq<NodeMetric>>)
    requires Grouped(history, groups)
    ensures groups.Keys == set m | m in history :: m.nodeId
    ensures forall n :: n in groups ==> groups[n] != []
  {
  }

  lemma GroupsAreSamples(history: seq<NodeMetric>, groups: map<string, seq<NodeMetric>>)
    requires Grouped(history, groups)
    ensures forall n :: n in groups ==>
              groups[n] != [] && SamplesOf(history, n, groups[n][..|groups[n]| - 1], groups[n][|groups[n]| - 1])
  {
    hide SamplesOf;
    hide IsHistoryOf;
    forall n | n in groups
      ensures groups[n] != [] && SamplesOf(history, n, groups[n][..|groups[n]| - 1], groups[n][|groups[n]| - 1])
    {
      GroupIsSamples(history, n, groups[n]);
    }
  }

  lemma GroupIsSamples(history: seq<NodeMetric>, nodeId: string, samples: seq<NodeMetric>)
    requires samples != [] && IsHistoryOf(history, nodeId, samples)
    ensures SamplesOf(history, nodeId, samples[..|samples| - 1], samples[|samples| - 1])
  {
    var last := |samples| - 1;
    assert samples == samples[..last] + [samples[last]];
    forall m ensures multiset(samples)[m] == if m.nodeId == nodeId then multiset(history)[m] else 0 {
      OfNodeCount(history, nodeId, m);
    }
  }

  lemma {:induction false} OfNodeCount(history: seq<NodeMetric>, nodeId: string, m: NodeMetric)
    ensures multiset(OfNode(history, nodeId))[m] == if m.nodeId == nodeId then multiset(history)[m] else 0
    decreases |history|
  {
    if history != [] {
      var last := |history| - 1;
      OfNodeCount(history[..last], nodeId, m);
      assert history == history[..last] + [history[last]];
    }
  }

  // ---------------------------------------------------------------- the frozen baseline

  /** A sample is accepted when fewer than five were accepted before it or it lies within four robust deviations of
      them; the first one always. */
  lemma AcceptanceLaw(values: seq<real>, x: real)
    ensures var z := ZScore(x, Accepted(values));
            Accepted(values + [x]) ==
            if values == [] || |Accepted(values)| < 5 || (z.Finite? && z.value <= 4.0) then Accepted(values) + [x]
            else Accepted(values)
  {
    hide ZScore;
    if values == [] { assert [] + [x] == [x]; } else { AcceptedSnoc(values, x); }
  }

  /** The robust score: 0.6745 times the distance from the median in median absolute deviations; for a spread below
      1e-9 it is 0 at the median and infinite elsewhere. */
  lemma ZScoreLaw(value: real, history: seq<real>, spread: seq<real>)
    requires history != [] && |spread| == |history|
    requires forall i :: 0 <= i < |history| ==>
               spread[i] == if history[i] >= Median(history) then history[i] - Median(history)
                            else Median(history) - history[i]
    ensures var z, distance := ZScore(value, history), Abs(value - Median(history));
            if Median(spread) < 0.000000001 then z == if distance < 0.000000001 then Finite(0.0) else Infinite
            else z.Finite? && z.value >= 0.0 && z.value * Median(spread) == 0.6745 * distance
    ensures ZScore(value, []) == Finite(0.0)
  {
    hide Median;
    assert spread == Deviations(history, Median(history));
    var mad := Median(spread);
    if mad >= EPSILON { ScoreTimes(value - Median(history), mad); }
  }

  lemma ScoreTimes(distance: real, mad: real)
    requires mad > 0.0
    ensures Abs(0.6745 * distance / mad) * mad == 0.6745 * Abs(distance)
  {
    var q := 0.6745 * distance / mad;
    Quotient(0.6745 * distance, mad);
    if q < 0.0 { StrictScale(0.0, q, mad); }
    if q > 0.0 { StrictScale(q, 0.0, mad); }
  }

  /** Rerunning on the accepted samples alone accepts all of them. */
  lemma {:induction false} AcceptedIdempotent(values: seq<real>)
    ensures Accepted(Accepted(values)) == Accepted(values)
    ensures values != [] ==> Accepted(values) != []
    decreases |values|
  {
    if |values| > 1 {
      var last := |values| - 1;
      AcceptedIdempotent(values[..last]);
      AcceptedSnoc(Accepted(values[..last]), values[last]);
    }
  }

  lemma {:induction false} AcceptedMembers(values: seq<real>)
    ensures forall x :: x in Accepted(values) ==> x in values
    decreases |values|
  {
    hide Admits;
    if |values| > 1 {
      var last := |values| - 1;
      AcceptedMembers(values[..last]);
      assert values == values[..last] + [values[last]];
    }
  }

  /** A rejected sample, however large, changes neither what is accepted later nor the baseline. */
  lemma {:induction false} RejectedHasNoEffect(before: seq<real>, spike: real, after: seq<real>)
    requires before != [] && !Admits(spike, Accepted(before))
    ensures Accepted(before + [spike] + after) == Accepted(before + after)
    decreases |after|
  {
    hide Admits;
    hide Accepted;
    if after == [] {
      assert before + [spike] + after == before + [spike] && before + after == before;
      AcceptedSnoc(before, spike);
    } else {
      var last := |after| - 1;
      RejectedHasNoEffect(before, spike, after[..last]);
      AcceptedSnoc(before + [spike] + after[..last], after[last]);
      AcceptedSnoc(before + after[..last], after[last]);
      assert before + [spike] + after == (before + [spike] + after[..last]) + [after[last]];
      assert before + after == (before + after[..last]) + [after[last]];
    }
  }

  lemma BlendWithin(alpha: real, x: real, y: real, lo: real, hi: real)
    requires 0.0 <= alpha <= 1.0 && lo <= x <= hi && lo <= y <= hi
    ensures lo <= Blend(alpha, x, y) <= hi
  {
    Product(alpha, x - lo);
    Product(1.0 - alpha, y - lo);
    Product(alpha, hi - x);
    Product(1.0 - alpha, hi - y);
    assert Blend(alpha, x, y) - lo == alpha * (x - lo) + (1.0 - alpha) * (y - lo);
    assert hi - Blend(alpha, x, y) == alpha * (hi - x) + (1.0 - alpha) * (hi - y);
  }

  lemma {:induction false} EwmaWithin(values: seq<real>, alpha: real, lo: real, hi: real)
    requires 0.0 <= alpha <= 1.0 && values != []
    requires forall x :: x in values ==> lo <= x <= hi
    ensures lo <= Ewma(values, alpha) <= hi
    decreases |values|
  {
    hide Blend;
    if |values| == 1 {
      assert values[0] in values;
    } else {
      var last := |values| - 1;
      assert values[last] in values;
      assert forall x :: x in values[..last] ==> x in values;
      EwmaWithin(values[..last], alpha, lo, hi);
      BlendWithin(alpha, values[last], Ewma(values[..last], alpha), lo, hi);
    }
  }

  /** The frozen baseline is the plain average of the accepted subsequence: it stays in the range of the accepted
      samples, and the samples that were rejected could as well not have been there. */
  lemma FrozenBaselineLaw(values: seq<real>, alpha: real, lo: real, hi: real)
    requires 0.0 <= alpha <= 1.0 && values != []
    requires forall x :: x in Accepted(values) ==> lo <= x <= hi
    ensures lo <= FrozenBaseline(values, alpha) <= hi
    ensures FrozenBaseline(Accepted(values), alpha) == FrozenBaseline(values, alpha)
  {
    AcceptedIdempotent(values);
    EwmaWithin(Accepted(values), alpha, lo, hi);
  }

  function Power(x: real, n: nat): real { if n == 0 then 1.0 else x * Power(x, n - 1) }

  /** Weight of sample i among n samples: the first one keeps the whole remaining mass, later ones get alpha discounted
      by their age. */
  function AgeWeight(alpha: real, i: nat, n: nat): real
    requires i < n
  {
    if i == 0 then Power(1.0 - alpha, n - 1) else alpha * Power(1.0 - alpha, n - 1 - i)
  }

  function WeightedHistory(values: seq<real>, alpha: real, n: nat, upto: nat): real
    requires upto <= |values| && upto <= n
  {
    if upto == 0 then 0.0
    else WeightedHistory(values, alpha, n, upto - 1) + AgeWeight(alpha, upto - 1, n) * values[upto - 1]
  }

  lemma Older(alpha: real, i: nat, n: nat)
    requires i < n
    ensures AgeWeight(alpha, i, n + 1) == (1.0 - alpha) * AgeWeight(alpha, i, n)
  {
    if i > 0 {
      assert alpha * ((1.0 - alpha) * Power(1.0 - alpha, n - 1 - i))
          == (1.0 - alpha) * (alpha * Power(1.0 - alpha, n - 1 - i));
    }
  }

  lemma Discount(beta: real, sum: real, weight: real, x: real)
    ensures beta * sum + beta * weight * x == beta * (sum + weight * x)
  {
  }

  lemma {:induction false} OlderHistory(values: seq<real>, rest: seq<real>, alpha: real, n: nat, upto: nat)
    requires upto <= |values| && upto <= n
    ensures WeightedHistory(values + rest, alpha, n + 1, upto)
            == (1.0 - alpha) * WeightedHistory(values, alpha, n, upto)
  {
    hide AgeWeight;
    if upto > 0 {
      OlderHistory(values, rest, alpha, n, upto - 1);
      Older(alpha, upto - 1, n);
      assert (values + rest)[upto - 1] == values[upto - 1];
      Discount(1.0 - alpha, WeightedHistory(values, alpha, n, upto - 1), AgeWeight(alpha, upto - 1, n),
               values[upto - 1]);
    }
  }

  /** The recursive average equals the explicit sum with exponentially decaying weights. */
  lemma {:induction false} EwmaClosedForm(values: seq<real>, alpha: real)
    requires values != []
    ensures Ewma(values, alpha) == WeightedHistory(values, alpha, |values|, |values|)
    decreases |values|
  {
    var last := |values| - 1;
    if last == 0 {
      assert Power(1.0 - alpha, 0) == 1.0;
    } else {
      EwmaClosedForm(values[..last], alpha);
      assert values == values[..last] + [values[last]];
      OlderHistory(values[..last], [values[last]], alpha, last, last);
      NewestWeight(alpha, last);
    }
  }

  lemma NewestWeight(alpha: real, last: nat)
    requires last > 0
    ensures AgeWeight(alpha, last, last + 1) == alpha
  {
    assert Power(1.0 - alpha, 0) == 1.0;
  }

  // ---------------------------------------------------------------- signals

  /** A node's signal by the fields of its samples: which tests raise which code, what is reported as baseline and
      score, and when the node is anomalous at all. */
  lemma SignalLaw(cfg: Config, nodeId: string, past: seq<NodeMetric>, latest: NodeMetric, locationBaseline: real)
    ensures var s := NodeSignal(cfg, nodeId, past, latest, locationBaseline);
            var ewma := Ewma(Accepted(MapSeq(past, P95Of)), cfg.ewmaAlpha);
            var errors := Ewma(Accepted(MapSeq(past, ErrorOf)), cfg.ewmaAlpha);
            && s.nodeId == nodeId
            && 0.0 <= s.severity <= 1.0
            && (s.anomalous <==> s.reasonCodes != [])
            && (!s.anomalous ==> s.severity == 0.0)
            && (RULE in s.reasonCodes <==>
                latest.requests >= cfg.minimumSamples && latest.errorRate > cfg.errorThreshold
                && locationBaseline > 0.0 && latest.p95Ms > cfg.latencyMultiple * locationBaseline)
            && (LATENCY in s.reasonCodes <==>
                |past| >= cfg.minimumHistory && ewma > 0.0 && latest.p95Ms > 1.5 * ewma
                && ZScore(latest.p95Ms, MapSeq(past, P95Of)).AtLeast(cfg.robustZThreshold))
            && (ERROR_RATE in s.reasonCodes <==>
                |past| >= cfg.minimumHistory && latest.requests >= cfg.minimumSamples
                && latest.errorRate > cfg.errorThreshold && latest.errorRate - errors > 0.01)
            && (CACHE_MISS in s.reasonCodes <==>
                |past| >= cfg.minimumHistory && latest.cacheHitRate < 0.35
                && latest.cacheHitRate < Median(MapSeq(past, HitOf)) - 0.20)
            && if |past| >= cfg.minimumHistory
               then s.baselineMs == ewma && s.robustZ == ZScore(latest.p95Ms, MapSeq(past, P95Of))
               else s.baselineMs == locationBaseline && s.robustZ == Finite(0.0)
  {
    hide Accepted;
    hide Ewma;
    hide ZScore;
    hide MapSeq;
    hide Median;
    CodesDistinct();
  }

  /** The number, brought into [0,1]. */
  function Unit(x: real): real { if x < 0.0 then 0.0 else if x > 1.0 then 1.0 else x }

  /** By which share x exceeds a threshold, in [0,1]; entirely if the threshold is 0. */
  function ExcessOver(x: real, threshold: real): real { if threshold == 0.0 then 1.0 else Unit(x / threshold - 1.0) }

  lemma ExcessIsClamped(x: real, threshold: real)
    ensures ClampedExcess(x, threshold) == ExcessOver(x, threshold) >= 0.0
  {
  }

  lemma UnitIsClamp(x: real)
    ensures Clamp01(x) == Unit(x) >= 0.0
  {
  }

  lemma LargestPart(rule: bool, r: real, r': real, latency: bool, l: real, errors: bool, e: real, misses: bool, c: real,
                    severity: real)
    requires r >= 0.0 && r' >= 0.0 && l >= 0.0 && e >= 0.0 && c >= 0.0
    requires severity == Max(Max(Max(Part(rule, Max(r, r')), Part(latency, l)), Part(errors, e)), Part(misses, c))
    ensures (rule ==> severity >= r && severity >= r') && (latency ==> severity >= l)
    ensures (errors ==> severity >= e) && (misses ==> severity >= c)
    ensures rule || latency || errors || misses ==>
              (rule && (severity == r || severity == r')) || (latency && severity == l)
              || (errors && severity == e) || (misses && severity == c)
  {
  }

  /** The severity is the largest of what the tests that fire measure. */
  lemma SeverityLaw(cfg: Config, nodeId: string, past: seq<NodeMetric>, latest: NodeMetric, locationBaseline: real,
                    threshold: real)
    requires threshold == cfg.latencyMultiple * locationBaseline
    ensures var s := NodeSignal(cfg, nodeId, past, latest, locationBaseline);
            var ewma := Ewma(Accepted(MapSeq(past, P95Of)), cfg.ewmaAlpha);
            var delta := latest.errorRate - Ewma(Accepted(MapSeq(past, ErrorOf)), cfg.ewmaAlpha);
            && (RULE in s.reasonCodes ==>
                  && s.severity >= ExcessOver(latest.errorRate, cfg.errorThreshold)
                  && s.severity >= ExcessOver(latest.p95Ms, threshold))
            && (LATENCY in s.reasonCodes ==> ewma > 0.0 && s.severity >= Unit((latest.p95Ms / ewma - 1.0) / 2.0))
            && (ERROR_RATE in s.reasonCodes ==> s.severity >= Unit(delta / 0.20))
            && (CACHE_MISS in s.reasonCodes ==> s.severity >= Unit(1.0 - latest.cacheHitRate))
            && (s.anomalous ==>
                  || (RULE in s.reasonCodes && (s.severity == ExcessOver(latest.errorRate, cfg.errorThreshold)
                       || s.severity == ExcessOver(latest.p95Ms, threshold)))
                  || (LATENCY in s.reasonCodes && s.severity == Unit((latest.p95Ms / ewma - 1.0) / 2.0))
                  || (ERROR_RATE in s.reasonCodes && s.severity == Unit(delta / 0.20))
                  || (CACHE_MISS in s.reasonCodes && s.severity == Unit(1.0 - latest.cacheHitRate)))
  {
    hide Accepted;
    hide Ewma;
    hide ZScore;
    hide MapSeq;
    hide Median;
    hide Clamp01;
    hide Unit;
    hide ExcessOver;
    SignalLaw(cfg, nodeId, past, latest, locationBaseline);
    SeverityParts(cfg, nodeId, past, latest, locationBaseline, threshold);
  }

  /** The same by the conditions under which the four tests fire. */
  lemma SeverityParts(cfg: Config, nodeId: string, past: seq<NodeMetric>, latest: NodeMetric, locationBaseline: real,
                      threshold: real)
    requires threshold == cfg.latencyMultiple * locationBaseline
    ensures var s := NodeSignal(cfg, nodeId, past, latest, locationBaseline);
            var ewma := FrozenBaseline(MapSeq(past, P95Of), cfg.ewmaAlpha);
            var delta := ErrorDelta(cfg, past, latest);
            var rule := RuleFires(cfg, latest, locationBaseline);
            var latency := EnoughHistory(cfg, past) && LatencyFires(cfg, past, latest);
            var errors := EnoughHistory(cfg, past) && ErrorFires(cfg, past, latest);
            var misses := EnoughHistory(cfg, past) && MissFires(past, latest);
            && (rule ==>
                  && s.severity >= ExcessOver(latest.errorRate, cfg.errorThreshold)
                  && s.severity >= ExcessOver(latest.p95Ms, threshold))
            && (latency ==> ewma > 0.0 && s.severity >= Unit((latest.p95Ms / ewma - 1.0) / 2.0))
            && (errors ==> s.severity >= Unit(delta / 0.20))
            && (misses ==> s.severity >= Unit(1.0 - latest.cacheHitRate))
            && (rule || latency || errors || misses ==>
                  || (rule && (s.severity == ExcessOver(latest.errorRate, cfg.errorThreshold)
                       || s.severity == ExcessOver(latest.p95Ms, threshold)))
                  || (latency && s.severity == Unit((latest.p95Ms / ewma - 1.0) / 2.0))
                  || (errors && s.severity == Unit(delta / 0.20))
                  || (misses && s.severity == Unit(1.0 - latest.cacheHitRate)))
  {
    hide FrozenBaseline;
    hide ErrorDelta;
    hide ZScore;
    hide MapSeq;
    hide Median;
    hide Unit;
    hide Clamp01;
    hide ExcessOver;
    hide ClampedExcess;
    hide ErrorFires;
    hide MissFires;
    var ewma := FrozenBaseline(MapSeq(past, P95Of), cfg.ewmaAlpha);
    var delta := ErrorDelta(cfg, past, latest);
    var rule := RuleFires(cfg, latest, locationBaseline);
    var latency := EnoughHistory(cfg, past) && LatencyFires(cfg, past, latest);
    var r := ClampedExcess(latest.errorRate, cfg.errorThreshold);
    assert LatencyThreshold(cfg, locationBaseline) == threshold;
    hide LatencyThreshold;
    var r' := ClampedExcess(latest.p95Ms, threshold);
    ExcessIsClamped(latest.errorRate, cfg.errorThreshold);
    ExcessIsClamped(latest.p95Ms, threshold);
    var l := LatencySeverity(latest.p95Ms, ewma);
    if ewma != 0.0 { UnitIsClamp((latest.p95Ms / ewma - 1.0) / 2.0); }
    UnitIsClamp(delta / 0.20);
    UnitIsClamp(1.0 - latest.cacheHitRate);
    SeverityIs(cfg, nodeId, past, latest, locationBaseline);
    LargestPart(rule, r, r', latency, l, EnoughHistory(cfg, past) && ErrorFires(cfg, past, latest), ErrorSeverity(delta),
                EnoughHistory(cfg, past) && MissFires(past, latest), MissSeverity(latest.cacheHitRate),
                NodeSignal(cfg, nodeId, past, latest, locationBaseline).severity);
  }

  lemma SeverityIs(cfg: Config, nodeId: string, past: seq<NodeMetric>, latest: NodeMetric, locationBaseline: real)
    ensures NodeSignal(cfg, nodeId, past, latest, locationBaseline).severity ==
            Max(Max(Max(Part(RuleFires(cfg, latest, locationBaseline),
                             Max(ClampedExcess(latest.errorRate, cfg.errorThreshold),
                                 ClampedExcess(latest.p95Ms, LatencyThreshold(cfg, locationBaseline)))),
                        Part(EnoughHistory(cfg, past) && LatencyFires(cfg, past, latest),
                             LatencySeverity(latest.p95Ms, FrozenBaseline(MapSeq(past, P95Of), cfg.ewmaAlpha)))),
                    Part(EnoughHistory(cfg, past) && ErrorFires(cfg, past, latest),
                         ErrorSeverity(ErrorDelta(cfg, past, latest)))),
                Part(EnoughHistory(cfg, past) && MissFires(past, latest), MissSeverity(latest.cacheHitRate)))
  {
    hide FrozenBaseline;
    hide ErrorDelta;
    hide ZScore;
    hide MapSeq;
    hide Median;
    hide ClampedExcess;
    hide RuleFires;
    hide LatencyFires;
    hide ErrorFires;
    hide MissFires;
    hide LatencySeverity;
    hide ErrorSeverity;
    hide MissSeverity;
    hide When;
    hide LatencyThreshold;
  }

  /** Where the severities saturate: latency at three times the baseline, the error rate at 0.20 above its baseline; a
      cache miss anomaly is at least 0.65 severe; the rule at twice its error or latency threshold. */
  lemma SeverityScales(p95Ms: real, baseline: real, delta: real, hitRate: real, rate: real, threshold: real)
    requires baseline > 0.0 && threshold > 0.0
    ensures LatencySeverity(p95Ms, baseline) == 1.0 <==> p95Ms >= 3.0 * baseline
    ensures LatencySeverity(p95Ms, baseline) == 0.0 <==> p95Ms <= baseline
    ensures ErrorSeverity(delta) == 1.0 <==> delta >= 0.20
    ensures ErrorSeverity(delta) == 0.0 <==> delta <= 0.0
    ensures 0.0 <= hitRate < 0.35 ==> 0.65 < MissSeverity(hitRate) <= 1.0
    ensures ClampedExcess(rate, threshold) == 1.0 <==> rate >= 2.0 * threshold
  {
    QuotientCompare(p95Ms, baseline, 3.0);
    QuotientCompare(p95Ms, baseline, 1.0);
    QuotientCompare(rate, threshold, 2.0);
  }

  lemma {:induction false} CountImplied<T, R>(a: seq<T>, p: T -> bool, b: seq<R>, q: R -> bool)
    requires |a| == |b|
    requires forall i :: 0 <= i < |a| && p(a[i]) ==> q(b[i])
    ensures Count(a, p) <= Count(b, q)
  {
    if a != [] { CountImplied(a[1..], p, b[1..], q); }
  }

  function FlaggedByRule(signals: map<string, Signal>): string -> bool {
    n => n in signals && RULE in signals[n].reasonCodes
  }

  lemma RuleNeedsLatency(cfg: Config, nodeId: string, samples: seq<NodeMetric>, baseline: real)
    requires samples != []
    ensures RULE in SignalOf(cfg, nodeId, samples, baseline).reasonCodes ==>
              NewestP95(samples) > cfg.latencyMultiple * baseline
  {
    hide NodeSignal;
    SignalLaw(cfg, nodeId, samples[..|samples| - 1], samples[|samples| - 1], baseline);
  }

  lemma NewestNonNegative(history: seq<NodeMetric>, nodeId: string, samples: seq<NodeMetric>)
    requires samples != [] && IsHistoryOf(history, nodeId, samples)
    requires forall m :: m in history ==> m.p95Ms >= 0.0
    ensures NewestP95(samples) >= 0.0
  {
    OfNodeMembers(history, nodeId);
    SameMembers(samples, OfNode(history, nodeId));
    assert samples[|samples| - 1] in samples;
    assert samples[|samples| - 1] in OfNode(history, nodeId);
  }

  lemma ThresholdAbove(multiple: real, baseline: real)
    requires baseline >= 0.0
    ensures multiple >= 2.0 ==> multiple * baseline >= 2.0 * baseline
    ensures multiple >= 1.0 ==> multiple * baseline >= baseline
  {
    if multiple >= 2.0 { Scale(multiple, 2.0, baseline); }
    if multiple >= 1.0 { Scale(multiple, 1.0, baseline); }
  }

  lemma ThresholdFromMedian(latencies: seq<real>, multiple: real)
    requires latencies != []
    requires forall x :: x in latencies ==> x >= 0.0
    ensures multiple >= 2.0 ==> multiple * Median(latencies) >= 2.0 * Median(latencies)
    ensures multiple >= 1.0 ==> multiple * Median(latencies) >= Median(latencies)
  {
    hide Median;
    assert Median(latencies) >= 0.0 by { MedianBrackets(latencies); }
    ThresholdAbove(multiple, Median(latencies));
  }

  lemma RuleFlagsAbove(cfg: Config, history: seq<NodeMetric>, signals: map<string, Signal>,
                       groups: map<string, seq<NodeMetric>>, nodes: seq<string>, baseline: real, threshold: real)
    requires Grouped(history, groups) && Lists(nodes, groups.Keys)
    requires signals == SignalMap(cfg, groups, baseline) && threshold == cfg.latencyMultiple * baseline
    requires forall m :: m in history ==> m.p95Ms >= 0.0
    ensures forall x :: x in MapSeq(nodes, LatestP95(groups)) ==> x >= 0.0
    ensures Count(nodes, FlaggedByRule(signals)) <= Count(MapSeq(nodes, LatestP95(groups)), Above(threshold))
  {
    hide SignalOf;
    var latencies := MapSeq(nodes, LatestP95(groups));
    forall i | 0 <= i < |nodes|
      ensures latencies[i] >= 0.0
      ensures FlaggedByRule(signals)(nodes[i]) ==> Above(threshold)(latencies[i])
    {
      var n := nodes[i];
      NewestNonNegative(history, n, groups[n]);
      RuleNeedsLatency(cfg, n, groups[n], baseline);
    }
    CountImplied(nodes, FlaggedByRule(signals), latencies, Above(threshold));
  }

  /** With non-negative latencies the location rule can flag only a minority of the nodes, so it never fires at a
      location with one or two nodes. */
  lemma RuleFlagsMinority(cfg: Config, history: seq<NodeMetric>, signals: map<string, Signal>,
                          groups: map<string, seq<NodeMetric>>, nodes: seq<string>)
    requires Evaluation(cfg, history, signals, groups, nodes) && nodes != []
    requires forall m :: m in history ==> m.p95Ms >= 0.0
    ensures cfg.latencyMultiple >= 2.0 ==> Count(nodes, FlaggedByRule(signals)) <= (|nodes| - 1) / 2
    ensures cfg.latencyMultiple >= 1.0 ==> Count(nodes, FlaggedByRule(signals)) <= |nodes| / 2
  {
    hide Median;
    hide SignalMap;
    hide Grouped;
    hide Lists;
    hide Count;
    hide Above;
    hide LatestP95;
    hide FlaggedByRule;
    var latencies := MapSeq(nodes, LatestP95(groups));
    hide MapSeq;
    var baseline := LocationBaseline(groups, nodes);
    var threshold := cfg.latencyMultiple * baseline;
    RuleFlagsAbove(cfg, history, signals, groups, nodes, baseline, threshold);
    FewAbove(latencies, cfg.latencyMultiple, threshold);
  }

  lemma FewAbove(latencies: seq<real>, multiple: real, threshold: real)
    requires latencies != [] && threshold == multiple * Median(latencies)
    requires forall x :: x in latencies ==> x >= 0.0
    ensures multiple >= 2.0 ==> Count(latencies, Above(threshold)) <= (|latencies| - 1) / 2
    ensures multiple >= 1.0 ==> Count(latencies, Above(threshold)) <= |latencies| / 2
  {
    hide Median;
    hide Count;
    ThresholdFromMedian(latencies, multiple);
    AboveMedian(latencies, threshold);
  }
}
