/** The anomaly detector: a location-wide latency/error rule and a per-node EWMA/MAD test.

Functions say what each quantity is; the methods are the detector's loops, proved to compute them. */
module Detector {
  import opened Domain
  import opened Ordering
  import opened OrderStatistics

  datatype Config = Config(
    minimumSamples: nat,
    minimumHistory: int,
    ewmaAlpha: real,
    errorThreshold: real,
    latencyMultiple: real,
    robustZThreshold: real)

  const RULE := "RULE_LATENCY_ERROR_ANOMALY"
  const LATENCY := "EWMA_MAD_LATENCY_ANOMALY"
  const ERROR_RATE := "EWMA_ERROR_RATE_ANOMALY"
  const CACHE_MISS := "MAD_CACHE_MISS_ANOMALY"

  const EPSILON := 0.000000001

  // ---------------------------------------------------------------- robust z

  function Deviations(history: seq<real>, center: real): (r: seq<real>)
    ensures |r| == |history|
    ensures forall i :: 0 <= i < |history| ==> r[i] == Abs(history[i] - center)
  {
    seq(|history|, i requires 0 <= i < |history| => Abs(history[i] - center))
  }

  function Mad(history: seq<real>): real { Median(Deviations(history, Median(history))) }

  function ScoreFor(distance: real, mad: real): Score {
    if mad < EPSILON then
      if Abs(distance) < EPSILON then Finite(0.0) else Infinite
    else Finite(Abs(0.6745 * distance / mad))
  }

  function ZScore(value: real, history: seq<real>): Score {
    if history == [] then Finite(0.0)
    else ScoreFor(value - Median(history), Mad(history))
  }

  method RobustZ(value: real, history: seq<real>) returns (z: Score)
    ensures z == ZScore(value, history)
  {
    hide Median;
    if |history| == 0 { return Finite(0.0); }
    var center := Median(history);
    var deviations: seq<real> := [];
    for i := 0 to |history|
      invariant deviations == Deviations(history, center)[..i]
    {
      deviations := deviations + [Abs(history[i] - center)];
    }
    assert deviations == Deviations(history, center);
    var mad := Median(deviations);
    if mad < EPSILON {
      if Abs(value - center) < EPSILON { return Finite(0.0); }
      return Infinite;
    }
    return Finite(Abs(0.6745 * (value - center) / mad));
  }

  // ---------------------------------------------------------------- frozen EWMA

  /** The first five accepted samples are taken as they come; after that a sample must lie within four
      robust deviations of the samples accepted so far. */
  predicate Admits(value: real, accepted: seq<real>) {
    |accepted| < 5 || ZScore(value, accepted).AtMost(4.0)
  }

  function Accepted(values: seq<real>): seq<real>
    decreases |values|
  {
    if |values| <= 1 then values
    else
      var last := |values| - 1;
      var before := Accepted(values[..last]);
      if Admits(values[last], before) then before + [values[last]] else before
  }

  function Blend(alpha: real, x: real, baseline: real): real { alpha * x + (1.0 - alpha) * baseline }

  /** The plain exponentially weighted moving average. */
  function Ewma(values: seq<real>, alpha: real): real
    decreases |values|
  {
    if values == [] then 0.0
    else if |values| == 1 then values[0]
    else
      var last := |values| - 1;
      Blend(alpha, values[last], Ewma(values[..last], alpha))
  }

  function FrozenBaseline(values: seq<real>, alpha: real): real { Ewma(Accepted(values), alpha) }

  method FrozenEwma(values: seq<real>, alpha: real) returns (baseline: real)
    ensures baseline == Ewma(Accepted(values), alpha)
  {
    if |values| == 0 { return 0.0; }
    baseline := values[0];
    var accepted := [values[0]];
    assert values[..1] == [values[0]];
    for i := 1 to |values|
      invariant accepted == Accepted(values[..i]) && accepted != []
      invariant baseline == Ewma(accepted, alpha)
    {
      AcceptedNext(values, i);
      EwmaSnoc(accepted, values[i], alpha);
      var z := RobustZ(values[i], accepted);
      if z.AtMost(4.0) || |accepted| < 5 {
        baseline := Blend(alpha, values[i], baseline);
        accepted := accepted + [values[i]];
      }
    }
    assert values[..|values|] == values;
  }

  lemma AcceptedSnoc(values: seq<real>, x: real)
    requires values != []
    ensures Accepted(values + [x]) ==
            if Admits(x, Accepted(values)) then Accepted(values) + [x] else Accepted(values)
  {
    assert (values + [x])[..|values|] == values;
  }

  lemma AcceptedNext(values: seq<real>, i: nat)
    requires 0 < i < |values|
    ensures var before := Accepted(values[..i]);
            Accepted(values[..i + 1]) == if Admits(values[i], before) then before + [values[i]] else before
  {
    assert values[..i + 1] == values[..i] + [values[i]];
    AcceptedSnoc(values[..i], values[i]);
  }

  lemma EwmaSnoc(values: seq<real>, x: real, alpha: real)
    requires values != []
    ensures Ewma(values + [x], alpha) == Blend(alpha, x, Ewma(values, alpha))
  {
    assert (values + [x])[..|values|] == values;
  }

  // ---------------------------------------------------------------- one node's signal

  function Clamp01(x: real): real { Max(0.0, Min(1.0, x)) }

  /** `numerator / denominator - 1` clamped to [0,1].  A zero denominator under a positive numerator gives
      +Inf in floating point, which clamps to 1. */
  function ClampedExcess(numerator: real, denominator: real): real {
    if denominator == 0.0 then 1.0 else Clamp01(numerator / denominator - 1.0)
  }

  predicate RuleFires(cfg: Config, latest: NodeMetric, locationBaseline: real) {
    && latest.requests >= cfg.minimumSamples
    && latest.errorRate > cfg.errorThreshold
    && locationBaseline > 0.0
    && latest.p95Ms > cfg.latencyMultiple * locationBaseline
  }

  function RuleSeverity(cfg: Config, latest: NodeMetric, latencyThreshold: real): real {
    Max(ClampedExcess(latest.errorRate, cfg.errorThreshold), ClampedExcess(latest.p95Ms, latencyThreshold))
  }

  function LatencyThreshold(cfg: Config, locationBaseline: real): real { cfg.latencyMultiple * locationBaseline }

  predicate EnoughHistory(cfg: Config, past: seq<NodeMetric>) { |past| >= cfg.minimumHistory }

  predicate LatencyFires(cfg: Config, past: seq<NodeMetric>, latest: NodeMetric) {
    var baseline := FrozenBaseline(MapSeq(past, P95Of), cfg.ewmaAlpha);
    && baseline > 0.0
    && latest.p95Ms > 1.5 * baseline
    && ZScore(latest.p95Ms, MapSeq(past, P95Of)).AtLeast(cfg.robustZThreshold)
  }

  function ErrorDelta(cfg: Config, past: seq<NodeMetric>, latest: NodeMetric): real {
    latest.errorRate - FrozenBaseline(MapSeq(past, ErrorOf), cfg.ewmaAlpha)
  }

  predicate ErrorFires(cfg: Config, past: seq<NodeMetric>, latest: NodeMetric) {
    && latest.requests >= cfg.minimumSamples
    && latest.errorRate > cfg.errorThreshold
    && ErrorDelta(cfg, past, latest) > 0.01
  }

  predicate MissFires(past: seq<NodeMetric>, latest: NodeMetric) {
    && latest.cacheHitRate < 0.35
    && latest.cacheHitRate < Median(MapSeq(past, HitOf)) - 0.20
  }

  function LatencySeverity(p95Ms: real, baseline: real): real {
    if baseline == 0.0 then 0.0 else Clamp01((p95Ms / baseline - 1.0) / 2.0)
  }

  function ErrorSeverity(delta: real): real { Clamp01(delta / 0.20) }

  function MissSeverity(hitRate: real): real { Clamp01(1.0 - hitRate) }

  function When(condition: bool, code: string): seq<string> { if condition then [code] else [] }

  function Part(condition: bool, severity: real): real { if condition then severity else 0.0 }

  /** The verdict on a node whose samples, oldest first, are `past + [latest]`. */
  function NodeSignal(cfg: Config, nodeId: string, past: seq<NodeMetric>, latest: NodeMetric,
                      locationBaseline: real): Signal
  {
    var rule := RuleFires(cfg, latest, locationBaseline);
    var tested := EnoughHistory(cfg, past);
    var latency := tested && LatencyFires(cfg, past, latest);
    var errors := tested && ErrorFires(cfg, past, latest);
    var misses := tested && MissFires(past, latest);
    var baseline := FrozenBaseline(MapSeq(past, P95Of), cfg.ewmaAlpha);
    Signal(
      nodeId,
      rule || latency || errors || misses,
      Max(Max(Max(Part(rule, RuleSeverity(cfg, latest, LatencyThreshold(cfg, locationBaseline))),
                  Part(latency, LatencySeverity(latest.p95Ms, baseline))),
              Part(errors, ErrorSeverity(ErrorDelta(cfg, past, latest)))),
          Part(misses, MissSeverity(latest.cacheHitRate))),
      When(rule, RULE) + When(latency, LATENCY) + When(errors, ERROR_RATE) + When(misses, CACHE_MISS),
      if tested then baseline else locationBaseline,
      if tested then ZScore(latest.p95Ms, MapSeq(past, P95Of)) else Finite(0.0))
  }

  method AppendUnique(values: seq<string>, value: string) returns (r: seq<string>)
    ensures r == if value in values then values else values + [value]
  {
    for i := 0 to |values|
      invariant value !in values[..i]
    {
      if values[i] == value { return values; }
    }
    assert values[..|values|] == values;
    return values + [value];
  }

  method MetricValues(metrics: seq<NodeMetric>, value: NodeMetric -> real) returns (values: seq<real>)
    ensures values == MapSeq(metrics, value)
  {
    values := [];
    for i := 0 to |metrics|
      invariant values == MapSeq(metrics, value)[..i]
    {
      values := values + [value(metrics[i])];
    }
  }

  lemma CodesDistinct()
    ensures RULE != LATENCY && RULE != ERROR_RATE && RULE != CACHE_MISS
    ensures LATENCY != ERROR_RATE && LATENCY != CACHE_MISS && ERROR_RATE != CACHE_MISS
  {
    assert |RULE| == 26 && |LATENCY| == 24 && |ERROR_RATE| == 23 && |CACHE_MISS| == 22;
  }

  /** One piece of evidence recorded on a signal. */
  function Raised(signal: Signal, fires: bool, severity: real, code: string): Signal {
    if !fires then signal
    else signal.(
      anomalous := true,
      severity := Max(signal.severity, severity),
      reasonCodes := if code in signal.reasonCodes then signal.reasonCodes else signal.reasonCodes + [code])
  }

  method Raise(before: Signal, severity: real, code: string) returns (after: Signal)
    ensures after == Raised(before, true, severity, code)
  {
    var codes := AppendUnique(before.reasonCodes, code);
    after := before.(anomalous := true, severity := Max(before.severity, severity), reasonCodes := codes);
  }

  lemma RaisedInTurn(before: Signal, rule: bool, latency: bool, errors: bool, misses: bool,
                     s0: real, s1: real, s2: real, s3: real)
    requires !before.anomalous && before.severity == 0.0 && before.reasonCodes == []
    requires s0 >= 0.0 && s1 >= 0.0 && s2 >= 0.0 && s3 >= 0.0
    ensures var r := Raised(Raised(Raised(Raised(before, rule, s0, RULE), latency, s1, LATENCY),
                                   errors, s2, ERROR_RATE), misses, s3, CACHE_MISS);
            r == before.(
              anomalous := rule || latency || errors || misses,
              severity := Max(Max(Max(Part(rule, s0), Part(latency, s1)), Part(errors, s2)), Part(misses, s3)),
              reasonCodes := When(rule, RULE) + When(latency, LATENCY) + When(errors, ERROR_RATE)
                             + When(misses, CACHE_MISS))
  {
    CodesDistinct();
  }

  function WithHistory(cfg: Config, before: Signal, past: seq<NodeMetric>, latest: NodeMetric): Signal {
    var baseline := FrozenBaseline(MapSeq(past, P95Of), cfg.ewmaAlpha);
    var tested := before.(baselineMs := baseline, robustZ := ZScore(latest.p95Ms, MapSeq(past, P95Of)));
    var s1 := Raised(tested, LatencyFires(cfg, past, latest), LatencySeverity(latest.p95Ms, baseline), LATENCY);
    var s2 := Raised(s1, ErrorFires(cfg, past, latest), ErrorSeverity(ErrorDelta(cfg, past, latest)), ERROR_RATE);
    Raised(s2, MissFires(past, latest), MissSeverity(latest.cacheHitRate), CACHE_MISS)
  }

  method AddHistory(cfg: Config, before: Signal, past: seq<NodeMetric>, latest: NodeMetric)
    returns (signal: Signal)
    ensures signal == WithHistory(cfg, before, past, latest)
  {
    hide MapSeq;
    hide ZScore;
    hide Median;
    var pastP95 := MetricValues(past, P95Of);
    var pastErrors := MetricValues(past, ErrorOf);
    var pastHits := MetricValues(past, HitOf);
    var baseline := FrozenEwma(pastP95, cfg.ewmaAlpha);
    var z := RobustZ(latest.p95Ms, pastP95);
    var errorBaseline := FrozenEwma(pastErrors, cfg.ewmaAlpha);
    var errorDelta := latest.errorRate - errorBaseline;
    signal := before.(baselineMs := baseline, robustZ := z);
    if baseline > 0.0 && latest.p95Ms > 1.5 * baseline && z.AtLeast(cfg.robustZThreshold) {
      signal := Raise(signal, LatencySeverity(latest.p95Ms, baseline), LATENCY);
    }
    if latest.requests >= cfg.minimumSamples && latest.errorRate > cfg.errorThreshold && errorDelta > 0.01 {
      signal := Raise(signal, ErrorSeverity(errorDelta), ERROR_RATE);
    }
    if latest.cacheHitRate < 0.35 && latest.cacheHitRate < Median(pastHits) - 0.20 {
      signal := Raise(signal, MissSeverity(latest.cacheHitRate), CACHE_MISS);
    }
  }

  function Quiet(nodeId: string, locationBaseline: real): Signal {
    Signal(nodeId, false, 0.0, [], locationBaseline, Finite(0.0))
  }

  /** Recording the four tests one after the other gives the declarative verdict. */
  lemma EvidenceInTurn(cfg: Config, nodeId: string, past: seq<NodeMetric>, latest: NodeMetric, locationBaseline: real)
    ensures var ruled := Raised(Quiet(nodeId, locationBaseline), RuleFires(cfg, latest, locationBaseline),
                                RuleSeverity(cfg, latest, LatencyThreshold(cfg, locationBaseline)), RULE);
            NodeSignal(cfg, nodeId, past, latest, locationBaseline)
            == if EnoughHistory(cfg, past) then WithHistory(cfg, ruled, past, latest) else ruled
  {
    var quiet := Quiet(nodeId, locationBaseline);
    var rule := RuleFires(cfg, latest, locationBaseline);
    var s0 := RuleSeverity(cfg, latest, LatencyThreshold(cfg, locationBaseline));
    if EnoughHistory(cfg, past) {
      var baseline := FrozenBaseline(MapSeq(past, P95Of), cfg.ewmaAlpha);
      var z := ZScore(latest.p95Ms, MapSeq(past, P95Of));
      RaisedInTurn(quiet.(baselineMs := baseline, robustZ := z), rule,
                   LatencyFires(cfg, past, latest), ErrorFires(cfg, past, latest), MissFires(past, latest),
                   s0, LatencySeverity(latest.p95Ms, baseline), ErrorSeverity(ErrorDelta(cfg, past, latest)),
                   MissSeverity(latest.cacheHitRate));
    } else {
      RaisedInTurn(quiet, rule, false, false, false, s0, 0.0, 0.0, 0.0);
    }
  }

  method EvaluateNode(cfg: Config, nodeId: string, samples: seq<NodeMetric>, locationBaseline: real)
    returns (signal: Signal)
    requires samples != []
    ensures signal == SignalOf(cfg, nodeId, samples, locationBaseline)
  {
    var past, latest := samples[..|samples| - 1], samples[|samples| - 1];
    signal := Signal(nodeId, false, 0.0, [], locationBaseline, Finite(0.0));
    EvidenceInTurn(cfg, nodeId, past, latest, locationBaseline);
    if RuleFires(cfg, latest, locationBaseline) {
      signal := Raise(signal, RuleSeverity(cfg, latest, LatencyThreshold(cfg, locationBaseline)), RULE);
    }
    if |past| >= cfg.minimumHistory {
      signal := AddHistory(cfg, signal, past, latest);
    }
  }

  // ---------------------------------------------------------------- the whole history

  function OfNode(history: seq<NodeMetric>, nodeId: string): seq<NodeMetric>
    decreases |history|
  {
    if history == [] then []
    else
      var last := |history| - 1;
      OfNode(history[..last], nodeId) + (if history[last].nodeId == nodeId then [history[last]] else [])
  }

  ghost predicate Chronological(samples: seq<NodeMetric>) {
    forall i, j :: 0 <= i < j < |samples| ==> samples[i].windowEnd <= samples[j].windowEnd
  }

  /** The per-node slices after sorting.  Among samples with equal window ends any order may come out. */
  ghost predicate Grouped(history: seq<NodeMetric>, groups: map<string, seq<NodeMetric>>) {
    && (forall m :: m in history ==> m.nodeId in groups)
    && (forall n :: n in groups ==> n in Nodes(history))
    && (forall n :: n in groups ==> groups[n] != [] && IsHistoryOf(history, n, groups[n]))
  }

  ghost function Nodes(history: seq<NodeMetric>): set<string> { set m | m in history :: m.nodeId }

  ghost predicate IsHistoryOf(history: seq<NodeMetric>, nodeId: string, samples: seq<NodeMetric>) {
    multiset(samples) == multiset(OfNode(history, nodeId)) && Chronological(samples)
  }

  function LatestP95(groups: map<string, seq<NodeMetric>>): string -> real {
    n => if n in groups then NewestP95(groups[n]) else 0.0
  }

  function NewestP95(samples: seq<NodeMetric>): real {
    if samples == [] then 0.0 else samples[|samples| - 1].p95Ms
  }

  function LocationBaseline(groups: map<string, seq<NodeMetric>>, nodes: seq<string>): real {
    Median(MapSeq(nodes, LatestP95(groups)))
  }

  function SignalOf(cfg: Config, nodeId: string, samples: seq<NodeMetric>, locationBaseline: real): Signal
    requires samples != []
  {
    NodeSignal(cfg, nodeId, samples[..|samples| - 1], samples[|samples| - 1], locationBaseline)
  }

  function SignalMap(cfg: Config, groups: map<string, seq<NodeMetric>>, locationBaseline: real): map<string, Signal>
    requires forall n :: n in groups ==> groups[n] != []
  {
    map n | n in groups :: SignalOf(cfg, n, groups[n], locationBaseline)
  }

  predicate LeEnd(a: NodeMetric, b: NodeMetric) { a.windowEnd <= b.windowEnd }

  method SortByEnd(samples: seq<NodeMetric>) returns (sorted: seq<NodeMetric>)
    ensures multiset(sorted) == multiset(samples) && |sorted| == |samples| && Chronological(sorted)
  {
    SortBySorted(samples, LeEnd);
    sorted := SortBy(samples, LeEnd);
    assert forall i, j :: 0 <= i < j < |sorted| ==> LeEnd(sorted[i], sorted[j]);
  }

  method GroupByNode(history: seq<NodeMetric>) returns (byNode: map<string, seq<NodeMetric>>)
    ensures byNode.Keys == Nodes(history)
    ensures forall n :: n in byNode ==> byNode[n] == OfNode(history, n) && byNode[n] != []
  {
    byNode := map[];
    for i := 0 to |history|
      invariant byNode.Keys == Nodes(history[..i])
      invariant forall n :: n in byNode ==> byNode[n] == OfNode(history[..i], n) && byNode[n] != []
    {
      var m := history[i];
      assert history[..i + 1] == history[..i] + [m];
      OfNodeAbsent(history[..i], m.nodeId);
      var before := if m.nodeId in byNode then byNode[m.nodeId] else [];
      byNode := byNode[m.nodeId := before + [m]];
      assert history[..i + 1][..i] == history[..i];
    }
    assert history[..|history|] == history;
  }

  lemma {:induction false} OfNodeAbsent(history: seq<NodeMetric>, nodeId: string)
    ensures OfNode(history, nodeId) == [] <==> nodeId !in Nodes(history)
    decreases |history|
  {
    if history != [] {
      var last := |history| - 1;
      OfNodeAbsent(history[..last], nodeId);
      assert history == history[..last] + [history[last]];
    }
  }

  ghost predicate SortedCopy(sorted: seq<NodeMetric>, samples: seq<NodeMetric>) {
    sorted != [] && multiset(sorted) == multiset(samples) && Chronological(sorted)
  }

  /** Sorts every slice and collects the newest latencies, visiting the nodes in some order. */
  method SortGroups(byNode: map<string, seq<NodeMetric>>, order: seq<string>)
    returns (sorted: map<string, seq<NodeMetric>>, current: seq<real>)
    requires Lists(order, byNode.Keys)
    requires forall n :: n in byNode ==> byNode[n] != []
    ensures sorted.Keys == byNode.Keys
    ensures forall n :: n in sorted ==> SortedCopy(sorted[n], byNode[n])
    ensures current == MapSeq(order, LatestP95(sorted))
  {
    hide Chronological;
    sorted, current := map[], [];
    for i := 0 to |order|
      invariant sorted.Keys == set j | 0 <= j < i :: order[j]
      invariant forall n :: n in sorted ==> n in byNode && SortedCopy(sorted[n], byNode[n])
      invariant |current| == i
      invariant forall j :: 0 <= j < i ==> order[j] in sorted && current[j] == NewestP95(sorted[order[j]])
    {
      var samples := SortByEnd(byNode[order[i]]);
      sorted := sorted[order[i] := samples];
      current := current + [samples[|samples| - 1].p95Ms];
    }
  }

  method SignalEach(cfg: Config, sorted: map<string, seq<NodeMetric>>, locationBaseline: real)
    returns (signals: map<string, Signal>)
    requires forall n :: n in sorted ==> sorted[n] != []
    ensures signals == SignalMap(cfg, sorted, locationBaseline)
  {
    hide NodeSignal;
    signals := map[];
    var order := Enumerate(sorted.Keys);
    for i := 0 to |order|
      invariant signals.Keys == set j | 0 <= j < i :: order[j]
      invariant forall n :: n in signals ==> n in sorted && signals[n] == SignalOf(cfg, n, sorted[n], locationBaseline)
    {
      var signal := EvaluateNode(cfg, order[i], sorted[order[i]], locationBaseline);
      signals := signals[order[i] := signal];
    }
  }

  /** What one evaluation may answer: `groups` are the sorted slices and `nodes` the order in which the map of
      nodes happened to be visited. */
  ghost predicate Evaluation(cfg: Config, history: seq<NodeMetric>, signals: map<string, Signal>,
                             groups: map<string, seq<NodeMetric>>, nodes: seq<string>)
  {
    && Grouped(history, groups)
    && Lists(nodes, groups.Keys)
    && signals == SignalMap(cfg, groups, LocationBaseline(groups, nodes))
  }

  lemma SortedGroupsAreGrouped(history: seq<NodeMetric>, byNode: map<string, seq<NodeMetric>>,
                               sorted: map<string, seq<NodeMetric>>)
    requires byNode.Keys == Nodes(history) == sorted.Keys
    requires forall n :: n in byNode ==> byNode[n] == OfNode(history, n)
    requires forall n :: n in sorted ==> SortedCopy(sorted[n], byNode[n])
    ensures Grouped(history, sorted)
  {
    forall n | n in sorted ensures sorted[n] != [] && IsHistoryOf(history, n, sorted[n]) {
      assert SortedCopy(sorted[n], byNode[n]);
    }
  }

  /** Some order of visiting the nodes and of breaking ties among equal window ends leads to these signals. */
  ghost predicate IsEvaluation(cfg: Config, history: seq<NodeMetric>, signals: map<string, Signal>) {
    exists groups: map<string, seq<NodeMetric>>, nodes: seq<string> :: Evaluation(cfg, history, signals, groups, nodes)
  }

  /** Detector.Evaluate. */
  method Evaluate(cfg: Config, history: seq<NodeMetric>) returns (signals: map<string, Signal>)
    ensures IsEvaluation(cfg, history, signals)
  {
    var byNode := GroupByNode(history);
    var order := Enumerate(byNode.Keys);
    var sorted, current := SortGroups(byNode, order);
    SortedGroupsAreGrouped(history, byNode, sorted);
    var locationBaseline := Median(current);
    assert locationBaseline == LocationBaseline(sorted, order);
    signals := SignalEach(cfg, sorted, locationBaseline);
    assert Evaluation(cfg, history, signals, sorted, order);
  }
}
