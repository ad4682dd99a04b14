/** The offline evaluator of detector strategies: predictions over node-minute rows, ground truth, confusion counts.
    Instants are nanoseconds. */
module Evaluator {
  import opened Domain
  import opened Ordering
  import opened OrderStatistics
  import Detector
  import DetectorProperties
  import Accumulator

  datatype Metric = Metric(
    runId: string,
    windowStart: Instant,
    windowEnd: Instant,
    location: string,
    networkId: string,
    nodeId: string,
    requests: nat,
    errorRate: real,
    cacheHitRatio: real,
    p95Ms: real)
  {
    function Key(): SeriesKey { SeriesKey(location, networkId, nodeId) }
    function Peers(): PeerKey { PeerKey(windowEnd, location, networkId) }
  }

  datatype SeriesKey = SeriesKey(location: string, networkId: string, nodeId: string)
  datatype PeerKey = PeerKey(windowEnd: Instant, location: string, networkId: string)

  datatype Strategy = Fixed | Rule | EwmaMad

  datatype Prediction = Prediction(detected: bool, reasons: seq<string>)

  function RowP95(m: Metric): real { m.p95Ms }
  function RowError(m: Metric): real { m.errorRate }
  function RowHit(m: Metric): real { m.cacheHitRatio }

  // ---------------------------------------------------------------- the evaluator's own statistics

  method RobustZ(value: real, history: seq<real>) returns (z: Score)
    ensures z == Detector.ZScore(value, history)
  {
    hide Median;
    if history == [] { return Finite(0.0); }
    var center := Median(history);
    var distances := seq(|history|, i requires 0 <= i < |history| => Abs(history[i] - center));
    assert distances == Detector.Deviations(history, center);
    var mad := Median(distances);
    if mad < 0.000000001 {
      return if Abs(value - center) < 0.000000001 then Finite(0.0) else Infinite;
    }
    return Finite(Abs(0.6745 * (value - center) / mad));
  }

  /** The evaluator tests the sample count first and the deviation second, the detector the other way round. */
  method FrozenEwma(values: seq<real>, alpha: real) returns (baseline: real)
    ensures baseline == Detector.FrozenBaseline(values, alpha)
  {
    if values == [] { return 0.0; }
    baseline := values[0];
    var accepted := [values[0]];
    assert values[..1] == [values[0]];
    for i := 1 to |values|
      invariant accepted == Detector.Accepted(values[..i]) && accepted != []
      invariant baseline == Detector.Ewma(accepted, alpha)
    {
      Detector.AcceptedNext(values, i);
      Detector.EwmaSnoc(accepted, values[i], alpha);
      var take := |accepted| < 5;
      if !take {
        var z := RobustZ(values[i], accepted);
        take := z.AtMost(4.0);
      }
      if take {
        baseline := Detector.Blend(alpha, values[i], baseline);
        accepted := accepted + [values[i]];
      }
    }
    assert values[..|values|] == values;
  }

  /** Nearest-rank percentile; the analytics job's accumulator computes the same function. */
  method Percentile(values: seq<real>, fraction: real) returns (r: Option<real>)
    requires fraction <= 1.0
    ensures r == if values == [] then None else Some(Accumulator.PercentileOf(values, fraction))
  {
    if values == [] { return None; }
    var ordered := SortReals(values);
    var c := Ceil(Portion(fraction, |ordered|)) - 1;
    var index := if c < 0 then 0 else c;
    assert index == RankIndex(fraction, |ordered|);
    return Some(ordered[index]);
  }

  // ---------------------------------------------------------------- predictions

  predicate FixedFires(m: Metric) { m.requests >= 100 && (m.p95Ms >= 100.0 || m.errorRate >= 0.05) }

  function PeersOf(rows: seq<Metric>, key: PeerKey): seq<Metric>
    decreases |rows|
  {
    if rows == [] then []
    else PeersOf(rows[..|rows| - 1], key) + (if rows[|rows| - 1].Peers() == key then [rows[|rows| - 1]] else [])
  }

  predicate RuleFires(rows: seq<Metric>, m: Metric) {
    var baseline := Median(MapSeq(PeersOf(rows, m.Peers()), RowP95));
    m.requests >= 100 && m.errorRate > 0.02 && baseline > 0.0 && m.p95Ms > 2.0 * baseline
  }

  /** The earlier rows of the same location, network and node. */
  function SeriesOf(rows: seq<Metric>, key: SeriesKey): seq<Metric>
    decreases |rows|
  {
    if rows == [] then []
    else SeriesOf(rows[..|rows| - 1], key) + (if rows[|rows| - 1].Key() == key then [rows[|rows| - 1]] else [])
  }

  predicate LatencyFires(past: seq<Metric>, m: Metric) {
    var baseline := Detector.FrozenBaseline(MapSeq(past, RowP95), 0.2);
    baseline > 0.0 && m.p95Ms > 1.5 * baseline && Detector.ZScore(m.p95Ms, MapSeq(past, RowP95)).AtLeast(3.0)
  }

  predicate ErrorFires(past: seq<Metric>, m: Metric) {
    m.errorRate > 0.02 && m.errorRate - Detector.FrozenBaseline(MapSeq(past, RowError), 0.2) > 0.01
  }

  predicate MissFires(past: seq<Metric>, m: Metric) {
    m.cacheHitRatio < 0.35 && m.cacheHitRatio < Median(MapSeq(past, RowHit)) - 0.20
  }

  function EwmaReasons(past: seq<Metric>, m: Metric): seq<string> {
    if |past| >= 5 && m.requests >= 100 then
      Detector.When(LatencyFires(past, m), Detector.LATENCY)
      + Detector.When(ErrorFires(past, m), Detector.ERROR_RATE)
      + Detector.When(MissFires(past, m), Detector.CACHE_MISS)
    else []
  }

  /** The verdict on row i. */
  function Verdict(rows: seq<Metric>, strategy: Strategy, i: nat): Prediction
    requires i < |rows|
  {
    var m := rows[i];
    match strategy
    case Fixed => Prediction(FixedFires(m), if FixedFires(m) then ["FIXED_THRESHOLD"] else [])
    case Rule => Prediction(RuleFires(rows, m), if RuleFires(rows, m) then [Detector.RULE] else [])
    case EwmaMad =>
      var reasons := EwmaReasons(SeriesOf(rows[..i], m.Key()), m);
      Prediction(reasons != [], reasons)
  }

  lemma SeriesSnoc(rows: seq<Metric>, i: nat, key: SeriesKey)
    requires i < |rows|
    ensures SeriesOf(rows[..i + 1], key) ==
            if rows[i].Key() == key then SeriesOf(rows[..i], key) + [rows[i]] else SeriesOf(rows[..i], key)
  {
    assert rows[..i + 1][..i] == rows[..i];
  }

  lemma PeersSnoc(rows: seq<Metric>, i: nat, key: PeerKey)
    requires i < |rows|
    ensures PeersOf(rows[..i + 1], key) ==
            if rows[i].Peers() == key then PeersOf(rows[..i], key) + [rows[i]] else PeersOf(rows[..i], key)
  {
    assert rows[..i + 1][..i] == rows[..i];
  }

  method GroupPeers(rows: seq<Metric>) returns (byWindowScope: map<PeerKey, seq<Metric>>)
    ensures forall i :: 0 <= i < |rows| ==>
              rows[i].Peers() in byWindowScope && byWindowScope[rows[i].Peers()] == PeersOf(rows, rows[i].Peers())
  {
    hide PeersOf;
    byWindowScope := map[];
    assert PeersOf(rows[..0], PeerKey(0, "", "")) == PeersOf([], PeerKey(0, "", ""));
    NoPeers();
    for i := 0 to |rows|
      invariant forall k :: k in byWindowScope ==> byWindowScope[k] == PeersOf(rows[..i], k)
      invariant forall k :: k !in byWindowScope ==> PeersOf(rows[..i], k) == []
      invariant forall j :: 0 <= j < i ==> rows[j].Peers() in byWindowScope
    {
      forall k ensures PeersOf(rows[..i + 1], k) ==
                       if rows[i].Peers() == k then PeersOf(rows[..i], k) + [rows[i]] else PeersOf(rows[..i], k)
      {
        PeersSnoc(rows, i, k);
      }
      var key := rows[i].Peers();
      var before := if key in byWindowScope then byWindowScope[key] else [];
      byWindowScope := byWindowScope[key := before + [rows[i]]];
    }
    assert rows[..|rows|] == rows;
  }

  lemma NoPeers()
    ensures forall k :: PeersOf([], k) == []
  {
  }

  method EwmaVerdict(past: seq<Metric>, m: Metric) returns (reasons: seq<string>)
    ensures reasons == EwmaReasons(past, m)
  {
    hide MapSeq;
    hide Median;
    reasons := [];
    if |past| >= 5 && m.requests >= 100 {
      var latencyBaseline := FrozenEwma(MapSeq(past, RowP95), 0.2);
      var errorBaseline := FrozenEwma(MapSeq(past, RowError), 0.2);
      var z := RobustZ(m.p95Ms, MapSeq(past, RowP95));
      if latencyBaseline > 0.0 && m.p95Ms > 1.5 * latencyBaseline && z.AtLeast(3.0) {
        reasons := reasons + [Detector.LATENCY];
      }
      if m.errorRate > 0.02 && m.errorRate - errorBaseline > 0.01 {
        reasons := reasons + [Detector.ERROR_RATE];
      }
      if m.cacheHitRatio < 0.35 && m.cacheHitRatio < Median(MapSeq(past, RowHit)) - 0.20 {
        reasons := reasons + [Detector.CACHE_MISS];
      }
    }
  }

  /** The per-series history dictionary holds the rows seen so far. */
  ghost predicate HistoryOk(history: map<SeriesKey, seq<Metric>>, seen: seq<Metric>) {
    && (forall k :: k in history ==> history[k] == SeriesOf(seen, k))
    && (forall k :: k !in history ==> SeriesOf(seen, k) == [])
  }

  /** Predictions for the first n rows, keyed by row value: of equal rows the last one counts. */
  ghost predicate PredictionsOk(predictions: map<Metric, Prediction>, rows: seq<Metric>, strategy: Strategy, n: nat)
    requires n <= |rows|
  {
    && (forall i :: 0 <= i < n ==> rows[i] in predictions)
    && (forall m :: m in predictions ==> m in rows[..n])
    && (forall i :: 0 <= i < n && LastAmong(rows, i, n) ==> predictions[rows[i]] == Verdict(rows, strategy, i))
  }

  ghost predicate LastAmong(rows: seq<Metric>, i: nat, n: nat)
    requires i < n <= |rows|
  {
    forall j :: i < j < n ==> rows[j] != rows[i]
  }

  lemma HistoryNext(history: map<SeriesKey, seq<Metric>>, rows: seq<Metric>, i: nat, past: seq<Metric>)
    requires i < |rows| && HistoryOk(history, rows[..i])
    requires past == if rows[i].Key() in history then history[rows[i].Key()] else []
    ensures past == SeriesOf(rows[..i], rows[i].Key())
    ensures HistoryOk(history[rows[i].Key() := past + [rows[i]]], rows[..i + 1])
  {
    hide SeriesOf;
    var history' := history[rows[i].Key() := past + [rows[i]]];
    forall k
      ensures if k in history' then history'[k] == SeriesOf(rows[..i + 1], k) else SeriesOf(rows[..i + 1], k) == []
    {
      SeriesSnoc(rows, i, k);
    }
  }

  lemma PredictionsNext(predictions: map<Metric, Prediction>, rows: seq<Metric>, strategy: Strategy, i: nat)
    requires i < |rows| && PredictionsOk(predictions, rows, strategy, i)
    ensures PredictionsOk(predictions[rows[i] := Verdict(rows, strategy, i)], rows, strategy, i + 1)
  {
    hide Verdict;
    hide LastAmong;
    var after := predictions[rows[i] := Verdict(rows, strategy, i)];
    assert rows[..i + 1] == rows[..i] + [rows[i]];
    forall j | 0 <= j < i + 1 && LastAmong(rows, j, i + 1) ensures after[rows[j]] == Verdict(rows, strategy, j) {
      if j < i { LastAmongBefore(rows, j, i); }
    }
  }

  lemma LastAmongBefore(rows: seq<Metric>, j: nat, i: nat)
    requires j < i < |rows| && LastAmong(rows, j, i + 1)
    ensures LastAmong(rows, j, i) && rows[j] != rows[i]
  {
  }

  lemma NothingYet(rows: seq<Metric>, strategy: Strategy)
    ensures HistoryOk(map[], rows[..0]) && PredictionsOk(map[], rows, strategy, 0)
  {
    hide Verdict;
  }

  /** predict: one pass over the rows, with a growing history per series. */
  method Predict(rows: seq<Metric>, strategy: Strategy) returns (predictions: map<Metric, Prediction>)
    ensures PredictionsOk(predictions, rows, strategy, |rows|)
  {
    hide SeriesOf;
    hide PeersOf;
    hide EwmaReasons;
    hide RuleFires;
    hide FixedFires;
    hide HistoryOk;
    hide PredictionsOk;
    predictions := map[];
    var history: map<SeriesKey, seq<Metric>> := map[];
    var byWindowScope := GroupPeers(rows);
    NothingYet(rows, strategy);
    for i := 0 to |rows|
      invariant HistoryOk(history, rows[..i])
      invariant PredictionsOk(predictions, rows, strategy, i)
    {
      var m := rows[i];
      var past := if m.Key() in history then history[m.Key()] else [];
      HistoryNext(history, rows, i, past);
      PredictionsNext(predictions, rows, strategy, i);
      var reasons: seq<string> := [];
      var detected := false;
      match strategy {
        case Fixed =>
          detected := FixedFires(m);
          if detected { reasons := ["FIXED_THRESHOLD"]; }
        case Rule =>
          detected := PeerRule(byWindowScope[m.Peers()], rows, m);
          if detected { reasons := [Detector.RULE]; }
        case EwmaMad =>
          reasons := EwmaVerdict(past, m);
          detected := reasons != [];
      }
      predictions := predictions[m := Prediction(detected, reasons)];
      history := history[m.Key() := past + [m]];
    }
  }

  method PeerRule(peers: seq<Metric>, ghost rows: seq<Metric>, m: Metric) returns (detected: bool)
    requires peers == PeersOf(rows, m.Peers())
    ensures detected == RuleFires(rows, m)
  {
    var locationBaseline := Median(MapSeq(peers, RowP95));
    detected := m.requests >= 100 && m.errorRate > 0.02 && locationBaseline > 0.0 && m.p95Ms > 2.0 * locationBaseline;
  }

  // ---------------------------------------------------------------- ground truth and confusion counts

  datatype Fault = Fault(kind: string, start: Instant, end: Instant, target: string, network: Option<string>)

  predicate FaultMatches(m: Metric, f: Fault) {
    && m.windowStart < f.end && m.windowEnd > f.start
    && m.nodeId == f.target
    && (f.network.None? || m.networkId == f.network.value)
  }

  predicate GroundTruth(m: Metric, faults: seq<Fault>) { exists i :: 0 <= i < |faults| && FaultMatches(m, faults[i]) }

  datatype Confusion = Confusion(tp: nat, fp: nat, fn: nat, tn: nat, smallTrafficFp: nat, smallTrafficNegative: nat)

  function IsCase(faults: seq<Fault>, predictions: map<Metric, Prediction>, predicted: bool, actual: bool)
    : Metric -> bool
  {
    m => m in predictions && predictions[m].detected == predicted && GroundTruth(m, faults) == actual
  }

  function SmallFp(faults: seq<Fault>, predictions: map<Metric, Prediction>): Metric -> bool {
    m => IsCase(faults, predictions, true, false)(m) && m.requests < 100
  }

  function SmallNegative(faults: seq<Fault>): Metric -> bool {
    (m: Metric) => m.requests < 100 && !GroundTruth(m, faults)
  }

  /** The counting part of strategy_metrics. */
  method StrategyCounts(rows: seq<Metric>, faults: seq<Fault>, predictions: map<Metric, Prediction>)
    returns (c: Confusion)
    requires forall i :: 0 <= i < |rows| ==> rows[i] in predictions
    ensures c.tp == Count(rows, IsCase(faults, predictions, true, true))
    ensures c.fp == Count(rows, IsCase(faults, predictions, true, false))
    ensures c.fn == Count(rows, IsCase(faults, predictions, false, true))
    ensures c.tn == Count(rows, IsCase(faults, predictions, false, false))
    ensures c.smallTrafficFp == Count(rows, SmallFp(faults, predictions))
    ensures c.smallTrafficNegative == Count(rows, SmallNegative(faults))
    ensures c.tp + c.fp + c.fn + c.tn == |rows|
  {
    hide GroundTruth;
    hide Count;
    var tp, fp, fn, tn, small, negative := 0, 0, 0, 0, 0, 0;
    CountNone(rows, IsCase(faults, predictions, true, true));
    CountNone(rows, IsCase(faults, predictions, true, false));
    CountNone(rows, IsCase(faults, predictions, false, true));
    CountNone(rows, IsCase(faults, predictions, false, false));
    CountNone(rows, SmallFp(faults, predictions));
    CountNone(rows, SmallNegative(faults));
    for i := 0 to |rows|
      invariant tp == Count(rows[..i], IsCase(faults, predictions, true, true))
      invariant fp == Count(rows[..i], IsCase(faults, predictions, true, false))
      invariant fn == Count(rows[..i], IsCase(faults, predictions, false, true))
      invariant tn == Count(rows[..i], IsCase(faults, predictions, false, false))
      invariant small == Count(rows[..i], SmallFp(faults, predictions))
      invariant negative == Count(rows[..i], SmallNegative(faults))
      invariant tp + fp + fn + tn == i
    {
      var row := rows[i];
      CountNext(rows, i, IsCase(faults, predictions, true, true));
      CountNext(rows, i, IsCase(faults, predictions, true, false));
      CountNext(rows, i, IsCase(faults, predictions, false, true));
      CountNext(rows, i, IsCase(faults, predictions, false, false));
      CountNext(rows, i, SmallFp(faults, predictions));
      CountNext(rows, i, SmallNegative(faults));
      var actual := GroundTruth(row, faults);
      var predicted := predictions[row].detected;
      if row.requests < 100 && !actual { negative := negative + 1; }
      if predicted && actual {
        tp := tp + 1;
      } else if predicted && !actual {
        fp := fp + 1;
        if row.requests < 100 { small := small + 1; }
      } else if actual {
        fn := fn + 1;
      } else {
        tn := tn + 1;
      }
    }
    assert rows[..|rows|] == rows;
    c := Confusion(tp, fp, fn, tn, small, negative);
  }

  lemma CountNone<T>(s: seq<T>, p: T -> bool)
    ensures Count(s[..0], p) == 0
  {
  }

  lemma CountNext<T>(s: seq<T>, i: nat, p: T -> bool)
    requires i < |s|
    ensures Count(s[..i + 1], p) == Count(s[..i], p) + (if p(s[i]) then 1 else 0)
  {
    assert s[..i + 1] == s[..i] + [s[i]];
    CountConcat(s[..i], [s[i]], p);
  }

  /** One strategy's evaluation: predictions, then counts. */
  method Evaluate(rows: seq<Metric>, faults: seq<Fault>, strategy: Strategy) returns (c: Confusion)
    ensures c.tp + c.fp + c.fn + c.tn == |rows|
    ensures c.smallTrafficFp == 0
  {
    hide Verdict;
    hide GroundTruth;
    var predictions := Predict(rows, strategy);
    c := StrategyCounts(rows, faults, predictions);
    assert rows[..|rows|] == rows;
    forall m | m in rows ensures !SmallFp(faults, predictions)(m) {
      var i := LastOccurrence(rows, m, |rows|);
      DetectionNeedsTraffic(rows, strategy, i);
    }
    CountBounds(rows, SmallFp(faults, predictions));
  }

  /** Equal rows share one prediction, that of their last occurrence. */
  lemma LastOccurrence(rows: seq<Metric>, m: Metric, n: nat) returns (i: nat)
    requires n <= |rows| && m in rows[..n]
    ensures i < n && rows[i] == m && LastAmong(rows, i, n)
  {
    i := n - 1;
    while rows[i] != m
      invariant i < n && m in rows[..i + 1]
      invariant forall j :: i < j < n ==> rows[j] != m
      decreases i
    {
      assert rows[..i + 1] == rows[..i] + [rows[i]];
      i := i - 1;
    }
  }

  /** No strategy ever fires on a row with fewer than 100 requests. */
  lemma DetectionNeedsTraffic(rows: seq<Metric>, strategy: Strategy, i: nat)
    requires i < |rows|
    ensures Verdict(rows, strategy, i).detected ==> rows[i].requests >= 100
  {
    hide Median;
    hide LatencyFires;
    hide ErrorFires;
    hide MissFires;
    hide SeriesOf;
    hide PeersOf;
  }

  /** The fixed strategy by the fields of the row. */
  lemma FixedLaw(rows: seq<Metric>, i: nat)
    requires i < |rows|
    ensures var m, v := rows[i], Verdict(rows, Fixed, i);
            && (v.detected <==> m.requests >= 100 && (m.p95Ms >= 100.0 || m.errorRate >= 0.05))
            && v.reasons == if v.detected then ["FIXED_THRESHOLD"] else []
  {
  }

  /** The rule's peers are all rows of the window end, location and network, each as often as it occurs. */
  lemma {:induction false} PeersLaw(rows: seq<Metric>, m: Metric, x: Metric)
    ensures multiset(PeersOf(rows, m.Peers()))[x] ==
            if x.windowEnd == m.windowEnd && x.location == m.location && x.networkId == m.networkId
            then multiset(rows)[x] else 0
    decreases |rows|
  {
    if rows != [] {
      var last := |rows| - 1;
      PeersLaw(rows[..last], m, x);
      assert rows == rows[..last] + [rows[last]];
    }
  }

  predicate SameSource(x: Metric, m: Metric) {
    x.location == m.location && x.networkId == m.networkId && x.nodeId == m.nodeId
  }

  /** The positions, in order, of the rows with the location, network and node of m. */
  ghost predicate Positions(rows: seq<Metric>, m: Metric, at: seq<nat>) {
    && (forall k :: 0 <= k < |at| ==> at[k] < |rows| && SameSource(rows[at[k]], m))
    && (forall j, k :: 0 <= j < k < |at| ==> at[j] < at[k])
    && forall i :: 0 <= i < |rows| && SameSource(rows[i], m) ==> i in at
  }

  lemma PositionsSkip(rows: seq<Metric>, m: Metric, at: seq<nat>)
    requires rows != [] && Positions(rows[..|rows| - 1], m, at) && !SameSource(rows[|rows| - 1], m)
    ensures Positions(rows, m, at)
  {
    hide SameSource;
    var before := rows[..|rows| - 1];
    assert forall i :: 0 <= i < |before| ==> before[i] == rows[i];
  }

  lemma PositionsTake(rows: seq<Metric>, m: Metric, at: seq<nat>)
    requires rows != [] && Positions(rows[..|rows| - 1], m, at) && SameSource(rows[|rows| - 1], m)
    ensures Positions(rows, m, at + [|rows| - 1])
  {
    hide SameSource;
    var last := |rows| - 1;
    var before, at' := rows[..last], at + [last];
    forall k | 0 <= k < |at'| ensures at'[k] < |rows| && SameSource(rows[at'[k]], m) {
      if k < |at| { assert before[at[k]] == rows[at[k]]; }
    }
    forall i | 0 <= i < |rows| && SameSource(rows[i], m) ensures i in at' {
      if i < last { assert before[i] == rows[i] && i in at; } else { assert at'[|at|] == i; }
    }
  }

  /** The series consists of the rows at these positions. */
  ghost predicate Reads(rows: seq<Metric>, at: seq<nat>, series: seq<Metric>) {
    |at| == |series| && forall k :: 0 <= k < |at| ==> at[k] < |rows| && series[k] == rows[at[k]]
  }

  lemma ReadsNext(rows: seq<Metric>, at: seq<nat>, series: seq<Metric>)
    requires rows != [] && Reads(rows[..|rows| - 1], at, series)
    ensures Reads(rows, at, series)
    ensures Reads(rows, at + [|rows| - 1], series + [rows[|rows| - 1]])
  {
  }

  /** The series of a row are the rows of its location, network and node, in their order. */
  lemma {:induction false} SeriesLaw(rows: seq<Metric>, m: Metric) returns (at: seq<nat>)
    ensures Positions(rows, m, at) && Reads(rows, at, SeriesOf(rows, m.Key()))
    decreases |rows|
  {
    hide Positions;
    hide Reads;
    if rows == [] {
      at := [];
      NoSeries(m);
    } else {
      var last := |rows| - 1;
      at := SeriesLaw(rows[..last], m);
      ReadsNext(rows, at, SeriesOf(rows[..last], m.Key()));
      SeriesSnoc(rows, last, m.Key());
      assert rows[..last + 1] == rows;
      if SameSource(rows[last], m) {
        PositionsTake(rows, m, at);
        at := at + [last];
      } else {
        PositionsSkip(rows, m, at);
      }
    }
  }

  lemma NoSeries(m: Metric)
    ensures Positions([], m, []) && Reads([], [], SeriesOf([], m.Key()))
  {
  }

  /** The rule by the fields of the row and the median latency of its peers. */
  lemma RuleLaw(rows: seq<Metric>, i: nat)
    requires i < |rows|
    ensures var m, baseline := rows[i], Median(MapSeq(PeersOf(rows, rows[i].Peers()), (x: Metric) => x.p95Ms));
            Verdict(rows, Rule, i).detected <==>
            m.requests >= 100 && m.errorRate > 0.02 && baseline > 0.0 && m.p95Ms > 2.0 * baseline
  {
    hide Median;
    hide PeersOf;
    assert MapSeq(PeersOf(rows, rows[i].Peers()), RowP95)
        == MapSeq(PeersOf(rows, rows[i].Peers()), (x: Metric) => x.p95Ms);
  }

  /** The four cases and the two small-traffic cases, by verdict, truth and traffic. */
  lemma CasesLaw(faults: seq<Fault>, predictions: map<Metric, Prediction>, m: Metric, predicted: bool, actual: bool)
    requires m in predictions
    ensures IsCase(faults, predictions, predicted, actual)(m) <==>
            predictions[m].detected == predicted && (actual <==> exists f :: f in faults && FaultMatches(m, f))
    ensures SmallFp(faults, predictions)(m) <==>
            predictions[m].detected && m.requests < 100 && !exists f :: f in faults && FaultMatches(m, f)
    ensures SmallNegative(faults)(m) <==> m.requests < 100 && !exists f :: f in faults && FaultMatches(m, f)
  {
    hide FaultMatches;
    assert GroundTruth(m, faults) <==> exists f :: f in faults && FaultMatches(m, f);
    assert SmallFp(faults, predictions)(m) <==> IsCase(faults, predictions, true, false)(m) && m.requests < 100;
    assert IsCase(faults, predictions, true, false)(m) <==> predictions[m].detected && !GroundTruth(m, faults);
  }

  // ---------------------------------------------------------------- no time leakage

  /** The EWMA/MAD and fixed verdicts on the first k rows do not depend on any later row. */
  lemma VerdictOnPrefix(rows: seq<Metric>, strategy: Strategy, k: nat, i: nat)
    requires i < k <= |rows| && !strategy.Rule?
    ensures Verdict(rows[..k], strategy, i) == Verdict(rows, strategy, i)
  {
    assert rows[..k][..i] == rows[..i];
  }

  /** What the answer for a row is: the verdict on its last occurrence. */
  lemma LastDecides(rows: seq<Metric>, strategy: Strategy, predictions: map<Metric, Prediction>, m: Metric)
    returns (last: nat)
    requires PredictionsOk(predictions, rows, strategy, |rows|) && m in rows
    ensures last < |rows| && rows[last] == m && LastAmong(rows, last, |rows|)
    ensures m in predictions && predictions[m] == Verdict(rows, strategy, last)
  {
    hide Verdict;
    assert rows[..|rows|] == rows;
    last := LastOccurrence(rows, m, |rows|);
  }

  /** The answers of the fixed and the EWMA/MAD strategy to the first k rows, compared with their answers to all rows:
      the fixed strategy's never change, and the other's change only for a row that occurs again. */
  lemma NoTimeLeakage(rows: seq<Metric>, strategy: Strategy, k: nat, m: Metric, early: map<Metric, Prediction>,
                      late: map<Metric, Prediction>)
    requires k <= |rows| && m in rows[..k] && !strategy.Rule?
    requires PredictionsOk(early, rows[..k], strategy, k) && PredictionsOk(late, rows, strategy, |rows|)
    requires strategy.Fixed? || m !in rows[k..]
    ensures m in early && m in late && early[m] == late[m]
  {
    hide PredictionsOk;
    hide Verdict;
    var i := LastDecides(rows[..k], strategy, early, m);
    var j := LastDecides(rows, strategy, late, m);
    VerdictOnPrefix(rows, strategy, k, i);
    if strategy.Fixed? {
      SameFixed(rows, i, j);
    } else {
      SameOccurrence(rows, k, m, i, j);
    }
  }

  lemma SameFixed(rows: seq<Metric>, i: nat, j: nat)
    requires i < |rows| && j < |rows| && rows[i] == rows[j]
    ensures Verdict(rows, Fixed, i) == Verdict(rows, Fixed, j)
  {
  }

  lemma SameOccurrence(rows: seq<Metric>, k: nat, m: Metric, i: nat, j: nat)
    requires i < k <= |rows| && j < |rows| && rows[i] == m && rows[j] == m && m !in rows[k..]
    requires LastAmong(rows[..k], i, k) && LastAmong(rows, j, |rows|)
    ensures i == j
  {
    assert forall x :: k <= x < |rows| ==> rows[x] in rows[k..];
  }

  lemma {:induction false} PeersPrefix(rows: seq<Metric>, k: nat, key: PeerKey)
    requires k <= |rows|
    requires forall j :: k <= j < |rows| ==> rows[j].Peers() != key
    ensures PeersOf(rows[..k], key) == PeersOf(rows, key)
    decreases |rows|
  {
    if k < |rows| {
      var last := |rows| - 1;
      PeersPrefix(rows[..last], k, key);
      assert rows[..last][..k] == rows[..k];
    } else {
      assert rows[..k] == rows;
    }
  }

  /** The rule looks at all rows of its own minute and scope, and at no other row: unless one of these comes later, its
      answer to a row is not changed by later rows. */
  lemma RuleSeesItsMinuteOnly(rows: seq<Metric>, k: nat, m: Metric, early: map<Metric, Prediction>,
                              late: map<Metric, Prediction>)
    requires k <= |rows| && m in rows[..k]
    requires PredictionsOk(early, rows[..k], Rule, k) && PredictionsOk(late, rows, Rule, |rows|)
    requires forall j :: k <= j < |rows| ==> rows[j].Peers() != m.Peers()
    ensures m in early && m in late && early[m] == late[m]
  {
    hide Median;
    hide PeersOf;
    hide PredictionsOk;
    var i := LastDecides(rows[..k], Rule, early, m);
    var j := LastDecides(rows, Rule, late, m);
    PeersPrefix(rows, k, m.Peers());
  }

  // ---------------------------------------------------------------- a repeated row is judged with hindsight

  function QuietRow(i: nat): Metric { Metric("r", i * 60, (i + 1) * 60, "au", "isp", "a", 500, 0.0, 0.8, 50.0) }

  /** A row with errors after four quiet ones, ... */
  const BURST := Metric("r", 240, 300, "au", "isp", "a", 500, 0.5, 0.8, 50.0)

  const FIVE: seq<Metric> := [QuietRow(0), QuietRow(1), QuietRow(2), QuietRow(3), BURST]

  /** ... and once more. */
  const SIX: seq<Metric> := FIVE + [BURST]

  lemma OneSeries(rows: seq<Metric>, key: SeriesKey)
    requires forall i :: 0 <= i < |rows| ==> rows[i].Key() == key
    ensures SeriesOf(rows, key) == rows
    decreases |rows|
  {
    if rows != [] {
      var last := |rows| - 1;
      OneSeries(rows[..last], key);
      assert rows == rows[..last] + [rows[last]];
    }
  }

  /** The first five samples are accepted as they come. */
  lemma {:induction false} FewAccepted(values: seq<real>)
    requires |values| <= 5
    ensures Detector.Accepted(values) == values
    decreases |values|
  {
    if |values| > 1 {
      var last := |values| - 1;
      FewAccepted(values[..last]);
      assert values == values[..last] + [values[last]];
    }
  }

  const QUIET_ERRORS: seq<real> := [0.0, 0.0, 0.0, 0.0]

  lemma QuietAverage()
    ensures Detector.Ewma(QUIET_ERRORS, 0.2) == 0.0
  {
    hide Detector.Ewma;
    assert forall x :: x in QUIET_ERRORS ==> x == 0.0;
    DetectorProperties.EwmaWithin(QUIET_ERRORS, 0.2, 0.0, 0.0);
  }

  lemma BurstBaseline()
    ensures Detector.FrozenBaseline(QUIET_ERRORS + [0.5], 0.2) == 0.1
  {
    hide Detector.Accepted;
    hide Detector.Ewma;
    FewAccepted(QUIET_ERRORS + [0.5]);
    QuietAverage();
    Detector.EwmaSnoc(QUIET_ERRORS, 0.5, 0.2);
  }

  /** With the burst itself in its past the error test fires. */
  lemma BurstFires()
    ensures Detector.ERROR_RATE in EwmaReasons(FIVE, BURST)
  {
    hide LatencyFires;
    hide MissFires;
    hide Detector.FrozenBaseline;
    assert MapSeq(FIVE, RowError) == QUIET_ERRORS + [0.5];
    BurstBaseline();
  }

  /** The premise is needed: the burst is not detected in the first five rows, which leave it too little history, but
      when it is repeated the single answer for both occurrences is that it is detected. */
  lemma RepeatedRowChanges(early: map<Metric, Prediction>, late: map<Metric, Prediction>)
    requires PredictionsOk(early, FIVE, EwmaMad, 5) && PredictionsOk(late, SIX, EwmaMad, 6)
    ensures BURST in early && !early[BURST].detected
    ensures BURST in late && late[BURST].detected
  {
    hide PredictionsOk;
    hide EwmaReasons;
    assert FIVE[4] == BURST && SIX[5] == BURST && SIX[..5] == FIVE;
    var i := LastDecides(FIVE, EwmaMad, early, BURST);
    var j := LastDecides(SIX, EwmaMad, late, BURST);
    assert i == 4 && j == 5;
    OneSeries(FIVE[..4], BURST.Key());
    OneSeries(FIVE, BURST.Key());
    hide SeriesOf;
    ShortPast(FIVE[..4], BURST);
    BurstFires();
  }

  lemma ShortPast(past: seq<Metric>, m: Metric)
    requires |past| < 5
    ensures EwmaReasons(past, m) == []
  {
  }

  // ---------------------------------------------------------------- agreement with the online detector

  const DEFAULTS := Detector.Config(100, 5, 0.20, 0.02, 2.0, 3.0)

  /** The online history of one series: what the detector reads from each row; its other fields are arbitrary. */
  ghost predicate SameRow(m: Metric, o: NodeMetric) {
    && o.nodeId == m.nodeId && o.windowEnd == m.windowEnd && o.requests == m.requests
    && o.errorRate == m.errorRate && o.cacheHitRate == m.cacheHitRatio && o.p95Ms == m.p95Ms
  }

  ghost predicate SameSeries(past: seq<Metric>, m: Metric, online: seq<NodeMetric>) {
    && |online| == |past| + 1
    && (forall i :: 0 <= i < |past| ==> SameRow(past[i], online[i]))
    && SameRow(m, online[|past|])
    && (forall i :: 0 <= i < |online| ==> online[i].nodeId == m.nodeId)
    && StrictEnds(online)
  }

  ghost predicate StrictEnds(online: seq<NodeMetric>) {
    forall i, j :: 0 <= i < j < |online| ==> online[i].windowEnd < online[j].windowEnd
  }

  lemma StrictEndsNoTies(online: seq<NodeMetric>)
    requires StrictEnds(online)
    ensures SortedBy(online, Detector.LeEnd) && TiesAreEqual(online, Detector.LeEnd)
  {
  }

  lemma OnlineSlice(past: seq<Metric>, m: Metric, online: seq<NodeMetric>, slice: seq<NodeMetric>)
    requires SameSeries(past, m, Detector.OfNode(online, m.nodeId)) && Detector.IsHistoryOf(online, m.nodeId, slice)
    ensures slice == Detector.OfNode(online, m.nodeId)
  {
    hide SameRow;
    hide Detector.OfNode;
    var own := Detector.OfNode(online, m.nodeId);
    StrictEndsNoTies(own);
    hide TiesAreEqual;
    assert SortedBy(slice, Detector.LeEnd);
    SortedUnique(own, slice, Detector.LeEnd);
  }

  /** With distinct window ends the detector sorts nothing. */
  lemma OnlineNode(past: seq<Metric>, m: Metric, online: seq<NodeMetric>, groups: map<string, seq<NodeMetric>>)
    requires SameSeries(past, m, Detector.OfNode(online, m.nodeId)) && Detector.Grouped(online, groups)
    ensures m.nodeId in groups && groups[m.nodeId] == Detector.OfNode(online, m.nodeId)
  {
    hide SameRow;
    hide Detector.IsHistoryOf;
    var own := Detector.OfNode(online, m.nodeId);
    hide Detector.OfNode;
    assert own[|past|] in own;
    DetectorProperties.OfNodeMembers(online, m.nodeId);
    OnlineSlice(past, m, online, groups[m.nodeId]);
  }

  lemma SingleListing(nodes: seq<string>, node: string)
    requires Lists(nodes, {node})
    ensures nodes == [node]
  {
    ListingSize(nodes, {node});
    assert nodes[0] in nodes;
  }

  /** With a single node the location rule never fires: nothing exceeds twice its own positive value. */
  lemma RuleSilentAlone(latest: NodeMetric)
    ensures Median([latest.p95Ms]) == latest.p95Ms
    ensures !Detector.RuleFires(DEFAULTS, latest, Median([latest.p95Ms]))
  {
    SortRealsUnique([latest.p95Ms], [latest.p95Ms]);
  }

  lemma SameTests(past: seq<Metric>, m: Metric, online: seq<NodeMetric>)
    requires SameSeries(past, m, online)
    ensures var before, latest := online[..|past|], online[|past|];
            && (Detector.LatencyFires(DEFAULTS, before, latest) <==> LatencyFires(past, m))
            && (Detector.ErrorFires(DEFAULTS, before, latest) <==> m.requests >= 100 && ErrorFires(past, m))
            && (Detector.MissFires(before, latest) <==> MissFires(past, m))
  {
    hide Median;
    hide Detector.ZScore;
    hide Detector.FrozenBaseline;
    var before := online[..|past|];
    assert MapSeq(before, P95Of) == MapSeq(past, RowP95);
    assert MapSeq(before, ErrorOf) == MapSeq(past, RowError);
    assert MapSeq(before, HitOf) == MapSeq(past, RowHit);
  }

  function Newest(slice: seq<NodeMetric>): NodeMetric
    requires slice != []
  {
    slice[|slice| - 1]
  }

  /** The location rule of the online detector on a node's newest sample. */
  ghost predicate OnlineRule(groups: map<string, seq<NodeMetric>>, nodes: seq<string>, node: string)
    requires node in groups && groups[node] != []
  {
    Detector.RuleFires(DEFAULTS, Newest(groups[node]), Detector.LocationBaseline(groups, nodes))
  }

  /** The codes of the history tests, in the order of the detector. */
  ghost function OnlineTests(slice: seq<NodeMetric>): seq<string>
    requires slice != []
  {
    var past, latest := slice[..|slice| - 1], Newest(slice);
    if |past| >= 5
    then Detector.When(Detector.LatencyFires(DEFAULTS, past, latest), Detector.LATENCY)
         + Detector.When(Detector.ErrorFires(DEFAULTS, past, latest), Detector.ERROR_RATE)
         + Detector.When(Detector.MissFires(past, latest), Detector.CACHE_MISS)
    else []
  }

  /** What the online detector says of one node among any others. */
  lemma OnlineCodes(online: seq<NodeMetric>, signals: map<string, Signal>, groups: map<string, seq<NodeMetric>>,
                    nodes: seq<string>, node: string)
    requires Detector.Evaluation(DEFAULTS, online, signals, groups, nodes) && node in groups
    ensures node in signals && groups[node] != []
    ensures signals[node].reasonCodes ==
            Detector.When(OnlineRule(groups, nodes, node), Detector.RULE) + OnlineTests(groups[node])
    ensures signals[node].anomalous <==> signals[node].reasonCodes != []
  {
    hide Detector.RuleFires;
    hide Detector.IsHistoryOf;
    hide Detector.LocationBaseline;
    hide Detector.NodeSignal;
    hide OnlineTests;
    NodeCodes(node, groups[node], Detector.LocationBaseline(groups, nodes));
  }

  lemma NodeCodes(node: string, slice: seq<NodeMetric>, baseline: real)
    requires slice != []
    ensures var s := Detector.SignalOf(DEFAULTS, node, slice, baseline);
            && s.reasonCodes == Detector.When(Detector.RuleFires(DEFAULTS, Newest(slice), baseline), Detector.RULE)
                                + OnlineTests(slice)
            && (s.anomalous <==> s.reasonCodes != [])
  {
    hide Detector.LatencyFires;
    hide Detector.ErrorFires;
    hide Detector.MissFires;
    hide Detector.RuleFires;
    hide Detector.ZScore;
    hide Detector.FrozenBaseline;
    hide Detector.ErrorDelta;
    hide Detector.RuleSeverity;
    hide Detector.LatencySeverity;
    hide Detector.ErrorSeverity;
    hide Detector.MissSeverity;
    hide MapSeq;
  }

  /** The history tests of the online detector in the evaluator's terms. */
  lemma OnlineTestsAgree(past: seq<Metric>, m: Metric, slice: seq<NodeMetric>)
    requires SameSeries(past, m, slice)
    ensures slice != []
    ensures OnlineTests(slice) ==
            Detector.When(|past| >= 5 && LatencyFires(past, m), Detector.LATENCY)
            + Detector.When(|past| >= 5 && m.requests >= 100 && ErrorFires(past, m), Detector.ERROR_RATE)
            + Detector.When(|past| >= 5 && MissFires(past, m), Detector.CACHE_MISS)
  {
    hide LatencyFires;
    hide ErrorFires;
    hide MissFires;
    hide Detector.LatencyFires;
    hide Detector.ErrorFires;
    hide Detector.MissFires;
    hide SameRow;
    SameTests(past, m, slice);
    assert slice[..|slice| - 1] == slice[..|past|];
  }

  /** The evaluator's EWMA/MAD verdict on row i against the online detector run on any history whose samples of the
      row's node are that node's series up to row i: the detector gives a history code exactly when the evaluator's test
      holds (the latency and cache tests without the evaluator's demand for traffic); with at least 100 requests the
      reasons are the same up to the location rule; the evaluator never fires where the detector is silent; and it
      stays silent on a history code exactly on rows below 100 requests where the latency or cache test holds. */
  lemma EvaluatorAgreesWithDetector(rows: seq<Metric>, i: nat, online: seq<NodeMetric>, signals: map<string, Signal>)
    requires i < |rows|
    requires SameSeries(SeriesOf(rows[..i], rows[i].Key()), rows[i], Detector.OfNode(online, rows[i].nodeId))
    requires Detector.IsEvaluation(DEFAULTS, online, signals)
    ensures rows[i].nodeId in signals
    ensures var m, v, s := rows[i], Verdict(rows, EwmaMad, i), signals[rows[i].nodeId];
            var past := SeriesOf(rows[..i], m.Key());
            && (Detector.LATENCY in s.reasonCodes <==> |past| >= 5 && LatencyFires(past, m))
            && (Detector.ERROR_RATE in s.reasonCodes <==> |past| >= 5 && m.requests >= 100 && ErrorFires(past, m))
            && (Detector.CACHE_MISS in s.reasonCodes <==> |past| >= 5 && MissFires(past, m))
            && (m.requests >= 100 ==>
                  s.reasonCodes == Detector.When(Detector.RULE in s.reasonCodes, Detector.RULE) + v.reasons)
            && (v.detected ==> s.anomalous)
            && (!v.detected && (exists code :: code in s.reasonCodes && code != Detector.RULE) <==>
                m.requests < 100 && |past| >= 5 && (LatencyFires(past, m) || MissFires(past, m)))
  {
    hide LatencyFires;
    hide ErrorFires;
    hide MissFires;
    hide SeriesOf;
    hide SameSeries;
    hide Detector.Evaluation;
    var past, m := SeriesOf(rows[..i], rows[i].Key()), rows[i];
    var groups: map<string, seq<NodeMetric>>, nodes: seq<string> :|
      Detector.Evaluation(DEFAULTS, online, signals, groups, nodes);
    SignalOnline(past, m, online, signals, groups, nodes);
    var enough := |past| >= 5;
    CodeMembers(OnlineRule(groups, nodes, m.nodeId), enough && LatencyFires(past, m),
                enough && m.requests >= 100 && ErrorFires(past, m), enough && MissFires(past, m),
                signals[m.nodeId].reasonCodes);
    hide OnlineRule;
  }

  /** A list of codes, each present or not, contains just the present ones. */
  lemma CodeMembers(rule: bool, latency: bool, errors: bool, misses: bool, codes: seq<string>)
    requires codes == Detector.When(rule, Detector.RULE)
                      + (Detector.When(latency, Detector.LATENCY) + Detector.When(errors, Detector.ERROR_RATE)
                         + Detector.When(misses, Detector.CACHE_MISS))
    ensures Detector.RULE in codes <==> rule
    ensures Detector.LATENCY in codes <==> latency
    ensures Detector.ERROR_RATE in codes <==> errors
    ensures Detector.CACHE_MISS in codes <==> misses
    ensures (exists code :: code in codes && code != Detector.RULE) <==> latency || errors || misses
  {
    Detector.CodesDistinct();
  }

  lemma SignalOnline(past: seq<Metric>, m: Metric, online: seq<NodeMetric>, signals: map<string, Signal>,
                     groups: map<string, seq<NodeMetric>>, nodes: seq<string>)
    requires SameSeries(past, m, Detector.OfNode(online, m.nodeId))
    requires Detector.Evaluation(DEFAULTS, online, signals, groups, nodes)
    ensures m.nodeId in signals && m.nodeId in groups && groups[m.nodeId] != []
    ensures signals[m.nodeId].anomalous <==> signals[m.nodeId].reasonCodes != []
    ensures signals[m.nodeId].reasonCodes ==
            Detector.When(OnlineRule(groups, nodes, m.nodeId), Detector.RULE)
            + (Detector.When(|past| >= 5 && LatencyFires(past, m), Detector.LATENCY)
               + Detector.When(|past| >= 5 && m.requests >= 100 && ErrorFires(past, m), Detector.ERROR_RATE)
               + Detector.When(|past| >= 5 && MissFires(past, m), Detector.CACHE_MISS))
  {
    hide SameSeries;
    hide Detector.OfNode;
    hide Detector.Grouped;
    hide Detector.SignalMap;
    hide Detector.LocationBaseline;
    hide OnlineRule;
    hide OnlineTests;
    hide LatencyFires;
    hide ErrorFires;
    hide MissFires;
    OnlineNode(past, m, online, groups);
    OnlineTestsAgree(past, m, groups[m.nodeId]);
    OnlineCodes(online, signals, groups, nodes, m.nodeId);
  }

  /** On the history of a single node the location rule is silent, so verdict and reasons agree outright. */
  lemma EvaluatorAgreesAlone(rows: seq<Metric>, i: nat, online: seq<NodeMetric>, signals: map<string, Signal>)
    requires i < |rows|
    requires SameSeries(SeriesOf(rows[..i], rows[i].Key()), rows[i], online)
    requires Detector.IsEvaluation(DEFAULTS, online, signals)
    ensures rows[i].nodeId in signals
    ensures var m, v, s := rows[i], Verdict(rows, EwmaMad, i), signals[rows[i].nodeId];
            var past := SeriesOf(rows[..i], m.Key());
            && (m.requests >= 100 ==> v.reasons == s.reasonCodes)
            && (v.detected ==> s.anomalous)
            && (v.detected != s.anomalous <==>
                m.requests < 100 && |past| >= 5 && (LatencyFires(past, m) || MissFires(past, m)))
  {
    hide LatencyFires;
    hide ErrorFires;
    hide MissFires;
    hide SeriesOf;
    hide Detector.Evaluation;
    hide SameRow;
    hide StrictEnds;
    hide OnlineRule;
    var past, m := SeriesOf(rows[..i], rows[i].Key()), rows[i];
    var groups: map<string, seq<NodeMetric>>, nodes: seq<string> :|
      Detector.Evaluation(DEFAULTS, online, signals, groups, nodes);
    DetectorProperties.OfNodeAll(online, m.nodeId);
    hide Detector.OfNode;
    SignalOnline(past, m, online, signals, groups, nodes);
    RuleSilent(past, m, online, signals, groups, nodes);
  }

  lemma RuleSilent(past: seq<Metric>, m: Metric, online: seq<NodeMetric>, signals: map<string, Signal>,
                   groups: map<string, seq<NodeMetric>>, nodes: seq<string>)
    requires SameSeries(past, m, online)
    requires Detector.Evaluation(DEFAULTS, online, signals, groups, nodes)
    requires m.nodeId in groups && groups[m.nodeId] != []
    ensures !OnlineRule(groups, nodes, m.nodeId)
  {
    hide SameRow;
    hide Median;
    hide Detector.IsHistoryOf;
    hide Detector.SignalMap;
    hide Detector.RuleFires;
    forall n | n in groups ensures n == m.nodeId {
      var x :| x in online && x.nodeId == n;
    }
    assert groups.Keys == {m.nodeId};
    SingleListing(nodes, m.nodeId);
    var latest := Newest(groups[m.nodeId]);
    assert MapSeq(nodes, Detector.LatestP95(groups)) == [latest.p95Ms];
    RuleSilentAlone(latest);
  }

  // ---------------------------------------------------------------- the premise of that agreement

  /** Rows sorted by window end with distinct ends per series, as the evaluator loads them. */
  ghost predicate Loaded(rows: seq<Metric>) {
    forall i, j :: 0 <= i < j < |rows| ==>
      rows[i].windowEnd <= rows[j].windowEnd
      && (rows[i].Key() == rows[j].Key() ==> rows[i].windowEnd < rows[j].windowEnd)
  }

  function Online(m: Metric): NodeMetric {
    NodeMetric(m.windowStart, m.windowEnd, Scope(m.location, m.networkId), m.nodeId, m.requests, m.errorRate,
               m.cacheHitRatio, 0.0, 0.0, m.p95Ms, 0.0, 0.0, true)
  }

  /** The rows of one scope, all nodes. */
  function ScopeOf(rows: seq<Metric>, location: string, networkId: string): seq<Metric>
    decreases |rows|
  {
    if rows == [] then []
    else
      var last := rows[|rows| - 1];
      ScopeOf(rows[..|rows| - 1], location, networkId)
      + (if last.location == location && last.networkId == networkId then [last] else [])
  }

  /** The online history of the scope of row i, up to that row. */
  function ScopeHistory(rows: seq<Metric>, i: nat): seq<NodeMetric>
    requires i < |rows|
  {
    MapSeq(ScopeOf(rows[..i + 1], rows[i].location, rows[i].networkId), Online)
  }

  lemma {:induction false} ScopeSeries(rows: seq<Metric>, key: SeriesKey)
    ensures Detector.OfNode(MapSeq(ScopeOf(rows, key.location, key.networkId), Online), key.nodeId)
            == MapSeq(SeriesOf(rows, key), Online)
    decreases |rows|
  {
    if rows != [] {
      var last := |rows| - 1;
      ScopeSeries(rows[..last], key);
      var before := MapSeq(ScopeOf(rows[..last], key.location, key.networkId), Online);
      assert (before + [Online(rows[last])])[..|before|] == before;
      MapSnoc(ScopeOf(rows[..last], key.location, key.networkId), rows[last]);
      MapSnoc(SeriesOf(rows[..last], key), rows[last]);
    }
  }

  lemma MapSnoc(s: seq<Metric>, m: Metric)
    ensures MapSeq(s + [m], Online) == MapSeq(s, Online) + [Online(m)]
    ensures s + [] == s
  {
  }

  lemma {:induction false} SeriesOrdered(rows: seq<Metric>, key: SeriesKey)
    requires Loaded(rows)
    ensures forall m :: m in SeriesOf(rows, key) ==> m in rows && m.Key() == key
    ensures forall i, j :: 0 <= i < j < |SeriesOf(rows, key)| ==>
              SeriesOf(rows, key)[i].windowEnd < SeriesOf(rows, key)[j].windowEnd
    decreases |rows|
  {
    if rows != [] {
      var last := |rows| - 1;
      var before, m := SeriesOf(rows[..last], key), rows[last];
      SeriesOrdered(rows[..last], key);
      forall x | x in before ensures m.Key() == key ==> x.windowEnd < m.windowEnd {
        var i :| 0 <= i < last && rows[..last][i] == x;
        assert rows[i] == x;
      }
      assert forall i :: 0 <= i < |before| ==> before[i] in before;
    }
  }

  /** The scope's whole history up to a loaded row, other nodes included, satisfies the premise. */
  lemma LoadedRowsQualify(rows: seq<Metric>, i: nat)
    requires Loaded(rows) && i < |rows|
    ensures SameSeries(SeriesOf(rows[..i], rows[i].Key()), rows[i],
                       Detector.OfNode(ScopeHistory(rows, i), rows[i].nodeId))
  {
    hide SeriesOf;
    hide ScopeOf;
    hide SameSeries;
    hide Detector.OfNode;
    var past, m := SeriesOf(rows[..i], rows[i].Key()), rows[i];
    SeriesOrdered(rows[..i + 1], m.Key());
    ScopeSeries(rows[..i + 1], m.Key());
    SeriesSnoc(rows, i, m.Key());
    OrderedQualifies(past, m);
  }

  lemma OrderedQualifies(past: seq<Metric>, m: Metric)
    requires forall x :: x in past + [m] ==> x.Key() == m.Key()
    requires forall i, j :: 0 <= i < j < |past + [m]| ==> (past + [m])[i].windowEnd < (past + [m])[j].windowEnd
    ensures SameSeries(past, m, MapSeq(past + [m], Online))
  {
    var all := past + [m];
    assert forall k :: 0 <= k < |all| ==> all[k] in all;
    assert forall k :: 0 <= k < |past| ==> past[k] == all[k];
    assert all[|past|] == m;
  }

  // ---------------------------------------------------------------- the rule against the online rule

  /** The newest online sample of the row's node is the row. */
  ghost predicate NewestIs(online: seq<NodeMetric>, m: Metric) {
    && (exists o :: o in online && SameRow(m, o))
    && (forall o :: o in online && o.nodeId == m.nodeId ==> o.windowEnd < m.windowEnd || SameRow(m, o))
  }

  /** The peers, one row per node, are the newest online samples of their nodes, and there are no other nodes. */
  ghost predicate SameMinute(peers: seq<Metric>, online: seq<NodeMetric>) {
    && (forall i, j :: 0 <= i < j < |peers| ==> peers[i].nodeId != peers[j].nodeId)
    && (forall i :: 0 <= i < |peers| ==> NewestIs(online, peers[i]))
    && (forall o :: o in online ==> o.nodeId in MapSeq(peers, NodeOf))
  }

  function NodeOf(m: Metric): string { m.nodeId }

  lemma NewestSample(online: seq<NodeMetric>, m: Metric, slice: seq<NodeMetric>)
    requires NewestIs(online, m) && Detector.IsHistoryOf(online, m.nodeId, slice)
    ensures slice != [] && SameRow(m, slice[|slice| - 1])
  {
    DetectorProperties.OfNodeMembers(online, m.nodeId);
    SameMembers(slice, Detector.OfNode(online, m.nodeId));
    var o :| o in online && SameRow(m, o);
    assert o in slice;
    var k :| 0 <= k < |slice| && slice[k] == o;
    assert slice[|slice| - 1] in slice;
    assert k < |slice| - 1 ==> slice[k].windowEnd <= slice[|slice| - 1].windowEnd;
  }

  lemma PeerSlice(peers: seq<Metric>, online: seq<NodeMetric>, groups: map<string, seq<NodeMetric>>, i: nat)
    requires SameMinute(peers, online) && Detector.Grouped(online, groups) && i < |peers|
    ensures peers[i].nodeId in groups
    ensures var slice := groups[peers[i].nodeId]; slice != [] && SameRow(peers[i], slice[|slice| - 1])
  {
    hide Detector.IsHistoryOf;
    assert NewestIs(online, peers[i]);
    var o :| o in online && SameRow(peers[i], o);
    NewestSample(online, peers[i], groups[peers[i].nodeId]);
  }

  lemma PeersList(peers: seq<Metric>, online: seq<NodeMetric>, groups: map<string, seq<NodeMetric>>)
    requires SameMinute(peers, online) && Detector.Grouped(online, groups)
    ensures Lists(MapSeq(peers, NodeOf), groups.Keys)
  {
    hide Detector.IsHistoryOf;
    hide NewestIs;
    var ids := MapSeq(peers, NodeOf);
    forall i | 0 <= i < |peers| ensures ids[i] in groups { PeerSlice(peers, online, groups, i); }
    forall n | n in groups ensures n in ids {
      var o :| o in online && o.nodeId == n;
    }
  }

  /** The online location baseline of that minute is the median over the peers. */
  lemma PeerBaseline(peers: seq<Metric>, online: seq<NodeMetric>, groups: map<string, seq<NodeMetric>>,
                     nodes: seq<string>)
    requires SameMinute(peers, online) && Detector.Grouped(online, groups) && Lists(nodes, groups.Keys)
    ensures Detector.LocationBaseline(groups, nodes) == Median(MapSeq(peers, RowP95))
  {
    hide Median;
    hide SameMinute;
    hide Detector.Grouped;
    var ids, latest := MapSeq(peers, NodeOf), Detector.LatestP95(groups);
    PeersList(peers, online, groups);
    ListingsPermute(nodes, ids, groups.Keys);
    MapPermutation(nodes, ids, latest);
    forall i | 0 <= i < |peers| ensures MapSeq(ids, latest)[i] == RowP95(peers[i]) {
      PeerSlice(peers, online, groups, i);
    }
    assert MapSeq(ids, latest) == MapSeq(peers, RowP95);
    MedianPermutation(MapSeq(nodes, latest), MapSeq(ids, latest));
  }

  lemma {:induction false} PeersContain(rows: seq<Metric>, i: nat)
    requires i < |rows|
    ensures rows[i] in PeersOf(rows, rows[i].Peers())
    decreases |rows|
  {
    if i < |rows| - 1 { PeersContain(rows[..|rows| - 1], i); }
  }

  /** The evaluator's rule over a minute's peers and the online detector, run when that minute is the newest of all
      nodes, flag the same rows. */
  lemma RuleAgreesWithDetector(rows: seq<Metric>, i: nat, online: seq<NodeMetric>, signals: map<string, Signal>)
    requires i < |rows|
    requires SameMinute(PeersOf(rows, rows[i].Peers()), online)
    requires Detector.IsEvaluation(DEFAULTS, online, signals)
    ensures rows[i].nodeId in signals
    ensures Detector.RULE in signals[rows[i].nodeId].reasonCodes <==> Verdict(rows, Rule, i).detected
  {
    hide Median;
    hide SameMinute;
    hide PeersOf;
    hide OnlineTests;
    hide Detector.Evaluation;
    var groups: map<string, seq<NodeMetric>>, nodes: seq<string> :|
      Detector.Evaluation(DEFAULTS, online, signals, groups, nodes);
    var peers := PeersOf(rows, rows[i].Peers());
    PeersContain(rows, i);
    var k :| 0 <= k < |peers| && peers[k] == rows[i];
    PeersOnline(peers, online, signals, groups, nodes, k);
    OnlineCodes(online, signals, groups, nodes, rows[i].nodeId);
    TestsAreNotTheRule(groups[rows[i].nodeId]);
  }

  lemma PeersOnline(peers: seq<Metric>, online: seq<NodeMetric>, signals: map<string, Signal>,
                    groups: map<string, seq<NodeMetric>>, nodes: seq<string>, k: nat)
    requires SameMinute(peers, online) && k < |peers|
    requires Detector.Evaluation(DEFAULTS, online, signals, groups, nodes)
    ensures Detector.LocationBaseline(groups, nodes) == Median(MapSeq(peers, RowP95))
    ensures peers[k].nodeId in groups && groups[peers[k].nodeId] != []
    ensures SameRow(peers[k], Newest(groups[peers[k].nodeId]))
  {
    hide Median;
    hide SameMinute;
    hide SameRow;
    hide Detector.Grouped;
    hide Detector.SignalMap;
    hide Detector.LocationBaseline;
    PeerBaseline(peers, online, groups, nodes);
    PeerSlice(peers, online, groups, k);
  }

  lemma TestsAreNotTheRule(slice: seq<NodeMetric>)
    requires slice != []
    ensures Detector.RULE !in OnlineTests(slice)
  {
    hide Detector.LatencyFires;
    hide Detector.ErrorFires;
    hide Detector.MissFires;
    Detector.CodesDistinct();
  }
}
