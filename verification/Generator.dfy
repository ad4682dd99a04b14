/** The synthetic workload generator: fault effects and labels, the records of one request, and a whole run.

Random draws, hashes and number formatting are inputs (`Draws`): every statement holds for all of them. */
module Generator {
  import opened Domain
  import opened Ordering
  import opened RealArithmetic
  import opened DeliveryEvents

  datatype ScenarioItem = ScenarioItem(
    at: Duration,
    kind: string,
    target: string,
    network: string,
    duration: Duration,
    addedLatencyMs: real,
    errorRate: real,
    missRate: real,
    targetCapacityRps: int)

  datatype LocationConfig = LocationConfig(name: string, networks: seq<string>)
  datatype NodeConfig = NodeConfig(id: string, baseTtfbMs: real, capacityRps: int)

  datatype Config = Config(
    start: Instant,
    duration: Duration,
    ratePerSecond: int,
    outOfOrderMax: Duration,
    duplicateRate: real,
    schemaErrorRate: real,
    deliveryBuckets: int,
    deliveryTopic: string,
    locations: seq<LocationConfig>,
    nodes: seq<NodeConfig>,
    contentCount: int,
    scenarios: seq<ScenarioItem>)

  const SECOND := 1_000_000_000

  const LATENCY_SPIKE := "node_latency_spike"
  const ERROR_SPIKE := "node_5xx_spike"
  const ISP_DEGRADATION := "isp_node_degradation"
  const POPULARITY_SHIFT := "popularity_shift"
  const CAPACITY_PRESSURE := "capacity_pressure"

  const SCENARIO_KINDS := {LATENCY_SPIKE, ERROR_SPIKE, ISP_DEGRADATION, POPULARITY_SHIFT, CAPACITY_PRESSURE}

  const DELIVERY_TOPIC := "cdn.delivery.v1"
  const ROUTING_TOPIC := "cdn.routing.v1"
  const PLAYER_TOPIC := "cdn.player.v1"

  function TopicName(cfg: Config): string { if cfg.deliveryTopic == "" then DELIVERY_TOPIC else cfg.deliveryTopic }

  predicate ValidRate(v: real) { 0.0 <= v <= 1.0 }

  predicate ValidItem(cfg: Config, item: ScenarioItem) {
    && item.kind in SCENARIO_KINDS
    && item.duration > 0 && item.at >= 0
    && item.at + item.duration <= cfg.duration
    && ValidRate(item.errorRate) && ValidRate(item.missRate)
  }

  /** Config.Validate, for a start time that parses. */
  predicate ValidConfig(cfg: Config) {
    && cfg.duration > 0 && cfg.ratePerSecond > 0
    && 0 <= cfg.outOfOrderMax <= 30 * SECOND
    && ValidRate(cfg.duplicateRate) && ValidRate(cfg.schemaErrorRate)
    && 0 <= cfg.deliveryBuckets <= 1024
    && cfg.locations != [] && cfg.nodes != [] && cfg.contentCount >= 2
    && (forall l :: l in cfg.locations ==> l.name != "" && l.networks != [])
    && (forall n :: n in cfg.nodes ==> n.id != "" && n.baseTtfbMs >= 0.0 && n.capacityRps > 0)
    && (forall item :: item in cfg.scenarios ==> ValidItem(cfg, item))
  }

  // ---------------------------------------------------------------- effects and labels

  predicate Active(item: ScenarioItem, elapsed: Duration) { item.at <= elapsed < item.at + item.duration }

  predicate Hits(item: ScenarioItem, node: string, network: string) {
    if item.kind == LATENCY_SPIKE || item.kind == ERROR_SPIKE || item.kind == CAPACITY_PRESSURE then item.target == node
    else if item.kind == ISP_DEGRADATION then item.target == node && item.network == network
    else item.kind == POPULARITY_SHIFT
  }

  predicate Applies(item: ScenarioItem, elapsed: Duration, node: string, network: string) {
    Active(item, elapsed) && Hits(item, node, network)
  }

  function Applicable(items: seq<ScenarioItem>, elapsed: Duration, node: string, network: string): seq<ScenarioItem>
    decreases |items|
  {
    if items == [] then []
    else
      var last := items[|items| - 1];
      Applicable(items[..|items| - 1], elapsed, node, network)
      + (if Applies(last, elapsed, node, network) then [last] else [])
  }

  function AddedLatency(item: ScenarioItem): real {
    if item.kind == LATENCY_SPIKE || item.kind == ISP_DEGRADATION then item.addedLatencyMs
    else if item.kind == CAPACITY_PRESSURE then Max(item.addedLatencyMs, 60.0)
    else 0.0
  }

  function FaultErrorRate(item: ScenarioItem): real {
    if item.kind == ERROR_SPIKE || item.kind == ISP_DEGRADATION || item.kind == CAPACITY_PRESSURE then item.errorRate
    else 0.0
  }

  function FaultMissRate(item: ScenarioItem): real { if item.kind == POPULARITY_SHIFT then item.missRate else 0.0 }

  function KindOf(item: ScenarioItem): string { item.kind }

  /** Accumulated effects; `labels` in scenario order. */
  datatype Effects = Effects(
    labels: seq<string>,
    latencyDelta: real,
    errorRate: real,
    missRate: real,
    popularityShift: bool,
    pressureRps: int)

  const NO_EFFECTS := Effects([], 0.0, 0.0, 0.0, false, 0)

  function Combine(e: Effects, item: ScenarioItem): Effects {
    Effects(e.labels + [item.kind],
            e.latencyDelta + AddedLatency(item),
            Max(e.errorRate, FaultErrorRate(item)),
            Max(e.missRate, FaultMissRate(item)),
            e.popularityShift || item.kind == POPULARITY_SHIFT,
            if item.kind == CAPACITY_PRESSURE then item.targetCapacityRps else e.pressureRps)
  }

  function Total(items: seq<ScenarioItem>): Effects
    decreases |items|
  {
    if items == [] then NO_EFFECTS else Combine(Total(items[..|items| - 1]), items[|items| - 1])
  }

  function EffectsOf(items: seq<ScenarioItem>, elapsed: Duration, node: string, network: string): Effects {
    var total := Total(Applicable(items, elapsed, node, network));
    total.(labels := SortBy(total.labels, LexLe))
  }

  lemma ApplicableNext(items: seq<ScenarioItem>, i: nat, elapsed: Duration, node: string, network: string)
    requires i < |items|
    ensures var before := Applicable(items[..i], elapsed, node, network);
            Applicable(items[..i + 1], elapsed, node, network) ==
            if Applies(items[i], elapsed, node, network) then before + [items[i]] else before
  {
    assert items[..i + 1][..i] == items[..i];
  }

  lemma TotalNext(items: seq<ScenarioItem>, item: ScenarioItem)
    ensures Total(items + [item]) == Combine(Total(items), item)
  {
    assert (items + [item])[..|items|] == items;
  }

  /** Generator.effects.  Rates are compared with `>`; on the non-negative rates of a valid configuration a branch that
      leaves a value alone equals taking the maximum with zero. */
  method ComputeEffects(items: seq<ScenarioItem>, elapsed: Duration, node: string, network: string)
    returns (effects: Effects)
    ensures effects == EffectsOf(items, elapsed, node, network)
  {
    hide Applicable;
    hide Total;
    KindsDistinct();
    var labels: seq<string>, latencyDelta, errorRate, missRate := [], 0.0, 0.0, 0.0;
    var popularityShift, pressureRps := false, 0;
    NothingApplies(elapsed, node, network);
    for i := 0 to |items|
      invariant Total(Applicable(items[..i], elapsed, node, network))
                == Effects(labels, latencyDelta, errorRate, missRate, popularityShift, pressureRps)
      invariant errorRate >= 0.0 && missRate >= 0.0
    {
      var item := items[i];
      ApplicableNext(items, i, elapsed, node, network);
      TotalNext(Applicable(items[..i], elapsed, node, network), item);
      if elapsed < item.at || elapsed >= item.at + item.duration { continue; }
      var applies := false;
      if item.kind == LATENCY_SPIKE {
        applies := item.target == node;
        if applies { latencyDelta := latencyDelta + item.addedLatencyMs; }
      } else if item.kind == ERROR_SPIKE {
        applies := item.target == node;
        if applies { errorRate := Max(errorRate, item.errorRate); }
      } else if item.kind == ISP_DEGRADATION {
        applies := item.target == node && item.network == network;
        if applies {
          latencyDelta := latencyDelta + item.addedLatencyMs;
          errorRate := Max(errorRate, item.errorRate);
        }
      } else if item.kind == POPULARITY_SHIFT {
        applies := true;
        popularityShift := true;
        missRate := Max(missRate, item.missRate);
      } else if item.kind == CAPACITY_PRESSURE {
        applies := item.target == node;
        if applies {
          latencyDelta := latencyDelta + Max(item.addedLatencyMs, 60.0);
          errorRate := Max(errorRate, item.errorRate);
          pressureRps := item.targetCapacityRps;
        }
      }
      if applies { labels := labels + [item.kind]; }
    }
    assert items[..|items|] == items;
    effects := Effects(SortBy(labels, LexLe), latencyDelta, errorRate, missRate, popularityShift, pressureRps);
  }

  lemma NothingApplies(elapsed: Duration, node: string, network: string)
    ensures Total(Applicable([], elapsed, node, network)) == NO_EFFECTS
  {
  }

  lemma KindsDistinct()
    ensures LATENCY_SPIKE != ERROR_SPIKE && LATENCY_SPIKE != ISP_DEGRADATION && LATENCY_SPIKE != POPULARITY_SHIFT
    ensures LATENCY_SPIKE != CAPACITY_PRESSURE && ERROR_SPIKE != ISP_DEGRADATION && ERROR_SPIKE != POPULARITY_SHIFT
    ensures ERROR_SPIKE != CAPACITY_PRESSURE && ISP_DEGRADATION != POPULARITY_SHIFT
    ensures ISP_DEGRADATION != CAPACITY_PRESSURE && POPULARITY_SHIFT != CAPACITY_PRESSURE
  {
    assert LATENCY_SPIKE[6] == 'a' && ERROR_SPIKE[5] == '5' && LATENCY_SPIKE[5] == 'l' && ISP_DEGRADATION[0] == 'i';
    assert POPULARITY_SHIFT[0] == 'p' && CAPACITY_PRESSURE[0] == 'c';
    assert LATENCY_SPIKE[0] == 'n' && ERROR_SPIKE[0] == 'n';
  }

  lemma {:induction false} TotalLabels(items: seq<ScenarioItem>)
    ensures Total(items).labels == MapSeq(items, KindOf)
    decreases |items|
  {
    if items != [] { TotalLabels(items[..|items| - 1]); }
  }

  lemma {:induction false} ApplicableMembers(items: seq<ScenarioItem>, elapsed: Duration, node: string, network: string)
    ensures forall item :: item in Applicable(items, elapsed, node, network) <==>
              item in items && Applies(item, elapsed, node, network)
    decreases |items|
  {
    hide Applies;
    if items != [] {
      var last := |items| - 1;
      ApplicableMembers(items[..last], elapsed, node, network);
      assert items == items[..last] + [items[last]];
    }
  }

  /** An event carries a label exactly when some scenario of that kind is active and hits its node and network; the
      labels come out sorted. */
  lemma LabelsLaw(items: seq<ScenarioItem>, elapsed: Duration, node: string, network: string)
    ensures var labels := EffectsOf(items, elapsed, node, network).labels;
            && (forall i, j :: 0 <= i < j < |labels| ==> LexLe(labels[i], labels[j]))
            && forall kind :: kind in labels <==>
                 exists item :: item in items && Applies(item, elapsed, node, network) && item.kind == kind
  {
    hide Applies;
    hide Applicable;
    hide Total;
    var hits := Applicable(items, elapsed, node, network);
    ApplicableMembers(items, elapsed, node, network);
    TotalLabels(hits);
    LexOrder();
    SortBySorted(MapSeq(hits, KindOf), LexLe);
    var labels := SortBy(MapSeq(hits, KindOf), LexLe);
    SameMembers(labels, MapSeq(hits, KindOf));
    forall kind ensures kind in labels <==>
                  exists item :: item in items && Applies(item, elapsed, node, network) && item.kind == kind
    {
      if kind in MapSeq(hits, KindOf) {
        var i :| 0 <= i < |hits| && MapSeq(hits, KindOf)[i] == kind;
        assert hits[i] in hits;
      }
      if item :| item in items && Applies(item, elapsed, node, network) && item.kind == kind {
        var i :| 0 <= i < |hits| && hits[i] == item;
        assert MapSeq(hits, KindOf)[i] == kind;
      }
    }
  }

  // ---------------------------------------------------------------- the effects by scenario kind and field

  predicate During(item: ScenarioItem, elapsed: Duration) { item.at <= elapsed && elapsed - item.at < item.duration }

  /** The scenario is under way and makes responses of the node on the network fail. */
  predicate RaisesErrors(item: ScenarioItem, elapsed: Duration, node: string, network: string) {
    && During(item, elapsed) && item.target == node
    && (item.kind == "node_5xx_spike" || item.kind == "capacity_pressure"
        || (item.kind == "isp_node_degradation" && item.network == network))
  }

  predicate RaisesMisses(item: ScenarioItem, elapsed: Duration) {
    During(item, elapsed) && item.kind == "popularity_shift"
  }

  predicate RaisesPressure(item: ScenarioItem, elapsed: Duration, node: string) {
    During(item, elapsed) && item.kind == "capacity_pressure" && item.target == node
  }

  /** What the scenario adds to a response of the node on the network. */
  function Delay(elapsed: Duration, node: string, network: string): ScenarioItem -> real {
    (item: ScenarioItem) =>
      if !During(item, elapsed) || item.target != node then 0.0
      else if item.kind == "node_latency_spike" then item.addedLatencyMs
      else if item.kind == "isp_node_degradation" then (if item.network == network then item.addedLatencyMs else 0.0)
      else if item.kind == "capacity_pressure" then (if item.addedLatencyMs > 60.0 then item.addedLatencyMs else 60.0)
      else 0.0
  }

  ghost predicate RatesAre(items: seq<ScenarioItem>, elapsed: Duration, node: string, network: string, e: Effects) {
    && e.errorRate >= 0.0 && e.missRate >= 0.0
    && (forall item :: item in items && RaisesErrors(item, elapsed, node, network) ==> item.errorRate <= e.errorRate)
    && (e.errorRate == 0.0
        || exists item :: item in items && RaisesErrors(item, elapsed, node, network) && item.errorRate == e.errorRate)
    && (forall item :: item in items && RaisesMisses(item, elapsed) ==> item.missRate <= e.missRate)
    && (e.missRate == 0.0 || exists item :: item in items && RaisesMisses(item, elapsed) && item.missRate == e.missRate)
    && (e.popularityShift <==> exists item :: item in items && RaisesMisses(item, elapsed))
  }

  /** Pressure is that of the last scenario that exerts any. */
  ghost predicate PressureIs(items: seq<ScenarioItem>, elapsed: Duration, node: string, pressureRps: int) {
    && ((forall i :: 0 <= i < |items| ==> !RaisesPressure(items[i], elapsed, node)) ==> pressureRps == 0)
    && forall i :: 0 <= i < |items| && RaisesPressure(items[i], elapsed, node)
                   && (forall j :: i < j < |items| ==> !RaisesPressure(items[j], elapsed, node)) ==>
         pressureRps == items[i].targetCapacityRps
  }

  function EffectsSoFar(items: seq<ScenarioItem>, elapsed: Duration, node: string, network: string): Effects {
    Total(Applicable(items, elapsed, node, network))
  }

  /** One more scenario changes the effects only if it applies. */
  lemma EffectsNext(items: seq<ScenarioItem>, elapsed: Duration, node: string, network: string)
    requires items != []
    ensures var last := |items| - 1;
            var before := EffectsSoFar(items[..last], elapsed, node, network);
            EffectsSoFar(items, elapsed, node, network) ==
            if Applies(items[last], elapsed, node, network) then Combine(before, items[last]) else before
  {
    hide Applies;
    hide Combine;
    var last := |items| - 1;
    TotalNext(Applicable(items[..last], elapsed, node, network), items[last]);
    assert Applicable(items[..last], elapsed, node, network) + [] == Applicable(items[..last], elapsed, node, network);
  }

  lemma {:induction false} RatesSoFar(items: seq<ScenarioItem>, elapsed: Duration, node: string, network: string)
    ensures RatesAre(items, elapsed, node, network, EffectsSoFar(items, elapsed, node, network))
    decreases |items|
  {
    hide EffectsSoFar;
    if items == [] {
      NoEffects(elapsed, node, network);
    } else {
      hide RatesAre;
      var last := |items| - 1;
      RatesSoFar(items[..last], elapsed, node, network);
      EffectsNext(items, elapsed, node, network);
      RatesNext(items, elapsed, node, network, EffectsSoFar(items[..last], elapsed, node, network));
    }
  }

  lemma RatesNext(items: seq<ScenarioItem>, elapsed: Duration, node: string, network: string, before: Effects)
    requires items != [] && RatesAre(items[..|items| - 1], elapsed, node, network, before)
    ensures var item := items[|items| - 1];
            RatesAre(items, elapsed, node, network,
                     if Applies(item, elapsed, node, network) then Combine(before, item) else before)
  {
    var last := |items| - 1;
    var item := items[last];
    var after := if Applies(item, elapsed, node, network) then Combine(before, item) else before;
    KindsDistinct();
    assert RaisesErrors(item, elapsed, node, network) ==> after.errorRate == Max(before.errorRate, item.errorRate);
    assert !RaisesErrors(item, elapsed, node, network) ==> after.errorRate == before.errorRate;
    assert RaisesMisses(item, elapsed) ==>
      after.missRate == Max(before.missRate, item.missRate) && after.popularityShift;
    assert !RaisesMisses(item, elapsed) ==>
        after.missRate == before.missRate && after.popularityShift == before.popularityShift;
    hide RaisesErrors;
    hide RaisesMisses;
    hide Applies;
    hide Combine;
    assert items == items[..last] + [item];
    assert forall x :: x in items <==> x in items[..last] || x == item;
  }

  lemma NoEffects(elapsed: Duration, node: string, network: string)
    ensures EffectsSoFar([], elapsed, node, network) == NO_EFFECTS
  {
  }

  lemma {:induction false} DelaySoFar(items: seq<ScenarioItem>, elapsed: Duration, node: string, network: string)
    ensures EffectsSoFar(items, elapsed, node, network).latencyDelta == RealSum(items, Delay(elapsed, node, network))
    decreases |items|
  {
    hide EffectsSoFar;
    NoEffects(elapsed, node, network);
    if items != [] {
      var last := |items| - 1;
      DelaySoFar(items[..last], elapsed, node, network);
      EffectsNext(items, elapsed, node, network);
      assert items == items[..last] + [items[last]];
      RealSumConcat(items[..last], [items[last]], Delay(elapsed, node, network));
      KindsDistinct();
    }
  }

  lemma {:induction false} PressureSoFar(items: seq<ScenarioItem>, elapsed: Duration, node: string, network: string)
    ensures PressureIs(items, elapsed, node, EffectsSoFar(items, elapsed, node, network).pressureRps)
    decreases |items|
  {
    hide EffectsSoFar;
    NoEffects(elapsed, node, network);
    if items != [] {
      var last := |items| - 1;
      PressureSoFar(items[..last], elapsed, node, network);
      EffectsNext(items, elapsed, node, network);
      KindsDistinct();
      assert RaisesPressure(items[last], elapsed, node) <==>
             Applies(items[last], elapsed, node, network) && items[last].kind == CAPACITY_PRESSURE;
      hide RaisesPressure;
      hide Applies;
      assert forall i :: 0 <= i < last ==> items[..last][i] == items[i];
    }
  }

  /** The effects on a response, by kind and field of the scenarios: the error and the miss rate are the largest of those
      under way (zero without any), content is shifted exactly during a popularity shift, delays add up, and pressure is
      that of the last one. */
  lemma RatesLaw(items: seq<ScenarioItem>, elapsed: Duration, node: string, network: string)
    ensures var e := EffectsOf(items, elapsed, node, network);
            && RatesAre(items, elapsed, node, network, e)
            && e.latencyDelta == RealSum(items, Delay(elapsed, node, network))
            && PressureIs(items, elapsed, node, e.pressureRps)
  {
    hide PressureIs;
    hide Delay;
    hide RealSum;
    hide SortBy;
    hide Total;
    hide Applicable;
    hide RaisesErrors;
    hide RaisesMisses;
    RatesSoFar(items, elapsed, node, network);
    DelaySoFar(items, elapsed, node, network);
    PressureSoFar(items, elapsed, node, network);
  }

  // ---------------------------------------------------------------- the records of one request

  /** What a delivery or another record carries. */
  datatype Payload = Delivery(event: DeliveryEvent) | RoutingDecision | PlayerReport

  datatype Record = Record(topic: string, key: string, payload: Payload, duplicate: bool, schemaInvalid: bool)

  /** The random numbers and texts of one request. */
  datatype Draws = Draws(
    jitter: Duration,
    location: nat,
    network: nat,
    hash: string,
    rank: string,
    miss: real,
    error: real,
    ttfbNoise: real,
    originNoise: real,
    bytes: nat,
    transferNoise: real,
    schema: real,
    duplicate: real,
    bucket: string)

  predicate ValidDraws(cfg: Config, d: Draws) {
    && 0 <= d.jitter <= cfg.outOfOrderMax
    && d.location < |cfg.locations|
    && d.network < |cfg.locations[d.location].networks|
    && 0.0 <= d.miss < 1.0 && 0.0 <= d.error < 1.0 && 0.0 <= d.schema < 1.0 && 0.0 <= d.duplicate < 1.0
  }

  function Scheduled(cfg: Config, index: nat): Instant
    requires cfg.ratePerSecond > 0
  {
    cfg.start + index * (SECOND / cfg.ratePerSecond)
  }

  function NodeAt(cfg: Config, index: nat): NodeConfig
    requires cfg.nodes != []
  {
    cfg.nodes[index % |cfg.nodes|]
  }

  function NetworkAt(cfg: Config, d: Draws): string
    requires ValidDraws(cfg, d)
  {
    cfg.locations[d.location].networks[d.network]
  }

  /** The fault effects on a request. */
  function RequestEffects(cfg: Config, index: nat, d: Draws): Effects
    requires ValidConfig(cfg) && ValidDraws(cfg, d)
  {
    EffectsOf(cfg.scenarios, Scheduled(cfg, index) - d.jitter - cfg.start, NodeAt(cfg, index).id, NetworkAt(cfg, d))
  }

  predicate SchemaBroken(cfg: Config, d: Draws) { d.schema < cfg.schemaErrorRate }

  function DeliveryOf(cfg: Config, index: nat, d: Draws): DeliveryEvent
    requires ValidConfig(cfg) && ValidDraws(cfg, d)
  {
    var effects := RequestEffects(cfg, index, d);
    var node := NodeAt(cfg, index);
    var miss := d.miss < Max(0.08, effects.missRate);
    var origin := if miss then Max(1.0, 35.0 + d.originNoise * 5.0 + effects.latencyDelta * 0.4) else 0.0;
    var ttfb := Max(0.0, node.baseTtfbMs + d.ttfbNoise * 3.0 + effects.latencyDelta) + origin;
    DeliveryEvent(
      1,
      "delivery-" + d.hash,
      At(Scheduled(cfg, index) - d.jitter),
      At(Scheduled(cfg, index)),
      "request-" + d.hash,
      "content-" + d.rank,
      node.id,
      cfg.locations[d.location].name,
      NetworkAt(cfg, d),
      if SchemaBroken(cfg, d) then "HOT" else if miss then "MISS" else "HIT",
      if d.error < Max(0.002, effects.errorRate) then 503 else 200,
      180000 + d.bytes,
      Round3(ttfb),
      Round3(Max(1.0, 30.0 + d.transferNoise * 5.0)),
      Round3(origin))
  }

  /** A generated delivery by the schedule and the effects on it: its place and node, its network, the chances of a miss
      and of a failure. */
  lemma DeliveryLaw(cfg: Config, index: nat, d: Draws)
    requires ValidConfig(cfg) && ValidDraws(cfg, d)
    ensures var e, effects := DeliveryOf(cfg, index, d), RequestEffects(cfg, index, d);
            && e.ingestTime == At(cfg.start + index * (1_000_000_000 / cfg.ratePerSecond))
            && e.eventTime == At(cfg.start + index * (1_000_000_000 / cfg.ratePerSecond) - d.jitter)
            && e.nodeId == cfg.nodes[index % |cfg.nodes|].id
            && e.location == cfg.locations[d.location].name
            && e.networkId == cfg.locations[d.location].networks[d.network]
            && (e.httpStatus == if d.error < effects.errorRate || d.error < 0.002 then 503 else 200)
            && (d.schema >= cfg.schemaErrorRate ==>
                  e.cacheStatus == if d.miss < effects.missRate || d.miss < 0.08 then "MISS" else "HIT")
            && 180_000 <= e.bytesSent
  {
    hide EffectsOf;
    hide ValidItem;
    hide Round3;
  }

  /** `reported` is the value or the least allowed one, whichever is larger, to the nearest thousandth. */
  predicate Reports(reported: real, value: real, least: real) {
    var exact := if value > least then value else least;
    exact - 0.0005 <= reported <= exact + 0.0005
  }

  /** The latencies of a generated delivery by its draws and the added latency: a request reaches the origin only on a
      miss and then waits for it before its first byte. */
  lemma LatencyLaw(cfg: Config, index: nat, d: Draws)
    requires ValidConfig(cfg) && ValidDraws(cfg, d)
    ensures var e, effects := DeliveryOf(cfg, index, d), RequestEffects(cfg, index, d);
            var node, fetch := cfg.nodes[index % |cfg.nodes|], 35.0 + 5.0 * d.originNoise + 0.4 * effects.latencyDelta;
            var miss := d.miss < effects.missRate || d.miss < 0.08;
            var origin := if !miss then 0.0 else if fetch > 1.0 then fetch else 1.0;
            && Reports(e.originMs, origin, 0.0) && (!miss ==> e.originMs == 0.0) && (miss ==> e.originMs >= 1.0)
            && Reports(e.ttfbMs - origin, node.baseTtfbMs + 3.0 * d.ttfbNoise + effects.latencyDelta, 0.0)
            && Reports(e.transferMs, 30.0 + 5.0 * d.transferNoise, 1.0)
            && e.originMs <= e.ttfbMs && e.transferMs >= 1.0
  {
    hide EffectsOf;
    hide ValidItem;
    hide Round3;
    RoundedThousandths();
    var effects := RequestEffects(cfg, index, d);
    var miss := d.miss < Max(0.08, effects.missRate);
    var origin := if miss then Max(1.0, 35.0 + d.originNoise * 5.0 + effects.latencyDelta * 0.4) else 0.0;
    var node := NodeAt(cfg, index);
    var ttfb := Max(0.0, node.baseTtfbMs + d.ttfbNoise * 3.0 + effects.latencyDelta) + origin;
    var transfer := Max(1.0, 30.0 + d.transferNoise * 5.0);
    RoundingError(origin);
    RoundingError(ttfb);
    RoundingError(transfer);
    Round3Monotone(origin, ttfb);
    Round3Monotone(1.0, transfer);
    if miss { Round3Monotone(1.0, origin); }
  }

  lemma RoundedThousandths()
    ensures Round3(0.0) == 0.0 && Round3(1.0) == 1.0
  {
    assert (0.0 * 1000.0 + 0.5).Floor == 0;
    assert (1.0 * 1000.0 + 0.5).Floor == 1000;
  }

  function DeliveryKey(cfg: Config, d: Draws): string
    requires ValidDraws(cfg, d)
  {
    cfg.locations[d.location].name + "|" + NetworkAt(cfg, d) + "|" + d.bucket
  }

  function DeliveryRecord(cfg: Config, index: nat, d: Draws, duplicate: bool): Record
    requires ValidConfig(cfg) && ValidDraws(cfg, d)
  {
    Record(TopicName(cfg), DeliveryKey(cfg, d), Delivery(DeliveryOf(cfg, index, d)), duplicate, SchemaBroken(cfg, d))
  }

  /** generateRequest: a routing decision, the delivery, a player report every fourth request, perhaps a duplicate. */
  function RequestRecords(cfg: Config, index: nat, d: Draws): seq<Record>
    requires ValidConfig(cfg) && ValidDraws(cfg, d)
  {
    [Record(ROUTING_TOPIC, "request-" + d.hash, RoutingDecision, false, false), DeliveryRecord(cfg, index, d, false)]
    + (if index % 4 == 0 then [Record(PLAYER_TOPIC, d.hash, PlayerReport, false, false)] else [])
    + (if d.duplicate < cfg.duplicateRate then [DeliveryRecord(cfg, index, d, true)] else [])
  }

  /** The records of one request: a routing decision, the delivery under a key of location, network and bucket, every
      fourth time a player report, and by chance an exact duplicate of the delivery. */
  lemma RecordsLaw(cfg: Config, index: nat, d: Draws)
    requires ValidConfig(cfg) && ValidDraws(cfg, d)
    ensures var rs, again := RequestRecords(cfg, index, d), d.duplicate < cfg.duplicateRate;
            && |rs| == 2 + (if index % 4 == 0 then 1 else 0) + (if again then 1 else 0)
            && rs[0].topic == "cdn.routing.v1" && rs[0].payload.RoutingDecision? && !rs[0].duplicate
            && rs[1].topic == (if cfg.deliveryTopic == "" then "cdn.delivery.v1" else cfg.deliveryTopic)
            && rs[1].key == cfg.locations[d.location].name + "|" + cfg.locations[d.location].networks[d.network] + "|"
                            + d.bucket
            && rs[1].payload == Delivery(DeliveryOf(cfg, index, d)) && !rs[1].duplicate
            && (rs[1].schemaInvalid <==> d.schema < cfg.schemaErrorRate)
            && (rs[1].schemaInvalid ==> DeliveryOf(cfg, index, d).cacheStatus == "HOT")
            && (index % 4 == 0 ==> rs[2].topic == "cdn.player.v1" && rs[2].payload.PlayerReport? && !rs[2].duplicate)
            && (again ==> rs[|rs| - 1] == rs[1].(duplicate := true))
  {
    hide EffectsOf;
    hide ValidItem;
    hide Round3;
  }

  ghost predicate NamesNotBlank(cfg: Config) {
    && (forall n :: n in cfg.nodes ==> !IsBlank(n.id))
    && forall l :: l in cfg.locations ==>
         !IsBlank(l.name) && forall network :: network in l.networks ==> !IsBlank(network)
  }

  lemma PrefixNotBlank(prefix: string, rest: string)
    requires prefix != "" && !IsSpace(prefix[0])
    ensures !IsBlank(prefix + rest)
  {
    assert (prefix + rest)[0] == prefix[0];
  }

  lemma Round3NonNegative(x: real)
    requires x >= 0.0
    ensures Round3(x) >= 0.0
  {
    Round3Monotone(0.0, x);
    assert (0.0 * 1000.0 + 0.5).Floor == 0;
  }

  lemma GeneratedWellFormed(cfg: Config, index: nat, d: Draws)
    requires ValidConfig(cfg) && ValidDraws(cfg, d) && NamesNotBlank(cfg)
    ensures WellFormed(DeliveryOf(cfg, index, d))
  {
    hide EffectsOf;
    hide IsBlank;
    hide Round3;
    hide ValidItem;
    PrefixNotBlank("delivery-", d.hash);
    PrefixNotBlank("request-", d.hash);
    PrefixNotBlank("content-", d.rank);
    assert NodeAt(cfg, index) in cfg.nodes;
    assert cfg.locations[d.location] in cfg.locations;
    assert NetworkAt(cfg, d) in cfg.locations[d.location].networks;
    var effects := RequestEffects(cfg, index, d);
    var miss := d.miss < Max(0.08, effects.missRate);
    var origin := if miss then Max(1.0, 35.0 + d.originNoise * 5.0 + effects.latencyDelta * 0.4) else 0.0;
    var first := Max(0.0, NodeAt(cfg, index).baseTtfbMs + d.ttfbNoise * 3.0 + effects.latencyDelta);
    Round3NonNegative(origin);
    Round3NonNegative(first + origin);
    Round3NonNegative(Max(1.0, 30.0 + d.transferNoise * 5.0));
  }

  lemma StatusKnown(status: string)
    requires status == "HOT" || status == "MISS" || status == "HIT"
    ensures status in CACHE_STATUSES <==> status != "HOT"
  {
    if status == "HOT" {
      assert status[2] == 'T' && status[1] == 'O';
      assert forall s :: s in CACHE_STATUSES ==> |s| != 3 || s[1] == 'I';
    }
  }

  /** With non-blank names the parser dead-letters exactly the records generated as schema-invalid, duplicates
      included. */
  lemma ParserMatchesGenerator(cfg: Config, index: nat, d: Draws, r: Record)
    requires ValidConfig(cfg) && ValidDraws(cfg, d) && NamesNotBlank(cfg)
    requires r in RequestRecords(cfg, index, d) && r.payload.Delivery?
    ensures DeadLetterCode(Readable(r.payload.event)).Some? <==> r.schemaInvalid
  {
    hide WellFormed;
    hide ValidConfig;
    hide ValidDraws;
    hide NamesNotBlank;
    hide Validate;
    hide RequestEffects;
    hide Round3;
    GeneratedWellFormed(cfg, index, d);
    var e := DeliveryOf(cfg, index, d);
    assert r.payload.event == e && r.schemaInvalid == SchemaBroken(cfg, d);
    ValidIff(e);
    StatusKnown(e.cacheStatus);
    assert |"HOT"| == 3 && "HOT"[1] == 'O' && "HIT"[1] == 'I' && |"MISS"| == 4;
  }
}
