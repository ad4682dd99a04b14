/** The evaluator's ground truth against the generator's labels: which node-minute rows count as actual faults. */
module GroundTruth {
  import opened Domain
  import opened Ordering
  import opened DeliveryEvents
  import opened RealArithmetic
  import opened Generator
  import opened GeneratorRun
  import Evaluator
  import Pipeline

  const NODE_FAULT_KINDS := {LATENCY_SPIKE, ERROR_SPIKE, ISP_DEGRADATION, CAPACITY_PRESSURE}

  /** load_faults on a manifest: node faults only, and an empty network means every network. */
  function FaultOf(window: LabelWindow): Evaluator.Fault {
    Evaluator.Fault(window.kind, window.start, window.end, window.target,
                    if window.network == "" then None else Some(window.network))
  }

  function FaultsIn(labels: seq<LabelWindow>): seq<Evaluator.Fault>
    decreases |labels|
  {
    if labels == [] then []
    else
      var last := labels[|labels| - 1];
      FaultsIn(labels[..|labels| - 1]) + (if last.kind in NODE_FAULT_KINDS then [FaultOf(last)] else [])
  }

  method LoadFaults(labels: seq<LabelWindow>) returns (faults: seq<Evaluator.Fault>)
    ensures faults == FaultsIn(labels)
  {
    faults := [];
    for i := 0 to |labels|
      invariant faults == FaultsIn(labels[..i])
    {
      assert labels[..i + 1][..i] == labels[..i];
      if labels[i].kind in NODE_FAULT_KINDS { faults := faults + [FaultOf(labels[i])]; }
    }
    assert labels[..|labels|] == labels;
  }

  /** The faults the evaluator reads from the manifest of a run. */
  function RunFaults(cfg: Config): seq<Evaluator.Fault> { FaultsIn(MapSeq(cfg.scenarios, LabelOf(cfg.start))) }

  /** The row of a node and network whose window contains the instant. */
  ghost predicate RowFor(row: Evaluator.Metric, node: string, network: string, t: Instant) {
    row.nodeId == node && row.networkId == network && row.windowStart <= t < row.windowEnd
  }

  lemma {:induction false} FaultsMembers(labels: seq<LabelWindow>)
    ensures forall f :: f in FaultsIn(labels) <==>
              exists i :: 0 <= i < |labels| && labels[i].kind in NODE_FAULT_KINDS && FaultOf(labels[i]) == f
    decreases |labels|
  {
    hide FaultOf;
    if labels != [] {
      var last := |labels| - 1;
      FaultsMembers(labels[..last]);
      forall f ensures f in FaultsIn(labels) <==>
                 exists i :: 0 <= i < |labels| && labels[i].kind in NODE_FAULT_KINDS && FaultOf(labels[i]) == f
      {
        if f in FaultsIn(labels[..last]) {
          var i :| 0 <= i < last && labels[..last][i].kind in NODE_FAULT_KINDS && FaultOf(labels[..last][i]) == f;
          assert FaultOf(labels[i]) == f;
        }
        if i :| 0 <= i < |labels| && labels[i].kind in NODE_FAULT_KINDS && FaultOf(labels[i]) == f {
          if i < last { assert FaultOf(labels[..last][i]) == f; }
        }
      }
    }
  }

  lemma RunFaultsMembers(cfg: Config, f: Evaluator.Fault)
    ensures f in RunFaults(cfg) <==>
            exists item :: item in cfg.scenarios && item.kind in NODE_FAULT_KINDS
                           && FaultOf(LabelOf(cfg.start)(item)) == f
  {
    hide FaultOf;
    hide FaultsIn;
    var labels := MapSeq(cfg.scenarios, LabelOf(cfg.start));
    FaultsMembers(labels);
    if i :| 0 <= i < |labels| && labels[i].kind in NODE_FAULT_KINDS && FaultOf(labels[i]) == f {
      assert cfg.scenarios[i] in cfg.scenarios;
    }
    if item :| item in cfg.scenarios && item.kind in NODE_FAULT_KINDS && FaultOf(LabelOf(cfg.start)(item)) == f {
      var i :| 0 <= i < |cfg.scenarios| && cfg.scenarios[i] == item;
      assert labels[i] == LabelOf(cfg.start)(item);
    }
  }

  /** A scenario that labels an event also matches the event's row exactly when it names no network or the event's. */
  lemma LabelMatchesRow(cfg: Config, item: ScenarioItem, elapsed: Duration, node: string, network: string,
                        row: Evaluator.Metric)
    requires item.kind in NODE_FAULT_KINDS && Applies(item, elapsed, node, network)
    requires RowFor(row, node, network, cfg.start + elapsed)
    ensures Evaluator.FaultMatches(row, FaultOf(LabelOf(cfg.start)(item))) <==>
            item.network == "" || item.network == network
    ensures item.kind == ISP_DEGRADATION ==> Evaluator.FaultMatches(row, FaultOf(LabelOf(cfg.start)(item)))
  {
    KindsDistinct();
  }

  /** The event carries the label of a node fault. */
  ghost predicate CarriesNodeFault(cfg: Config, elapsed: Duration, node: string, network: string) {
    exists kind :: kind in NODE_FAULT_KINDS && kind in EffectsOf(cfg.scenarios, elapsed, node, network).labels
  }

  /** The scenario behind a node-fault label. */
  lemma LabelSource(cfg: Config, elapsed: Duration, node: string, network: string) returns (item: ScenarioItem)
    requires CarriesNodeFault(cfg, elapsed, node, network)
    ensures item in cfg.scenarios && item.kind in NODE_FAULT_KINDS && Applies(item, elapsed, node, network)
  {
    hide EffectsOf;
    hide Applies;
    LabelsLaw(cfg.scenarios, elapsed, node, network);
    var kind :| kind in NODE_FAULT_KINDS && kind in EffectsOf(cfg.scenarios, elapsed, node, network).labels;
    item :| item in cfg.scenarios && Applies(item, elapsed, node, network) && item.kind == kind;
  }

  lemma FaultHolds(row: Evaluator.Metric, faults: seq<Evaluator.Fault>, f: Evaluator.Fault)
    requires f in faults && Evaluator.FaultMatches(row, f)
    ensures Evaluator.GroundTruth(row, faults)
  {
    var i :| 0 <= i < |faults| && faults[i] == f;
  }

  // ---------------------------------------------------------------- labelled events on any network, in any row

  /** A node fault on every network of `target` is active. */
  ghost predicate NodeWideFaultAt(cfg: Config, target: string, elapsed: Duration) {
    exists item :: item in cfg.scenarios && item.kind in NODE_FAULT_KINDS && item.network == "" && item.target == target
                   && Active(item, elapsed)
  }

  /** A node-wide fault that names a network all the same. */
  ghost predicate IsNamedFault(cfg: Config, item: ScenarioItem) {
    item in cfg.scenarios && item.kind in NODE_FAULT_KINDS && item.kind != ISP_DEGRADATION && item.network != ""
  }

  ghost predicate NodeFaultsAreNodeWide(cfg: Config) { forall item :: !IsNamedFault(cfg, item) }

  /** Whenever a node-wide fault that names a network is active, so is a node fault of the same target that names
      none. */
  ghost predicate NamedFaultsAreCovered(cfg: Config) {
    forall item, elapsed :: IsNamedFault(cfg, item) && Active(item, elapsed) ==>
      NodeWideFaultAt(cfg, item.target, elapsed)
  }

  /** An event with a node-fault label lies in the row. */
  ghost predicate LabelledIn(cfg: Config, elapsed: Duration, node: string, network: string, row: Evaluator.Metric) {
    CarriesNodeFault(cfg, elapsed, node, network) && RowFor(row, node, network, cfg.start + elapsed)
  }

  ghost predicate NoLabelledEventIsLost(cfg: Config) {
    forall elapsed, node, network, row :: LabelledIn(cfg, elapsed, node, network, row) ==>
      Evaluator.GroundTruth(row, RunFaults(cfg))
  }

  /** A row counts as an actual fault exactly when a node fault of its node, on its network or on all, overlaps it. */
  lemma CountedIff(cfg: Config, row: Evaluator.Metric)
    ensures Evaluator.GroundTruth(row, RunFaults(cfg)) <==>
            exists item :: item in cfg.scenarios && item.kind in NODE_FAULT_KINDS
                           && Evaluator.FaultMatches(row, FaultOf(LabelOf(cfg.start)(item)))
  {
    hide RunFaults;
    hide FaultOf;
    hide Evaluator.FaultMatches;
    var faults := RunFaults(cfg);
    if Evaluator.GroundTruth(row, faults) {
      var i :| 0 <= i < |faults| && Evaluator.FaultMatches(row, faults[i]);
      assert faults[i] in faults;
      RunFaultsMembers(cfg, faults[i]);
    }
    if item :| item in cfg.scenarios && item.kind in NODE_FAULT_KINDS
               && Evaluator.FaultMatches(row, FaultOf(LabelOf(cfg.start)(item)))
    {
      RunFaultsMembers(cfg, FaultOf(LabelOf(cfg.start)(item)));
      FaultHolds(row, faults, FaultOf(LabelOf(cfg.start)(item)));
    }
  }

  /** The scenario is one of the four node faults and hits the row: its node, its network if it names one, and some of
      its minute. */
  predicate HitsRow(start: Instant, item: ScenarioItem, row: Evaluator.Metric) {
    && (item.kind == "node_latency_spike" || item.kind == "node_5xx_spike" || item.kind == "isp_node_degradation"
        || item.kind == "capacity_pressure")
    && item.target == row.nodeId && (item.network != "" ==> item.network == row.networkId)
    && start + item.at < row.windowEnd && row.windowStart < start + item.at + item.duration
  }

  /** A row counts as an actual fault exactly when a scenario of the run hits it. */
  lemma CountedByFields(cfg: Config, row: Evaluator.Metric)
    ensures Evaluator.GroundTruth(row, RunFaults(cfg)) <==>
            exists item :: item in cfg.scenarios && HitsRow(cfg.start, item, row)
  {
    hide RunFaults;
    hide Evaluator.GroundTruth;
    CountedIff(cfg, row);
    forall item | item in cfg.scenarios
      ensures HitsRow(cfg.start, item, row) <==>
              item.kind in NODE_FAULT_KINDS && Evaluator.FaultMatches(row, FaultOf(LabelOf(cfg.start)(item)))
    {
      HitsRowIff(cfg, item, row);
    }
  }

  lemma HitsRowIff(cfg: Config, item: ScenarioItem, row: Evaluator.Metric)
    ensures HitsRow(cfg.start, item, row) <==>
            item.kind in NODE_FAULT_KINDS && Evaluator.FaultMatches(row, FaultOf(LabelOf(cfg.start)(item)))
  {
  }

  lemma CoveredIsCounted(cfg: Config, elapsed: Duration, node: string, network: string, row: Evaluator.Metric)
    requires NamedFaultsAreCovered(cfg) && LabelledIn(cfg, elapsed, node, network, row)
    ensures Evaluator.GroundTruth(row, RunFaults(cfg))
  {
    hide RunFaults;
    hide Evaluator.GroundTruth;
    var item := LabelSource(cfg, elapsed, node, network);
    hide EffectsOf;
    CountedIff(cfg, row);
    LabelMatchesRow(cfg, item, elapsed, node, network, row);
    hide Evaluator.FaultMatches;
    hide FaultOf;
    hide CarriesNodeFault;
    if item.network != "" && item.kind != ISP_DEGRADATION {
      KindsDistinct();
      assert IsNamedFault(cfg, item);
      assert NodeWideFaultAt(cfg, item.target, elapsed);
      var other :| other in cfg.scenarios && other.kind in NODE_FAULT_KINDS && other.network == ""
                   && other.target == item.target && Active(other, elapsed);
      WideMatches(cfg, other, elapsed, row);
    }
  }

  lemma WideMatches(cfg: Config, item: ScenarioItem, elapsed: Duration, row: Evaluator.Metric)
    requires item.network == "" && item.target == row.nodeId && Active(item, elapsed)
    requires row.windowStart <= cfg.start + elapsed < row.windowEnd
    ensures Evaluator.FaultMatches(row, FaultOf(LabelOf(cfg.start)(item)))
  {
  }

  /** A network that no scenario names. */
  lemma {:induction false} FreshNetwork(items: seq<ScenarioItem>) returns (network: string)
    ensures network != ""
    ensures forall item :: item in items ==> |item.network| < |network|
    decreases |items|
  {
    if items == [] {
      network := "n";
    } else {
      var last := |items| - 1;
      var shorter := FreshNetwork(items[..last]);
      network := shorter + items[last].network + "n";
      forall item | item in items ensures |item.network| < |network| {
        assert item in items[..last] || item == items[last];
      }
    }
  }

  function InstantRow(node: string, network: string, t: Instant): Evaluator.Metric {
    Evaluator.Metric("", t, t + 1, "", network, node, 1, 0.0, 0.0, 0.0)
  }

  lemma LostUnlessCovered(cfg: Config, item: ScenarioItem, elapsed: Duration)
    requires NoLabelledEventIsLost(cfg)
    requires item in cfg.scenarios && item.kind in NODE_FAULT_KINDS && item.kind != ISP_DEGRADATION
    requires Active(item, elapsed)
    ensures NodeWideFaultAt(cfg, item.target, elapsed)
  {
    hide EffectsOf;
    hide RunFaults;
    hide Evaluator.GroundTruth;
    var network := FreshNetwork(cfg.scenarios);
    var row := InstantRow(item.target, network, cfg.start + elapsed);
    LabelsLaw(cfg.scenarios, elapsed, item.target, network);
    assert Applies(item, elapsed, item.target, network) by { KindsDistinct(); }
    assert item.kind in EffectsOf(cfg.scenarios, elapsed, item.target, network).labels;
    assert LabelledIn(cfg, elapsed, item.target, network, row);
    CountedIff(cfg, row);
    var other :| other in cfg.scenarios && other.kind in NODE_FAULT_KINDS
                 && Evaluator.FaultMatches(row, FaultOf(LabelOf(cfg.start)(other)));
    assert |other.network| < |network|;
    assert other.network == "" && other.target == item.target && Active(other, elapsed);
  }

  /** No labelled event is lost, on any network and in any row that contains it, if and only if every node-wide fault
      that names a network is covered throughout by node faults that name none. */
  lemma LabelsAreCountedIff(cfg: Config)
    ensures NoLabelledEventIsLost(cfg) <==> NamedFaultsAreCovered(cfg)
  {
    hide CarriesNodeFault;
    hide RunFaults;
    hide NodeWideFaultAt;
    if NamedFaultsAreCovered(cfg) {
      forall elapsed, node, network, row | LabelledIn(cfg, elapsed, node, network, row)
        ensures Evaluator.GroundTruth(row, RunFaults(cfg))
      {
        CoveredIsCounted(cfg, elapsed, node, network, row);
      }
    }
    if NoLabelledEventIsLost(cfg) {
      forall item, elapsed | IsNamedFault(cfg, item) && Active(item, elapsed)
        ensures NodeWideFaultAt(cfg, item.target, elapsed)
      {
        LostUnlessCovered(cfg, item, elapsed);
      }
    }
  }

  /** In particular nothing is lost when node-wide faults name no network. */
  lemma LabelledRowsAreFaults(cfg: Config, elapsed: Duration, node: string, network: string, row: Evaluator.Metric)
    requires NodeFaultsAreNodeWide(cfg) && LabelledIn(cfg, elapsed, node, network, row)
    ensures Evaluator.GroundTruth(row, RunFaults(cfg))
  {
    hide LabelledIn;
    hide RunFaults;
    hide Evaluator.GroundTruth;
    CoveredIsCounted(cfg, elapsed, node, network, row);
  }

  // ---------------------------------------------------------------- from counted rows back to labels

  lemma OverlapInstant(row: Evaluator.Metric, start: Instant, item: ScenarioItem) returns (t: Instant)
    requires row.windowStart < row.windowEnd && item.duration > 0
    requires Evaluator.FaultMatches(row, FaultOf(LabelOf(start)(item)))
    ensures row.windowStart <= t < row.windowEnd && Active(item, t - start)
    ensures row.nodeId == item.target && (item.network == "" || row.networkId == item.network)
  {
    t := if row.windowStart >= start + item.at then row.windowStart else start + item.at;
  }

  /** Events of the row's node and network at instant t of its window carry a node-fault label. */
  ghost predicate LabelledAt(cfg: Config, row: Evaluator.Metric, t: Instant) {
    row.windowStart <= t < row.windowEnd && CarriesNodeFault(cfg, t - cfg.start, row.nodeId, row.networkId)
  }

  /** Conversely a row counted as a fault overlaps an interval in which the generator labels the events of that node and
      network, provided ISP faults name a network. */
  lemma FaultRowsAreLabelled(cfg: Config, row: Evaluator.Metric)
    requires ValidConfig(cfg) && row.windowStart < row.windowEnd
    requires forall item :: item in cfg.scenarios && item.kind == ISP_DEGRADATION ==> item.network != ""
    requires Evaluator.GroundTruth(row, RunFaults(cfg))
    ensures exists t :: LabelledAt(cfg, row, t)
  {
    hide EffectsOf;
    hide RunFaults;
    hide FaultOf;
    var i :| 0 <= i < |RunFaults(cfg)| && Evaluator.FaultMatches(row, RunFaults(cfg)[i]);
    hide Evaluator.FaultMatches;
    var f := RunFaults(cfg)[i];
    assert f in RunFaults(cfg);
    RunFaultsMembers(cfg, f);
    var item :| item in cfg.scenarios && item.kind in NODE_FAULT_KINDS && FaultOf(LabelOf(cfg.start)(item)) == f;
    assert ValidItem(cfg, item);
    var t := OverlapInstant(row, cfg.start, item);
    assert Applies(item, t - cfg.start, row.nodeId, row.networkId) by { KindsDistinct(); }
    LabelsLaw(cfg.scenarios, t - cfg.start, row.nodeId, row.networkId);
    assert item.kind in EffectsOf(cfg.scenarios, t - cfg.start, row.nodeId, row.networkId).labels;
    assert LabelledAt(cfg, row, t);
  }

  // ---------------------------------------------------------------- the generator's deliveries and the job's rows

  /** The row of the window under which the analytics job files the event. */
  ghost predicate FiledUnder(e: DeliveryEvent, row: Evaluator.Metric) {
    var w := Pipeline.WindowOf(Pipeline.Node, e);
    && w.key == Pipeline.NodeKey(row.location, row.networkId, row.nodeId)
    && row.windowStart == w.start * 1_000_000
    && row.windowEnd == (w.start + Pipeline.MINUTE) * 1_000_000
  }

  /** The analytics job files an event under the minute row of its node and network that contains its event time. */
  lemma JobRowContainsEvent(e: DeliveryEvent, row: Evaluator.Metric)
    requires e.eventTime.At? && FiledUnder(e, row)
    ensures RowFor(row, e.nodeId, e.networkId, e.eventTime.nanos)
  {
    var ms := e.Millis();
    assert ms * 1_000_000 <= e.eventTime.nanos < (ms + 1) * 1_000_000;
    assert ms - ms % Pipeline.MINUTE <= ms < ms - ms % Pipeline.MINUTE + Pipeline.MINUTE;
  }

  /** From request to ground truth: a generated delivery with a node-fault label is filed under a row that counts as an
      actual fault, when named faults are covered. */
  lemma GeneratedFaultsAreCounted(cfg: Config, index: nat, d: Draws, row: Evaluator.Metric)
    requires ValidConfig(cfg) && ValidDraws(cfg, d) && NamedFaultsAreCovered(cfg)
    requires exists kind :: kind in NODE_FAULT_KINDS && kind in RequestEffects(cfg, index, d).labels
    requires FiledUnder(DeliveryOf(cfg, index, d), row)
    ensures Evaluator.GroundTruth(row, RunFaults(cfg))
  {
    hide EffectsOf;
    hide Evaluator.GroundTruth;
    hide RunFaults;
    hide NamedFaultsAreCovered;
    hide ValidItem;
    hide Pipeline.WindowOf;
    hide Round3;
    var e := DeliveryOf(cfg, index, d);
    JobRowContainsEvent(e, row);
    assert e.eventTime.nanos == cfg.start + (Scheduled(cfg, index) - d.jitter - cfg.start);
    CoveredIsCounted(cfg, Scheduled(cfg, index) - d.jitter - cfg.start, NodeAt(cfg, index).id, NetworkAt(cfg, d), row);
  }

  // ---------------------------------------------------------------- exactly when no generated delivery is lost

  /** The labelled deliveries of a configuration's runs, with the rows they are filed under. */
  ghost predicate LabelledDelivery(cfg: Config, index: nat, d: Draws, row: Evaluator.Metric)
    requires ValidConfig(cfg)
  {
    && index < TotalRequests(cfg) && ValidDraws(cfg, d)
    && (exists kind :: kind in NODE_FAULT_KINDS && kind in RequestEffects(cfg, index, d).labels)
    && FiledUnder(DeliveryOf(cfg, index, d), row)
  }

  ghost predicate NoDeliveryIsLost(cfg: Config)
    requires ValidConfig(cfg)
  {
    forall index, d, row :: LabelledDelivery(cfg, index, d, row) ==> Evaluator.GroundTruth(row, RunFaults(cfg))
  }

  /** A place in the schedule with the jitter and the network that may be drawn for it. */
  datatype Slot = Slot(index: nat, jitter: Duration, location: nat, network: nat)

  predicate IsSlot(cfg: Config, s: Slot) {
    && s.index < TotalRequests(cfg)
    && 0 <= s.jitter <= cfg.outOfOrderMax
    && s.location < |cfg.locations|
    && s.network < |cfg.locations[s.location].networks|
  }

  function SlotOf(index: nat, d: Draws): Slot { Slot(index, d.jitter, d.location, d.network) }

  function SlotTime(cfg: Config, s: Slot): Instant
    requires ValidConfig(cfg)
  {
    Scheduled(cfg, s.index) - s.jitter
  }

  function SlotNode(cfg: Config, s: Slot): string
    requires ValidConfig(cfg)
  {
    NodeAt(cfg, s.index).id
  }

  function SlotNetwork(cfg: Config, s: Slot): string
    requires ValidConfig(cfg) && IsSlot(cfg, s)
  {
    cfg.locations[s.location].networks[s.network]
  }

  /** Start of the minute window that holds an instant. */
  function MinuteStart(t: Instant): Instant { Pipeline.StartOf(Pipeline.Node, t / 1_000_000) * 1_000_000 }

  /** The scenario is a node fault on the slot's node, on its network or on all, during the slot's minute. */
  ghost predicate CountsFor(cfg: Config, s: Slot, item: ScenarioItem)
    requires ValidConfig(cfg) && IsSlot(cfg, s)
  {
    && item in cfg.scenarios && item.kind in NODE_FAULT_KINDS
    && item.target == SlotNode(cfg, s)
    && (item.network == "" || item.network == SlotNetwork(cfg, s))
    && MinuteStart(SlotTime(cfg, s)) < cfg.start + (item.at + item.duration)
    && cfg.start + item.at < MinuteStart(SlotTime(cfg, s)) + 60 * SECOND
  }

  /** The slot is hit by a node-wide fault that names another network. */
  ghost predicate HitByNamedFault(cfg: Config, s: Slot, item: ScenarioItem)
    requires ValidConfig(cfg) && IsSlot(cfg, s)
  {
    && IsNamedFault(cfg, item) && item.target == SlotNode(cfg, s) && item.network != SlotNetwork(cfg, s)
    && Active(item, SlotTime(cfg, s) - cfg.start)
  }

  /** Wherever a node-wide fault hits a slot of another network than it names, some node fault counts for that slot. */
  ghost predicate SlotsAreCovered(cfg: Config)
    requires ValidConfig(cfg)
  {
    forall s, item :: IsSlot(cfg, s) && HitByNamedFault(cfg, s, item) ==> exists other :: CountsFor(cfg, s, other)
  }

  /** The draws for a slot; whatever the slot does not fix is arbitrary. */
  function DrawsFor(s: Slot): Draws {
    Draws(s.jitter, s.location, s.network, "hash", "000000", 0.5, 0.5, 0.0, 0.0, 0, 0.0, 0.5, 0.5, "00")
  }

  function RowOf(cfg: Config, index: nat, d: Draws): Evaluator.Metric
    requires ValidConfig(cfg) && ValidDraws(cfg, d)
  {
    var start := MinuteStart(Scheduled(cfg, index) - d.jitter);
    Evaluator.Metric("", start, start + 60 * SECOND, cfg.locations[d.location].name, NetworkAt(cfg, d),
                     NodeAt(cfg, index).id, 1, 0.0, 0.0, 0.0)
  }

  /** Where a delivery's row lies. */
  lemma RowOfDelivery(cfg: Config, index: nat, d: Draws, row: Evaluator.Metric)
    requires ValidConfig(cfg) && ValidDraws(cfg, d)
    ensures FiledUnder(DeliveryOf(cfg, index, d), row) <==>
            && row.location == cfg.locations[d.location].name
            && row.networkId == NetworkAt(cfg, d) && row.nodeId == NodeAt(cfg, index).id
            && row.windowStart == MinuteStart(Scheduled(cfg, index) - d.jitter)
            && row.windowEnd == MinuteStart(Scheduled(cfg, index) - d.jitter) + 60 * SECOND
  {
    hide EffectsOf;
    hide Round3;
    hide ValidItem;
    hide Scheduled;
    hide NodeAt;
    hide Pipeline.StartOf;
    var e := DeliveryOf(cfg, index, d);
    assert e.Millis() == (Scheduled(cfg, index) - d.jitter) / 1_000_000;
  }

  lemma CountsForIff(cfg: Config, index: nat, d: Draws, row: Evaluator.Metric, item: ScenarioItem)
    requires ValidConfig(cfg) && ValidDraws(cfg, d) && index < TotalRequests(cfg)
    requires FiledUnder(DeliveryOf(cfg, index, d), row)
    ensures CountsFor(cfg, SlotOf(index, d), item) <==>
            item in cfg.scenarios && item.kind in NODE_FAULT_KINDS
            && Evaluator.FaultMatches(row, FaultOf(LabelOf(cfg.start)(item)))
  {
    hide FiledUnder;
    hide DeliveryOf;
    hide MinuteStart;
    RowOfDelivery(cfg, index, d, row);
  }

  lemma CoveredDelivery(cfg: Config, index: nat, d: Draws, row: Evaluator.Metric)
    requires ValidConfig(cfg) && SlotsAreCovered(cfg) && LabelledDelivery(cfg, index, d, row)
    ensures Evaluator.GroundTruth(row, RunFaults(cfg))
  {
    hide ValidItem;
    hide EffectsOf;
    hide RunFaults;
    hide Evaluator.GroundTruth;
    hide Evaluator.FaultMatches;
    hide FaultOf;
    hide FiledUnder;
    hide Scheduled;
    hide CountsFor;
    hide Active;
    var item := LabelledItem(cfg, index, d);
    hide EffectsOf;
    CountedIff(cfg, row);
    DeliveryRowMatches(cfg, index, d, row, item);
    if item.kind != ISP_DEGRADATION && item.network != "" && item.network != NetworkAt(cfg, d) {
      KindsDistinct();
      assert HitByNamedFault(cfg, SlotOf(index, d), item);
      var other :| CountsFor(cfg, SlotOf(index, d), other);
      CountsForIff(cfg, index, d, row, other);
    }
  }

  lemma LabelledItem(cfg: Config, index: nat, d: Draws) returns (item: ScenarioItem)
    requires ValidConfig(cfg) && ValidDraws(cfg, d)
    requires exists kind :: kind in NODE_FAULT_KINDS && kind in RequestEffects(cfg, index, d).labels
    ensures item in cfg.scenarios && item.kind in NODE_FAULT_KINDS
    ensures Applies(item, Scheduled(cfg, index) - d.jitter - cfg.start, NodeAt(cfg, index).id, NetworkAt(cfg, d))
  {
    hide EffectsOf;
    hide Scheduled;
    hide NodeAt;
    hide ValidItem;
    hide Applies;
    item := LabelSource(cfg, Scheduled(cfg, index) - d.jitter - cfg.start, NodeAt(cfg, index).id, NetworkAt(cfg, d));
  }

  lemma DeliveryRowMatches(cfg: Config, index: nat, d: Draws, row: Evaluator.Metric, item: ScenarioItem)
    requires ValidConfig(cfg) && ValidDraws(cfg, d) && FiledUnder(DeliveryOf(cfg, index, d), row)
    requires item.kind in NODE_FAULT_KINDS
    requires Applies(item, Scheduled(cfg, index) - d.jitter - cfg.start, NodeAt(cfg, index).id, NetworkAt(cfg, d))
    ensures Evaluator.FaultMatches(row, FaultOf(LabelOf(cfg.start)(item))) <==>
            item.network == "" || item.network == NetworkAt(cfg, d)
    ensures item.kind == ISP_DEGRADATION ==> Evaluator.FaultMatches(row, FaultOf(LabelOf(cfg.start)(item)))
  {
    hide EffectsOf;
    hide Round3;
    hide FiledUnder;
    hide ValidItem;
    hide Scheduled;
    hide NodeAt;
    hide Applies;
    hide Evaluator.FaultMatches;
    hide FaultOf;
    JobRowContainsEvent(DeliveryOf(cfg, index, d), row);
    LabelMatchesRow(cfg, item, Scheduled(cfg, index) - d.jitter - cfg.start, NodeAt(cfg, index).id, NetworkAt(cfg, d),
                    row);
  }

  lemma SlotIsCovered(cfg: Config, s: Slot, item: ScenarioItem)
    requires ValidConfig(cfg) && NoDeliveryIsLost(cfg) && IsSlot(cfg, s) && HitByNamedFault(cfg, s, item)
    ensures exists other :: CountsFor(cfg, s, other)
  {
    hide ValidItem;
    hide EffectsOf;
    hide RunFaults;
    hide Evaluator.GroundTruth;
    hide Evaluator.FaultMatches;
    hide FaultOf;
    hide FiledUnder;
    hide Scheduled;
    hide MinuteStart;
    hide CountsFor;
    hide Active;
    var index, d := s.index, DrawsFor(s);
    var row := RowOf(cfg, index, d);
    RowOfDelivery(cfg, index, d, row);
    LabelsLaw(cfg.scenarios, SlotTime(cfg, s) - cfg.start, SlotNode(cfg, s), SlotNetwork(cfg, s));
    KindsDistinct();
    assert Applies(item, SlotTime(cfg, s) - cfg.start, SlotNode(cfg, s), SlotNetwork(cfg, s));
    assert item.kind in RequestEffects(cfg, index, d).labels;
    assert LabelledDelivery(cfg, index, d, row);
    CountedIff(cfg, row);
    var other :| other in cfg.scenarios && other.kind in NODE_FAULT_KINDS
                 && Evaluator.FaultMatches(row, FaultOf(LabelOf(cfg.start)(other)));
    CountsForIff(cfg, index, d, row, other);
    assert CountsFor(cfg, s, other);
  }

  /** Exactly when no run of a configuration loses a labelled delivery: every delivery with a node-fault label is filed
      under a row that counts as an actual fault if and only if, wherever a node-wide fault can hit a network other than
      the one it names, some node fault of that node, on that network or on all, falls into the same minute. */
  lemma DeliveriesAreCountedIff(cfg: Config)
    requires ValidConfig(cfg)
    ensures NoDeliveryIsLost(cfg) <==> SlotsAreCovered(cfg)
  {
    hide ValidConfig;
    hide LabelledDelivery;
    hide RunFaults;
    hide HitByNamedFault;
    hide IsSlot;
    hide CountsFor;
    if SlotsAreCovered(cfg) {
      forall index, d, row | LabelledDelivery(cfg, index, d, row) ensures Evaluator.GroundTruth(row, RunFaults(cfg)) {
        CoveredDelivery(cfg, index, d, row);
      }
    }
    if NoDeliveryIsLost(cfg) {
      forall s, item | IsSlot(cfg, s) && HitByNamedFault(cfg, s, item)
        ensures exists other :: CountsFor(cfg, s, other)
      {
        SlotIsCovered(cfg, s, item);
      }
    }
  }

  // ---------------------------------------------------------------- a run that loses labelled events

  /** A minute at ten requests per second, in which a latency spike of edge-a names isp-x. */
  const NAMED := ScenarioItem(0, LATENCY_SPIKE, "edge-a", "isp-x", 60 * SECOND, 50.0, 0.0, 0.0, 0)

  const NAMED_CONFIG := Config(0, 60 * SECOND, 10, 0, 0.0, 0.0, 0, "", [LocationConfig("au", ["isp-x", "isp-y"])],
                               [NodeConfig("edge-a", 40.0, 100)], 2, [NAMED])

  /** The first request goes to isp-y. */
  const NAMED_DRAWS := Draws(0, 0, 1, "hash", "000000", 0.5, 0.5, 0.0, 0.0, 0, 0.0, 0.5, 0.5, "00")

  /** Its one-minute row. */
  const NAMED_ROW := Evaluator.Metric("r", 0, 60 * SECOND, "au", "isp-y", "edge-a", 300, 0.0, 1.0, 90.0)

  lemma NamedConfigValid()
    ensures ValidConfig(NAMED_CONFIG) && ValidDraws(NAMED_CONFIG, NAMED_DRAWS) && TotalRequests(NAMED_CONFIG) == 600
  {
  }

  lemma NamedCarries()
    requires ValidConfig(NAMED_CONFIG) && ValidDraws(NAMED_CONFIG, NAMED_DRAWS)
    ensures LATENCY_SPIKE in RequestEffects(NAMED_CONFIG, 0, NAMED_DRAWS).labels
  {
    hide EffectsOf;
    LabelsLaw(NAMED_CONFIG.scenarios, 0, "edge-a", "isp-y");
    assert NAMED in NAMED_CONFIG.scenarios && Applies(NAMED, 0, "edge-a", "isp-y");
    assert LATENCY_SPIKE in EffectsOf(NAMED_CONFIG.scenarios, 0, "edge-a", "isp-y").labels;
  }

  lemma NamedNotCounted()
    ensures !Evaluator.GroundTruth(NAMED_ROW, RunFaults(NAMED_CONFIG))
  {
    hide RunFaults;
    hide Evaluator.GroundTruth;
    CountedIff(NAMED_CONFIG, NAMED_ROW);
    assert "isp-x"[4] != "isp-y"[4];
  }

  /** Such losses are real: a valid run whose first request carries the label of a latency spike, although the
      evaluator does not count the minute row under which the analytics job files it. */
  lemma NamedNetworkLosesFaults()
    ensures ValidConfig(NAMED_CONFIG) && ValidDraws(NAMED_CONFIG, NAMED_DRAWS) && TotalRequests(NAMED_CONFIG) == 600
    ensures LATENCY_SPIKE in RequestEffects(NAMED_CONFIG, 0, NAMED_DRAWS).labels
    ensures FiledUnder(DeliveryOf(NAMED_CONFIG, 0, NAMED_DRAWS), NAMED_ROW)
    ensures !Evaluator.GroundTruth(NAMED_ROW, RunFaults(NAMED_CONFIG))
  {
    hide ValidConfig;
    hide RequestEffects;
    hide Evaluator.GroundTruth;
    hide RunFaults;
    hide Round3;
    NamedConfigValid();
    NamedCarries();
    NamedNotCounted();
    assert DeliveryOf(NAMED_CONFIG, 0, NAMED_DRAWS).Millis() == 0;
  }
}
