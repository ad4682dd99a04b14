/** The routing contract wants `current` and `proposed` over the same nodes: a request for which the service, in its
    default configuration, publishes a recommendation that breaks it. */
module RoutingContract {
  import opened Domain
  import opened Ordering
  import opened OrderStatistics
  import opened Candidates
  import opened Scorer
  import opened ScorerProperties
  import opened Scopes
  import opened DwellRuns
  import opened Service
  import Detector
  import DetectorProperties

  const MINUTE := 60_000_000_000

  const DEFAULTS := Settings(
    2 * MINUTE,
    MINUTE,
    Detector.Config(100, 5, 0.20, 0.02, 2.0, 3.0),
    Candidates.Config(100, 2 * MINUTE, 5_000_000_000, 0.85, 0.20, 0.0001))

  function Sample(id: string, minute: nat, errorRate: real, p95Ms: real): NodeMetric {
    NodeMetric(minute * MINUTE, (minute + 1) * MINUTE, SYDNEY, id, 500, errorRate, 0.80, 1000.0, 40.0, p95Ms, 400.0,
               0.40, true)
  }

  /** Five quiet minutes of node a, ... */
  const PAST: seq<NodeMetric> := seq(5, i requires 0 <= i < 5 => Sample("a", i, 0.0, 50.0))

  /** ... then one with errors and high latency, ... */
  const BAD := Sample("a", 5, 0.05, 300.0)

  /** ... in which node b is well. */
  const GOOD := Sample("b", 5, 0.0, 50.0)

  const HISTORY := PAST + [BAD] + [GOOD]

  /** All traffic is on a. */
  const REQUEST := Inputs(SYDNEY, map["a" := 1.0], Some(HISTORY), 6 * MINUTE, Some(None), true)

  lemma SlicesOfHistory()
    ensures Detector.OfNode(HISTORY, "a") == PAST + [BAD]
  {
    hide Detector.OfNode;
    DetectorProperties.OfNodeAll(PAST + [BAD], "a");
    OfNodeOther(PAST + [BAD], GOOD, "a");
  }

  lemma OfNodeOther(history: seq<NodeMetric>, m: NodeMetric, id: string)
    requires m.nodeId != id
    ensures Detector.OfNode(history + [m], id) == Detector.OfNode(history, id)
  {
    assert (history + [m])[..|history|] == history;
    assert Detector.OfNode(history, id) + [] == Detector.OfNode(history, id);
  }

  lemma Increasing()
    ensures Detector.Chronological(PAST + [BAD])
    ensures DetectorProperties.NoConflictingWindows(HISTORY)
  {
    forall x, y | x in HISTORY && y in HISTORY && x.nodeId == y.nodeId && x.windowEnd == y.windowEnd ensures x == y {
      var i :| 0 <= i < |HISTORY| && HISTORY[i] == x;
      var j :| 0 <= j < |HISTORY| && HISTORY[j] == y;
      assert i < 5 ==> HISTORY[i] == Sample("a", i, 0.0, 50.0);
      assert j < 5 ==> HISTORY[j] == Sample("a", j, 0.0, 50.0);
    }
  }

  lemma SliceOfA(groups: map<string, seq<NodeMetric>>)
    requires Detector.Grouped(HISTORY, groups)
    ensures "a" in groups && groups["a"] == PAST + [BAD]
  {
    hide Detector.OfNode;
    hide Detector.Nodes;
    assert BAD in HISTORY;
    SlicesOfHistory();
    Increasing();
    hide Detector.Chronological;
    hide DetectorProperties.NoConflictingWindows;
    DetectorProperties.SliceUnique(HISTORY, "a", groups["a"], PAST + [BAD]);
  }

  lemma QuietBaseline()
    ensures Detector.FrozenBaseline(MapSeq(PAST, ErrorOf), 0.20) == 0.0
  {
    var values := MapSeq(PAST, ErrorOf);
    DetectorProperties.AcceptedMembers(values);
    DetectorProperties.FrozenBaselineLaw(values, 0.20, 0.0, 0.0);
  }

  /** The error test fires for a. */
  lemma DetectorFires(signals: map<string, Signal>)
    requires Detector.IsEvaluation(DEFAULTS.detector, HISTORY, signals)
    ensures HasAnomaly(signals)
  {
    hide Detector.Grouped;
    hide Detector.NodeSignal;
    hide Detector.FrozenBaseline;
    hide Detector.LocationBaseline;
    hide Detector.LatencyFires;
    hide Detector.MissFires;
    hide Detector.RuleFires;
    hide MapSeq;
    var groups: map<string, seq<NodeMetric>>, nodes: seq<string> :|
      Detector.Evaluation(DEFAULTS.detector, HISTORY, signals, groups, nodes);
    SliceOfA(groups);
    var baseline, slice := Detector.LocationBaseline(groups, nodes), PAST + [BAD];
    assert slice[..|slice| - 1] == PAST && slice[|slice| - 1] == BAD;
    BadIsAnomalous(baseline);
    assert signals["a"] == Detector.NodeSignal(DEFAULTS.detector, "a", PAST, BAD, baseline);
  }

  lemma BadIsAnomalous(baseline: real)
    ensures Detector.NodeSignal(DEFAULTS.detector, "a", PAST, BAD, baseline).anomalous
  {
    hide Detector.NodeSignal;
    hide Detector.Accepted;
    hide Detector.Ewma;
    hide Detector.ZScore;
    hide Median;
    hide MapSeq;
    QuietBaseline();
    DetectorProperties.SignalLaw(DEFAULTS.detector, "a", PAST, BAD, baseline);
  }

  lemma NewestSamples()
    ensures forall m :: m in [BAD, GOOD] <==> NewestOf(HISTORY, m.nodeId) == Some(m)
  {
    hide NewestOf;
    assert BAD in HISTORY && GOOD in HISTORY;
    NewestLaw(HISTORY, "a");
    NewestLaw(HISTORY, "b");
    forall m ensures m in [BAD, GOOD] <==> NewestOf(HISTORY, m.nodeId) == Some(m) {
      NewestLaw(HISTORY, m.nodeId);
    }
  }

  lemma BothAreCandidates()
    ensures CandidateList(DEFAULTS.scorer, REQUEST.now, HISTORY, [BAD, GOOD])
  {
    hide NewestOf;
    NewestSamples();
    assert LexLe("a", "b");
  }

  /** Whatever the detector's signals for this history, no check refuses the request, the scorer answers, and what is
      published names two nodes in `proposed` and one in `current`. */
  lemma PublishedNodesDiffer(signals: map<string, Signal>)
    requires Detector.IsEvaluation(DEFAULTS.detector, HISTORY, signals)
    ensures Refusal(DEFAULTS, map[], REQUEST, signals).None?
    ensures CandidateList(DEFAULTS.scorer, REQUEST.now, HISTORY, [BAD, GOOD])
    ensures forall v ::
              Concludes(DEFAULTS, REQUEST, signals,
                        Answer(DEFAULTS.scorer, REQUEST.now, HISTORY, [BAD, GOOD], REQUEST.weights, signals), v) ==>
                v.Generated? && v.recommendation.proposed.Keys == {"a", "b"} && v.recommendation.current.Keys == {"a"}
  {
    hide CandidateList;
    hide Answer;
    hide Detector.IsEvaluation;
    assert ValidScope(SYDNEY);
    DetectorFires(signals);
    DetectorSeverities(DEFAULTS.detector, HISTORY, signals);
    BothAreCandidates();
    SameNodeIdsCanFail(DEFAULTS.scorer, REQUEST.now, HISTORY, [BAD, GOOD], BAD, GOOD, REQUEST.weights, signals);
  }
}
