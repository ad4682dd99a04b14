/** The evaluation use case: history, detector, dwell, scorer, publication.

The repository, the publisher and the clock are outside: their replies are arguments of `Evaluate`.  The service keeps
one dwell timer per scope; `published` records what it has put on the recommendation topic. */
module Service {
  import opened Domain
  import opened Ordering
  import opened RealArithmetic
  import opened Candidates
  import opened NodeWeights
  import opened Scorer
  import opened ScorerProperties
  import opened Scopes
  import opened DwellRuns
  import Detector
  import DetectorProperties

  datatype Settings = Settings(
    ttl: Duration,
    minimumDwell: Duration,
    detector: Detector.Config,
    scorer: Candidates.Config)

  datatype Recommendation = Recommendation(
    createdAt: Instant,
    validUntil: Instant,
    scope: Scope,
    current: Weights,
    proposed: Weights,
    reasonCodes: seq<string>,
    expected: ExpectedDelta,
    confidence: real,
    inputWindowStart: Instant,
    inputWindowEnd: Instant,
    evidence: map<string, NodeMetric>)

  datatype Verdict =
    | InvalidRequest
    | DependencyUnavailable
    | NotGenerated(reason: string)
    | Generated(recommendation: Recommendation)

  /** One evaluation's inputs: the request and what the outside world answers. */
  datatype Inputs = Inputs(
    scope: Scope,
    weights: Weights,
    history: Option<seq<NodeMetric>>,
    now: Instant,
    stored: Option<Option<Instant>>,
    publishes: bool)

  // ---------------------------------------------------------------- confidence

  const WORD := 0x1_0000_0000_0000_0000

  /** Total sample size in unsigned 64-bit arithmetic. */
  function SampleSum(metrics: seq<NodeMetric>): nat
    decreases |metrics|
  {
    if metrics == [] then 0
    else (SampleSum(metrics[..|metrics| - 1]) + metrics[|metrics| - 1].requests) % WORD
  }

  function SeverityOf(signals: map<string, Signal>, id: string): real {
    if id in signals then signals[id].severity else 0.0
  }

  function MaxSeverity(signals: map<string, Signal>, metrics: seq<NodeMetric>): real
    decreases |metrics|
  {
    if metrics == [] then 0.0
    else Max(MaxSeverity(signals, metrics[..|metrics| - 1]), SeverityOf(signals, metrics[|metrics| - 1].nodeId))
  }

  function ConfidenceFrom(severity: real, samples: nat): real {
    Round3(Min(0.99, 0.45 + 0.35 * severity + 0.20 * Min(1.0, samples as real / 3000.0)))
  }

  function Confidence(signals: map<string, Signal>, metrics: seq<NodeMetric>): real {
    ConfidenceFrom(MaxSeverity(signals, metrics), SampleSum(metrics))
  }

  lemma Round3Fixed()
    ensures Round3(0.45) == 0.45 && Round3(0.65) == 0.65 && Round3(0.80) == 0.80 && Round3(0.99) == 0.99
  {
    assert (0.45 * 1000.0 + 0.5).Floor == 450;
    assert (0.65 * 1000.0 + 0.5).Floor == 650;
    assert (0.80 * 1000.0 + 0.5).Floor == 800;
    assert (0.99 * 1000.0 + 0.5).Floor == 990;
  }

  lemma ConfidenceRange(severity: real, samples: nat)
    requires severity >= 0.0
    ensures 0.45 <= ConfidenceFrom(severity, samples) <= 0.99
  {
    hide Round3;
    Round3Fixed();
    var x := 0.45 + 0.35 * severity + 0.20 * Min(1.0, samples as real / 3000.0);
    assert samples as real / 3000.0 >= 0.0;
    Round3Monotone(0.45, Min(0.99, x));
    Round3Monotone(Min(0.99, x), 0.99);
  }

  /** Confidence grows with severity and sample size, from 0.45 to the cap of 0.99. */
  lemma ConfidenceLaw(severity: real, samples: nat, severity': real, samples': nat)
    requires 0.0 <= severity <= severity' && samples <= samples'
    ensures ConfidenceFrom(severity, samples) <= ConfidenceFrom(severity', samples')
    ensures ConfidenceFrom(0.0, 0) == 0.45
    ensures ConfidenceFrom(1.0, 0) == 0.80
    ensures samples >= 3000 ==> ConfidenceFrom(0.0, samples) == 0.65
    ensures severity >= 1.0 && samples >= 3000 ==> ConfidenceFrom(severity, samples) == 0.99
  {
    hide Round3;
    Round3Fixed();
    assert samples as real / 3000.0 <= samples' as real / 3000.0;
    assert samples >= 3000 ==> samples as real / 3000.0 >= 1.0;
    Round3Monotone(Min(0.99, 0.45 + 0.35 * severity + 0.20 * Min(1.0, samples as real / 3000.0)),
                   Min(0.99, 0.45 + 0.35 * severity' + 0.20 * Min(1.0, samples' as real / 3000.0)));
  }

  /** Confidence is 0.45 plus 35% of the severity plus 20% of the sample size (3000 samples count fully), capped at 0.99
      and rounded to thousandths. */
  lemma ConfidenceFormula(severity: real, samples: nat, exact: real)
    requires severity >= 0.0
    requires exact == 0.45 + 0.35 * severity + (if samples < 3000 then samples as real / 15000.0 else 0.20)
    ensures var capped := if exact < 0.99 then exact else 0.99;
            -0.0005 <= ConfidenceFrom(severity, samples) - capped <= 0.0005
    ensures (ConfidenceFrom(severity, samples) * 1000.0).Floor as real == ConfidenceFrom(severity, samples) * 1000.0
  {
    hide Round3;
    assert 0.20 * Min(1.0, samples as real / 3000.0) == if samples < 3000 then samples as real / 15000.0 else 0.20;
    RoundingError(Min(0.99, exact));
  }

  lemma MaxSeverityNonNegative(signals: map<string, Signal>, metrics: seq<NodeMetric>)
    ensures MaxSeverity(signals, metrics) >= 0.0
    decreases |metrics|
  {
    if metrics != [] { MaxSeverityNonNegative(signals, metrics[..|metrics| - 1]); }
  }

  /** `visited` lists the evidence in some order, each node once. */
  ghost predicate Visits(visited: seq<NodeMetric>, evidence: map<string, NodeMetric>) {
    && |visited| == |evidence.Keys| && DistinctIds(visited)
    && forall m :: m in visited ==> m.nodeId in evidence && m == evidence[m.nodeId]
  }

  ghost predicate IsConfidence(signals: map<string, Signal>, evidence: map<string, NodeMetric>, confidence: real) {
    exists visited: seq<NodeMetric> :: Visits(visited, evidence) && confidence == Confidence(signals, visited)
  }

  method ConfidenceOf(signals: map<string, Signal>, evidence: map<string, NodeMetric>) returns (confidence: real)
    requires forall id :: id in evidence ==> evidence[id].nodeId == id
    ensures IsConfidence(signals, evidence, confidence)
  {
    hide Round3;
    hide SampleSum;
    hide MaxSeverity;
    hide ConfidenceFrom;
    NothingSampled(signals);
    var maxSeverity, samples := 0.0, 0;
    var order := Enumerate(evidence.Keys);
    var seen: seq<NodeMetric> := [];
    for i := 0 to |order|
      invariant |seen| == i
      invariant forall j :: 0 <= j < i ==> seen[j] == evidence[order[j]] && seen[j].nodeId == order[j]
      invariant maxSeverity == MaxSeverity(signals, seen) && samples == SampleSum(seen)
    {
      var m := evidence[order[i]];
      Sampled(signals, seen, m);
      samples := (samples + m.requests) % WORD;
      maxSeverity := Max(maxSeverity, SeverityOf(signals, order[i]));
      seen := seen + [m];
    }
    ListingSize(order, evidence.Keys);
    confidence := ConfidenceFrom(maxSeverity, samples);
    assert Visits(seen, evidence) && confidence == Confidence(signals, seen);
  }

  lemma NothingSampled(signals: map<string, Signal>)
    ensures MaxSeverity(signals, []) == 0.0 && SampleSum([]) == 0
  {
  }

  lemma Sampled(signals: map<string, Signal>, seen: seq<NodeMetric>, m: NodeMetric)
    ensures SampleSum(seen + [m]) == (SampleSum(seen) + m.requests) % WORD
    ensures MaxSeverity(signals, seen + [m]) == Max(MaxSeverity(signals, seen), SeverityOf(signals, m.nodeId))
  {
    assert (seen + [m])[..|seen|] == seen;
  }

  /** The loop's wrapped total is the total modulo 2^64. */
  lemma {:induction false} SampleSumLaw(metrics: seq<NodeMetric>)
    ensures SampleSum(metrics) == SumOver(metrics, (m: NodeMetric) => m.requests) % 0x1_0000_0000_0000_0000
    decreases |metrics|
  {
    var requests := (m: NodeMetric) => m.requests;
    if metrics != [] {
      var last := |metrics| - 1;
      SampleSumLaw(metrics[..last]);
      assert metrics == metrics[..last] + [metrics[last]];
      SumConcat(metrics[..last], [metrics[last]], requests);
      WrappedSum(SumOver(metrics[..last], requests), metrics[last].requests);
    }
  }

  lemma WrappedSum(total: nat, x: nat)
    ensures (total % WORD + x) % WORD == (total + x) % WORD
  {
  }

  lemma {:induction false} MaxSeverityLaw(signals: map<string, Signal>, metrics: seq<NodeMetric>)
    ensures forall m :: m in metrics ==> SeverityOf(signals, m.nodeId) <= MaxSeverity(signals, metrics)
    ensures MaxSeverity(signals, metrics) == 0.0
            || exists m :: m in metrics && SeverityOf(signals, m.nodeId) == MaxSeverity(signals, metrics)
    decreases |metrics|
  {
    hide SeverityOf;
    if metrics != [] {
      var last := |metrics| - 1;
      MaxSeverityLaw(signals, metrics[..last]);
      assert metrics == metrics[..last] + [metrics[last]];
      assert forall m :: m in metrics <==> m in metrics[..last] || m == metrics[last];
    }
  }

  lemma VisitsPermute(a: seq<NodeMetric>, b: seq<NodeMetric>, evidence: map<string, NodeMetric>)
    requires Visits(a, evidence) && Visits(b, evidence)
    ensures multiset(a) == multiset(b)
  {
    var all := set m | m in a;
    VisitsAll(a, evidence);
    VisitsAll(b, evidence);
    ListingsPermute(a, b, all);
  }

  /** A visit that meets as many different nodes as there are meets all of them. */
  lemma VisitsAll(visited: seq<NodeMetric>, evidence: map<string, NodeMetric>)
    requires Visits(visited, evidence)
    ensures Distinct(visited)
    ensures forall m: NodeMetric :: m in visited <==> m.nodeId in evidence && m == evidence[m.nodeId]
  {
    IdsSize(visited);
    SubsetOfSameSize(Ids(visited), evidence.Keys);
    forall m: NodeMetric | m.nodeId in evidence && m == evidence[m.nodeId] ensures m in visited {
      assert m.nodeId in Ids(visited);
    }
  }

  lemma SubsetOfSameSize(a: set<string>, b: set<string>)
    requires a <= b && |a| == |b|
    ensures a == b
  {
    assert b == a + (b - a);
    assert |b - a| == 0;
  }

  /** The iteration order over the evidence map never shows in the confidence. */
  lemma ConfidenceDeterministic(signals: map<string, Signal>, evidence: map<string, NodeMetric>, c1: real, c2: real)
    requires IsConfidence(signals, evidence, c1) && IsConfidence(signals, evidence, c2)
    ensures c1 == c2
  {
    hide ConfidenceFrom;
    hide SampleSum;
    hide MaxSeverity;
    hide SeverityOf;
    hide SumOver;
    var a :| Visits(a, evidence) && c1 == Confidence(signals, a);
    var b :| Visits(b, evidence) && c2 == Confidence(signals, b);
    VisitsPermute(a, b, evidence);
    hide Visits;
    SampleSumLaw(a);
    SampleSumLaw(b);
    SumPermutation(a, b, (m: NodeMetric) => m.requests);
    MaxSeverityLaw(signals, a);
    MaxSeverityLaw(signals, b);
    SameMembers(a, b);
    MaxSeverityNonNegative(signals, a);
    MaxSeverityNonNegative(signals, b);
  }

  /** Where severity and sample size come from: the largest severity among the signals of the evidence, and the requests
      of the evidence modulo 2^64. */
  lemma ConfidenceSource(signals: map<string, Signal>, evidence: map<string, NodeMetric>, confidence: real)
    returns (severity: real, samples: nat, visited: seq<NodeMetric>)
    requires IsConfidence(signals, evidence, confidence)
    ensures confidence == ConfidenceFrom(severity, samples)
    ensures severity >= 0.0 && forall id :: id in evidence && id in signals ==> signals[id].severity <= severity
    ensures severity == 0.0 || exists id :: id in evidence && id in signals && signals[id].severity == severity
    ensures samples == SumOver(visited, (m: NodeMetric) => m.requests) % 0x1_0000_0000_0000_0000
    ensures Distinct(visited) && forall m :: m in visited <==> m.nodeId in evidence && m == evidence[m.nodeId]
  {
    hide ConfidenceFrom;
    hide SumOver;
    visited :| Visits(visited, evidence) && confidence == Confidence(signals, visited);
    severity, samples := MaxSeverity(signals, visited), SampleSum(visited);
    VisitsAll(visited, evidence);
    IdsSize(visited);
    SubsetOfSameSize(Ids(visited), evidence.Keys);
    SampleSumLaw(visited);
    MaxSeverityLaw(signals, visited);
    MaxSeverityNonNegative(signals, visited);
    hide MaxSeverity;
    forall id | id in evidence && id in signals ensures signals[id].severity <= severity {
      assert id in Ids(visited);
    }
  }

  // ---------------------------------------------------------------- reason codes

  ghost predicate SortedUniqueOf(r: seq<string>, values: seq<string>) {
    && Distinct(r)
    && (forall i, j :: 0 <= i < j < |r| ==> LexLe(r[i], r[j]))
    && forall v :: v in r <==> v in values
  }

  method SortUnique(values: seq<string>) returns (r: seq<string>)
    ensures SortedUniqueOf(r, values)
  {
    var unique := Unique(values);
    LexOrder();
    SortBySorted(unique, LexLe);
    r := SortBy(unique, LexLe);
    SameMembers(r, unique);
    DistinctPermutation(unique, r);
  }

  method Unique(values: seq<string>) returns (result: seq<string>)
    ensures Distinct(result) && forall v :: v in result <==> v in values
  {
    var seen: set<string> := {};
    result := [];
    for i := 0 to |values|
      invariant Distinct(result)
      invariant forall v :: v in seen <==> v in result
      invariant forall v :: v in result <==> v in values[..i]
    {
      assert values[..i + 1] == values[..i] + [values[i]];
      if values[i] !in seen {
        seen := seen + {values[i]};
        result := result + [values[i]];
      }
    }
    assert values[..|values|] == values;
  }

  // ---------------------------------------------------------------- the verdict

  predicate HasAnomaly(signals: map<string, Signal>) {
    exists id :: id in signals && signals[id].anomalous
  }

  method FindAnomaly(signals: map<string, Signal>) returns (found: bool)
    ensures found == HasAnomaly(signals)
  {
    var order := Enumerate(signals.Keys);
    for i := 0 to |order|
      invariant forall j :: 0 <= j < i ==> !signals[order[j]].anomalous
    {
      if signals[order[i]].anomalous { return true; }
    }
    assert forall id :: id in signals ==> id in order;
    return false;
  }

  function ReasonFor(e: Candidates.Error): string {
    match e
    case StaleMetrics => "STALE_METRICS"
    case FutureMetrics => "FUTURE_METRICS"
    case InsufficientCandidates => "INSUFFICIENT_HEALTHY_CANDIDATES"
    case NoMaterialBenefit => "BENEFIT_MARGIN_NOT_MET"
  }

  /** What stops an evaluation before the scorer runs, in the order of the checks. */
  function Refusal(settings: Settings, timers: map<string, Instant>, x: Inputs, signals: map<string, Signal>)
    : Option<Verdict>
  {
    if !ValidScope(x.scope) then Some(InvalidRequest)
    else if x.history.None? then Some(DependencyUnavailable)
    else if x.history.value == [] then Some(NotGenerated("INSUFFICIENT_HISTORY"))
    else if !HasAnomaly(signals) then Some(NotGenerated("NO_ANOMALY"))
    else if Blocked(timers, settings.minimumDwell, x.scope, x.now, None) then Some(NotGenerated("MINIMUM_DWELL_ACTIVE"))
    else if x.stored.None? then Some(DependencyUnavailable)
    else if Blocked(timers, settings.minimumDwell, x.scope, x.now, x.stored.value) then
      Some(NotGenerated("MINIMUM_DWELL_ACTIVE"))
    else None
  }

  /** The timer of the request's scope, or the stored answer, is less than the dwell before now. */
  predicate TooSoon(settings: Settings, timers: map<string, Instant>, x: Inputs) {
    || (x.scope.Key() in timers && x.now < timers[x.scope.Key()] + settings.minimumDwell)
    || (x.stored.Some? && x.stored.value.Some? && x.now < x.stored.value.value + settings.minimumDwell)
  }

  /** The refusals, each with its reason, in the order of the checks. */
  lemma RefusalLaw(settings: Settings, timers: map<string, Instant>, x: Inputs, signals: map<string, Signal>)
    ensures var refusal := Refusal(settings, timers, x, signals);
            var timed := x.scope.Key() in timers && x.now < timers[x.scope.Key()] + settings.minimumDwell;
            if !ValidScope(x.scope) then refusal == Some(InvalidRequest)
            else if x.history.None? then refusal == Some(DependencyUnavailable)
            else if x.history.value == [] then refusal == Some(NotGenerated("INSUFFICIENT_HISTORY"))
            else if forall id :: id in signals ==> !signals[id].anomalous
            then refusal == Some(NotGenerated("NO_ANOMALY"))
            else if x.stored.None? && !timed then refusal == Some(DependencyUnavailable)
            else if TooSoon(settings, timers, x) then refusal == Some(NotGenerated("MINIMUM_DWELL_ACTIVE"))
            else refusal == None
  {
    hide ValidScope;
    hide Scope.Key;
  }

  /** With everything else in order, an evaluation is refused for the dwell if and only if the timer or the stored answer
      is less than the dwell before now. */
  lemma DwellRefusalIff(settings: Settings, timers: map<string, Instant>, x: Inputs, signals: map<string, Signal>,
                        id: string)
    requires ValidScope(x.scope) && x.history.Some? && x.history.value != [] && x.stored.Some?
    requires id in signals && signals[id].anomalous
    ensures Refusal(settings, timers, x, signals) == Some(NotGenerated("MINIMUM_DWELL_ACTIVE")) <==>
            TooSoon(settings, timers, x)
    ensures Refusal(settings, timers, x, signals) == None <==> !TooSoon(settings, timers, x)
  {
    hide ValidScope;
    hide TooSoon;
    hide Refusal;
    RefusalLaw(settings, timers, x, signals);
    assert "INSUFFICIENT_HISTORY"[0] == 'I' && "NO_ANOMALY"[0] == 'N' && "MINIMUM_DWELL_ACTIVE"[0] == 'M';
  }

  ghost predicate IsRecommendation(settings: Settings, x: Inputs, signals: map<string, Signal>, p: Proposal,
                                   r: Recommendation)
  {
    && r.createdAt == x.now
    && r.validUntil == x.now + settings.ttl
    && r.scope == x.scope
    && r.current == p.current
    && r.proposed == p.proposed
    && r.expected == p.expected
    && r.evidence == p.evidence
    && r.inputWindowStart == p.windowStart
    && r.inputWindowEnd == p.windowEnd
    && SortedUniqueOf(r.reasonCodes, p.reasonCodes)
    && IsConfidence(signals, p.evidence, r.confidence)
  }

  /** The verdict of an evaluation that the checks did not refuse, given the scorer's answer. */
  ghost predicate Concludes(settings: Settings, x: Inputs, signals: map<string, Signal>,
                            answer: Result<Proposal, Candidates.Error>, v: Verdict)
  {
    match answer
    case Err(e) => v == NotGenerated(ReasonFor(e))
    case Ok(p) =>
      if x.publishes then v.Generated? && IsRecommendation(settings, x, signals, p, v.recommendation)
      else v == DependencyUnavailable
  }

  /** The verdict after the checks, by the metrics: two usable nodes and a benefit worth the margin make a recommendation
      (if publishing succeeds); otherwise the reason names what is missing. */
  lemma ConclusionLaw(settings: Settings, x: Inputs, signals: map<string, Signal>, E: seq<NodeMetric>, v: Verdict)
    requires x.history.Some? && CandidateList(settings.scorer, x.now, x.history.value, E)
    requires Concludes(settings, x, signals,
                       Answer(settings.scorer, x.now, x.history.value, E, x.weights, signals), v)
    ensures var cfg, metrics := settings.scorer, x.history.value;
            var enough := exists a, b ::
              Usable(cfg, x.now, metrics, a) && Usable(cfg, x.now, metrics, b) && a.nodeId != b.nodeId;
            if !enough then
              v == NotGenerated(if AllInFuture(cfg, x.now, metrics) then "FUTURE_METRICS"
                                else if AllStale(cfg, x.now, metrics) then "STALE_METRICS"
                                else "INSUFFICIENT_HEALTHY_CANDIDATES")
            else
              && E != []
              && var c := Normalise(E, x.weights);
                 if Benefit(E, c, NextWeights(cfg, E, signals, c)) < cfg.benefitMargin
                 then v == NotGenerated("BENEFIT_MARGIN_NOT_MET")
                 else if x.publishes then v.Generated? else v == DependencyUnavailable
  {
    hide NewestOf;
    hide Usable;
    hide AllInFuture;
    hide AllStale;
    hide Normalise;
    hide NextWeights;
    hide Benefit;
    hide CandidateList;
    hide IsRecommendation;
    SelectionOf(settings.scorer, x.now, x.history.value, E);
  }

  /** The selection that a candidate list amounts to. */
  lemma SelectionOf(cfg: Candidates.Config, now: Instant, metrics: seq<NodeMetric>, E: seq<NodeMetric>)
    requires CandidateList(cfg, now, metrics, E)
    ensures |E| >= 2 <==>
      exists a, b :: Usable(cfg, now, metrics, a) && Usable(cfg, now, metrics, b) && a.nodeId != b.nodeId
    ensures |E| < 2 ==> Shortage(cfg, now, metrics) ==
                        if AllInFuture(cfg, now, metrics) then FutureMetrics
                        else if AllStale(cfg, now, metrics) then StaleMetrics else InsufficientCandidates
  {
    hide CandidateList;
    hide Usable;
    hide AllInFuture;
    hide AllStale;
    hide Shortage;
    var r: Result<seq<NodeMetric>, Candidates.Error> := if |E| >= 2 then Ok(E) else Err(Shortage(cfg, now, metrics));
    SelectionLaw(cfg, now, metrics, r);
  }

  /** One publication together with what it was computed from. */
  datatype Publication = Publication(
    recommendation: Recommendation,
    inputs: Inputs,
    signals: map<string, Signal>,
    candidates: seq<NodeMetric>)

  /** What holds of every recommendation on the topic: the signals are the detector's for the history, at least one of
      them anomalous; the evidence is the history's candidate list at the time of creation; and everything that is
      published about weights, deltas and confidence is about that evidence. */
  ghost predicate Trustworthy(settings: Settings, pub: Publication) {
    var r, history := pub.recommendation, pub.inputs.history;
    var p := Proposal(r.current, r.proposed, r.expected, r.reasonCodes, r.evidence,
                      r.inputWindowStart, r.inputWindowEnd);
    && history.Some?
    && r.scope == pub.inputs.scope && ValidScope(r.scope)
    && r.createdAt == pub.inputs.now && r.validUntil - r.createdAt == settings.ttl
    && Detector.IsEvaluation(settings.detector, history.value, pub.signals)
    && HasAnomaly(pub.signals)
    && CandidateList(settings.scorer, r.createdAt, history.value, pub.candidates)
    && r.evidence == EvidenceOf(pub.candidates)
    && pub.candidates != []
    && Sound(settings.scorer, r.createdAt, history.value, pub.inputs.weights, pub.signals, p)
    && MassOne(pub.candidates, r.current)
    && MassOne(pub.candidates, r.proposed)
    && Benefit(pub.candidates, r.current, r.proposed) >= settings.scorer.benefitMargin
    && ShareOfFullMove(pub.candidates, pub.signals, r.current, r.proposed, r.expected)
    && (forall i, j :: 0 <= i < j < |r.reasonCodes| ==> LexLe(r.reasonCodes[i], r.reasonCodes[j]))
    && (forall v :: v in r.reasonCodes <==> v in Reasons(pub.candidates, pub.signals))
    && IsConfidence(pub.signals, r.evidence, r.confidence) && 0.45 <= r.confidence <= 0.99
  }

  /** Weights and expected deltas are one share, in [0,1], of the full move to the target and of its deltas. */
  ghost predicate ShareOfFullMove(E: seq<NodeMetric>, signals: map<string, Signal>, c: Weights, p: Weights,
                                  expected: ExpectedDelta)
    requires E != []
  {
    exists fraction: real :: 0.0 <= fraction <= 1.0 && IsShare(E, signals, c, p, expected, fraction)
  }

  ghost predicate IsShare(E: seq<NodeMetric>, signals: map<string, Signal>, c: Weights, p: Weights,
                          expected: ExpectedDelta, fraction: real)
    requires E != []
  {
    var full := DeltaOf(E, c, TargetOf(E, signals));
    && p == Moved(c, TargetOf(E, signals), fraction)
    && expected.p95Ms == fraction * full.p95Ms
    && expected.errorRate == fraction * full.errorRate
    && expected.costUnits == fraction * full.costUnits
  }

  lemma ProposalIsShare(cfg: Candidates.Config, E: seq<NodeMetric>, requested: Weights, signals: map<string, Signal>,
                        p: Proposal)
    requires E != [] && DistinctIds(E) && cfg.maximumWeightStep >= 0.0
    requires Decide(cfg, E, requested, signals) == Ok(p)
    ensures ShareOfFullMove(E, signals, p.current, p.proposed, p.expected)
  {
    hide Normalise;
    hide TargetOf;
    hide Distance;
    hide DeltaOf;
    hide Moved;
    hide FactorFor;
    hide Benefit;
    var t := TargetOf(E, signals);
    var fraction := FactorFor(cfg.maximumWeightStep, Distance(E, p.current, t));
    TargetKeys(E, signals);
    DistanceLaw(E, p.current, t);
    FactorForLaw(cfg.maximumWeightStep, Distance(E, p.current, t));
    EffectsLaw(E, p.current, t, fraction);
    assert IsShare(E, signals, p.current, p.proposed, p.expected, fraction);
  }

  lemma PublicationTrustworthy(settings: Settings, x: Inputs, signals: map<string, Signal>, E: seq<NodeMetric>,
                               p: Proposal, r: Recommendation)
    requires x.history.Some? && ValidScope(x.scope) && settings.scorer.maximumWeightStep >= 0.0
    requires Detector.IsEvaluation(settings.detector, x.history.value, signals) && HasAnomaly(signals)
    requires CandidateList(settings.scorer, x.now, x.history.value, E)
    requires Answer(settings.scorer, x.now, x.history.value, E, x.weights, signals) == Ok(p)
    requires IsRecommendation(settings, x, signals, p, r)
    ensures Trustworthy(settings, Publication(r, x, signals, E))
  {
    hide Sound;
    hide CandidateList;
    hide ValidScope;
    hide MassOne;
    hide Benefit;
    hide ShareOfFullMove;
    hide HasAnomaly;
    hide Detector.IsEvaluation;
    hide EvidenceOf;
    hide Reasons;
    hide IsConfidence;
    hide Answer;
    DetectorSeverities(settings.detector, x.history.value, signals);
    ProposalFacts(settings.scorer, x.now, x.history.value, E, x.weights, signals, p, r.reasonCodes);
    ConfidenceOk(settings, x, signals, p, r);
  }

  /** What a proposal guarantees, also with its reason codes reordered. */
  lemma ProposalFacts(cfg: Candidates.Config, now: Instant, metrics: seq<NodeMetric>, E: seq<NodeMetric>,
                      requested: Weights, signals: map<string, Signal>, p: Proposal, codes: seq<string>)
    requires cfg.maximumWeightStep >= 0.0 && UnitSeverities(signals)
    requires CandidateList(cfg, now, metrics, E) && Answer(cfg, now, metrics, E, requested, signals) == Ok(p)
    requires SortedUniqueOf(codes, p.reasonCodes)
    ensures E != [] && p.evidence == EvidenceOf(E)
    ensures forall v :: v in codes <==> v in Reasons(E, signals)
    ensures Sound(cfg, now, metrics, requested, signals, p.(reasonCodes := codes))
    ensures MassOne(E, p.current) && MassOne(E, p.proposed)
    ensures Benefit(E, p.current, p.proposed) >= cfg.benefitMargin
    ensures ShareOfFullMove(E, signals, p.current, p.proposed, p.expected)
  {
    hide Sound;
    hide CandidateList;
    hide MassOne;
    hide Benefit;
    hide ShareOfFullMove;
    hide EvidenceOf;
    hide Reasons;
    hide Decide;
    DecideParts(cfg, E, requested, signals, p);
    CandidatesDistinct(cfg, now, metrics, E);
    ProposalLaw(cfg, now, metrics, E, requested, signals, p);
    ProposalIsShare(cfg, E, requested, signals, p);
    SoundWithCodes(cfg, now, metrics, requested, signals, p, codes);
  }

  lemma DecideParts(cfg: Candidates.Config, E: seq<NodeMetric>, requested: Weights, signals: map<string, Signal>,
                    p: Proposal)
    requires E != [] && Decide(cfg, E, requested, signals) == Ok(p)
    ensures p.evidence == EvidenceOf(E) && p.reasonCodes == Reasons(E, signals)
  {
    hide Normalise;
    hide NextWeights;
    hide Benefit;
    hide DeltaOf;
    hide Reasons;
    hide EvidenceOf;
    hide StartOf;
    hide EndOf;
  }

  /** The published weights, summed over the published maps in any order, are 1. */
  lemma PublishedWeightsSum(settings: Settings, pub: Publication, current: seq<string>, proposed: seq<string>)
    requires Trustworthy(settings, pub)
    requires Lists(current, pub.recommendation.current.Keys) && Lists(proposed, pub.recommendation.proposed.Keys)
    ensures RealSum(current, WeightIn(pub.recommendation.current)) == 1.0
    ensures RealSum(proposed, WeightIn(pub.recommendation.proposed)) == 1.0
  {
    hide CandidateList;
    hide Detector.IsEvaluation;
    hide HasAnomaly;
    hide ValidScope;
    hide Benefit;
    hide ShareOfFullMove;
    hide IsConfidence;
    hide Reasons;
    hide Dot;
    hide RealSum;
    hide Lists;
    hide IsEligible;
    hide NewestOf;
    hide EvidenceOf;
    hide Ids;
    var r, E := pub.recommendation, pub.candidates;
    CandidatesDistinct(settings.scorer, r.createdAt, pub.inputs.history.value, E);
    EvidenceLaw(settings.scorer, r.createdAt, pub.inputs.history.value, E);
    hide DistinctIds;
    MassIsSum(E, r.current, current);
    MassIsSum(E, r.proposed, proposed);
  }

  /** The laws of a log entry are laws of its published evidence: the candidate list is that evidence in id order. */
  lemma EntryIsItsEvidence(settings: Settings, pub: Publication, E: seq<NodeMetric>)
    requires Trustworthy(settings, pub)
    requires Visits(E, pub.recommendation.evidence) && SortedById(E)
    ensures E == pub.candidates && E != []
    ensures Benefit(E, pub.recommendation.current, pub.recommendation.proposed) >= settings.scorer.benefitMargin
    ensures ShareOfFullMove(E, pub.signals, pub.recommendation.current, pub.recommendation.proposed,
                            pub.recommendation.expected)
  {
    hide Detector.IsEvaluation;
    hide HasAnomaly;
    hide ValidScope;
    hide Sound;
    hide MassOne;
    hide Benefit;
    hide ShareOfFullMove;
    hide IsConfidence;
    hide Reasons;
    hide IsEligible;
    hide NewestOf;
    SameEvidence(E, pub.candidates);
  }

  lemma SameEvidence(a: seq<NodeMetric>, b: seq<NodeMetric>)
    requires Visits(a, EvidenceOf(b)) && SortedById(a)
    requires DistinctIds(b) && SortedById(b)
    ensures a == b
  {
    EvidenceVisits(b);
    VisitsPermute(a, b, EvidenceOf(b));
    hide EvidenceOf;
    LexOrder();
    forall x, y | x in a && y in a && LeId(x, y) && LeId(y, x) ensures x == y {
      assert x.nodeId == y.nodeId;
    }
    SortedUnique(a, b, LeId);
  }

  lemma EvidenceVisits(E: seq<NodeMetric>)
    requires DistinctIds(E)
    ensures Visits(E, EvidenceOf(E))
  {
    IdsSize(E);
    assert EvidenceOf(E).Keys == Ids(E);
    forall m | m in E ensures m.nodeId in EvidenceOf(E) && m == EvidenceOf(E)[m.nodeId] {
      assert m.nodeId in Ids(E);
      var x := MetricOf(E, m.nodeId);
      UniqueMetric(E, x, m);
    }
  }

  lemma SoundWithCodes(cfg: Candidates.Config, now: Instant, metrics: seq<NodeMetric>, requested: Weights,
                       signals: map<string, Signal>, p: Proposal, codes: seq<string>)
    requires Sound(cfg, now, metrics, requested, signals, p) && Distinct(codes)
    ensures Sound(cfg, now, metrics, requested, signals, p.(reasonCodes := codes))
  {
    hide Usable;
  }

  lemma ConfidenceOk(settings: Settings, x: Inputs, signals: map<string, Signal>, p: Proposal, r: Recommendation)
    requires IsRecommendation(settings, x, signals, p, r)
    ensures 0.45 <= r.confidence <= 0.99
  {
    var visited: seq<NodeMetric> :| Visits(visited, p.evidence) && r.confidence == Confidence(signals, visited);
    hide MaxSeverity;
    hide ConfidenceFrom;
    MaxSeverityNonNegative(signals, visited);
    ConfidenceRange(MaxSeverity(signals, visited), SampleSum(visited));
  }

  /** The detector's severities are what the scorer relies on. */
  lemma DetectorSeverities(cfg: Detector.Config, history: seq<NodeMetric>, signals: map<string, Signal>)
    requires Detector.IsEvaluation(cfg, history, signals)
    ensures UnitSeverities(signals)
  {
    hide Detector.SignalOf;
    hide Detector.Grouped;
    hide Detector.LocationBaseline;
    var groups: map<string, seq<NodeMetric>>, nodes: seq<string> :|
      Detector.Evaluation(cfg, history, signals, groups, nodes);
    DetectorProperties.NonEmptyGroups(history, groups);
    forall id | id in signals ensures 0.0 <= signals[id].severity <= 1.0 {
      SeverityUnit(cfg, id, groups[id], Detector.LocationBaseline(groups, nodes));
    }
  }

  lemma SeverityUnit(cfg: Detector.Config, id: string, samples: seq<NodeMetric>, baseline: real)
    requires samples != []
    ensures 0.0 <= Detector.SignalOf(cfg, id, samples, baseline).severity <= 1.0
  {
    hide Detector.NodeSignal;
    DetectorProperties.SignalLaw(cfg, id, samples[..|samples| - 1], samples[|samples| - 1], baseline);
  }

  lemma BuiltForRequest(settings: Settings, x: Inputs, signals: map<string, Signal>, p: Proposal, r: Recommendation)
    requires IsRecommendation(settings, x, signals, p, r)
    ensures r.scope == x.scope && r.createdAt == x.now
  {
  }

  // ---------------------------------------------------------------- the publish log and the dwell

  function EntryOf(pub: Publication): Entry { Entry(pub.recommendation.scope, pub.recommendation.createdAt) }

  /** The publication times of a publish log, as the run model records them. */
  function LogOf(published: seq<Publication>): seq<Entry> { MapSeq(published, EntryOf) }

  /** A scope's timer shows its newest publication. */
  ghost predicate TimersOk(timers: map<string, Instant>, log: seq<Entry>) {
    forall scope :: ValidScope(scope) && scope.Key() in timers ==> Newest(log, scope) == Some(timers[scope.Key()])
  }

  ghost predicate AllSpaced(log: seq<Entry>, dwell: Duration) {
    forall scope :: ValidScope(scope) ==> Spaced(Times(log, scope), dwell)
  }

  /** Where there is no timer, the repository's answer is the newest publication. */
  predicate StoredIsNewest(timers: map<string, Instant>, log: seq<Entry>, x: Inputs) {
    x.scope.Key() !in timers ==> x.stored == Some(Newest(log, x.scope))
  }

  /** What one more publication does to the timers and to the spacing. */
  lemma PublicationKeepsDwell(dwell: Duration, timers: map<string, Instant>, published: seq<Publication>, x: Inputs,
                              pub: Publication)
    requires TimersOk(timers, LogOf(published)) && ValidScope(x.scope) && x.stored.Some?
    requires !Blocked(timers, dwell, x.scope, x.now, x.stored.value)
    requires EntryOf(pub) == Entry(x.scope, x.now)
    ensures TimersOk(timers[x.scope.Key() := x.now], LogOf(published + [pub]))
    ensures AllSpaced(LogOf(published), dwell) && StoredIsNewest(timers, LogOf(published), x) ==>
              AllSpaced(LogOf(published + [pub]), dwell)
  {
    hide ValidScope;
    hide Times;
    hide Spaced;
    hide Scope.Key;
    var log, e := LogOf(published), Entry(x.scope, x.now);
    assert LogOf(published + [pub]) == log + [e];
    hide LogOf;
    forall scope | ValidScope(scope) && scope.Key() in timers[x.scope.Key() := x.now]
      ensures Newest(log + [e], scope) == Some(timers[x.scope.Key() := x.now][scope.Key()])
    {
      if scope.Key() == x.scope.Key() { KeyInjective(scope, x.scope); }
      DwellRuns.NewestSnoc(log, e, scope);
    }
    if AllSpaced(log, dwell) && StoredIsNewest(timers, log, x) {
      forall scope | ValidScope(scope) ensures Spaced(Times(log + [e], scope), dwell) {
        PublishSpaced(dwell, log, Call(x.scope, x.now, false), scope);
      }
    }
  }

  class RecommendationService {
    const settings: Settings
    var lastGenerated: map<string, Instant>
    ghost var published: seq<Publication>

    /** So far, whenever a scope without a timer published, the repository had returned its newest publication. */
    ghost var informed: bool

    /** A process starts without timers; `earlier` is what former processes published. */
    constructor (settings: Settings, ghost earlier: seq<Publication>)
      requires settings.scorer.maximumWeightStep >= 0.0
      requires forall pub :: pub in earlier ==> Trustworthy(settings, pub)
      ensures this.settings == settings && lastGenerated == map[] && published == earlier && Valid()
      ensures informed <==> AllSpaced(LogOf(earlier), settings.minimumDwell)
    {
      this.settings := settings;
      lastGenerated := map[];
      published := earlier;
      informed := AllSpaced(LogOf(earlier), settings.minimumDwell);
    }

    /** Every recommendation ever published is trustworthy, the timers show the newest publications, and as long as the
        repository was up to date where it mattered, each scope's publications are at least the dwell apart. */
    ghost predicate Valid()
      reads this
    {
      && settings.scorer.maximumWeightStep >= 0.0
      && (forall pub :: pub in published ==> Trustworthy(settings, pub))
      && TimersOk(lastGenerated, LogOf(published))
      && (informed ==> AllSpaced(LogOf(published), settings.minimumDwell))
    }

    /** Service.Evaluate, for evaluations that do not overlap. */
    method Evaluate(x: Inputs) returns (v: Verdict, ghost signals: map<string, Signal>, ghost E: seq<NodeMetric>)
      requires Valid()
      modifies this
      ensures Valid()
      ensures x.history.Some? && ValidScope(x.scope) && x.history.value != [] ==>
                Detector.IsEvaluation(settings.detector, x.history.value, signals)
      ensures match Refusal(settings, old(lastGenerated), x, signals)
              case Some(refusal) => v == refusal
              case None =>
                && CandidateList(settings.scorer, x.now, x.history.value, E)
                && Concludes(settings, x, signals,
                             Answer(settings.scorer, x.now, x.history.value, E, x.weights, signals), v)
      ensures if v.Generated?
              then published == old(published) + [Publication(v.recommendation, x, signals, E)]
                   && lastGenerated == old(lastGenerated)[x.scope.Key() := x.now]
              else published == old(published) && lastGenerated == old(lastGenerated)
      ensures informed <==>
              old(informed) && (v.Generated? ==> StoredIsNewest(old(lastGenerated), LogOf(old(published)), x))
    {
      hide TimersOk;
      hide AllSpaced;
      hide StoredIsNewest;
      hide LogOf;
      hide CandidateList;
      hide Trustworthy;
      hide Detector.IsEvaluation;
      hide Answer;
      hide IsRecommendation;
      hide ValidScope;
      signals, E := map[], [];
      if !ValidScope(x.scope) { return InvalidRequest, signals, E; }
      if x.history.None? { return DependencyUnavailable, signals, E; }
      var history := x.history.value;
      if |history| == 0 { return NotGenerated("INSUFFICIENT_HISTORY"), signals, E; }
      var found := Detector.Evaluate(settings.detector, history);
      signals := found;
      DetectorSeverities(settings.detector, history, signals);
      var anomalous := FindAnomaly(found);
      if !anomalous { return NotGenerated("NO_ANOMALY"), signals, E; }
      if x.scope.Key() in lastGenerated && x.now - lastGenerated[x.scope.Key()] < settings.minimumDwell {
        return NotGenerated("MINIMUM_DWELL_ACTIVE"), signals, E;
      }
      if x.stored.None? { return DependencyUnavailable, signals, E; }
      if x.stored.value.Some? && x.now - x.stored.value.value < settings.minimumDwell {
        return NotGenerated("MINIMUM_DWELL_ACTIVE"), signals, E;
      }
      var answer := Propose(settings.scorer, x.now, history, x.weights, found);
      E :| Answers(settings.scorer, x.now, history, x.weights, found, E, answer);
      if answer.Err? { return NotGenerated(ReasonFor(answer.error)), signals, E; }
      var recommendation := Build(x, found, answer.value, E);
      if !x.publishes { return DependencyUnavailable, signals, E; }
      PublicationTrustworthy(settings, x, found, E, answer.value, recommendation);
      ghost var pub := Publication(recommendation, x, found, E);
      BuiltForRequest(settings, x, found, answer.value, recommendation);
      PublicationKeepsDwell(settings.minimumDwell, lastGenerated, published, x, pub);
      informed := informed && StoredIsNewest(lastGenerated, LogOf(published), x);
      published := published + [pub];
      lastGenerated := lastGenerated[x.scope.Key() := x.now];
      return Generated(recommendation), signals, E;
    }

    method Build(x: Inputs, signals: map<string, Signal>, p: Proposal, ghost E: seq<NodeMetric>)
      returns (r: Recommendation)
      requires x.history.Some? && settings.scorer.maximumWeightStep >= 0.0 && NonNegativeSeverities(signals)
      requires CandidateList(settings.scorer, x.now, x.history.value, E)
      requires Answer(settings.scorer, x.now, x.history.value, E, x.weights, signals) == Ok(p)
      ensures IsRecommendation(settings, x, signals, p, r)
    {
      hide CandidateList;
      hide Answer;
      hide Confidence;
      ProposalLaw(settings.scorer, x.now, x.history.value, E, x.weights, signals, p);
      var codes := SortUnique(p.reasonCodes);
      var confidence := ConfidenceOf(signals, p.evidence);
      r := Recommendation(x.now, x.now + settings.ttl, x.scope, p.current, p.proposed, codes, p.expected, confidence,
                          p.windowStart, p.windowEnd, p.evidence);
    }
  }

  /** A sequential evaluation that generates is a `Begin`, `Publish`, `Record` of the run model, with the same timers
      and the same publication times. */
  lemma GeneratingIsARun(settings: Settings, s: State, x: Inputs, signals: map<string, Signal>, id: nat)
    requires Refusal(settings, s.lastGenerated, x, signals).None? && id !in s.pending
    ensures var begin := Begin(id, x.scope, x.now, x.stored.value);
            var s1 := Apply(s, begin);
            var s2 := Apply(s1, Publish(id));
            && Enabled(settings.minimumDwell, s, begin)
            && Enabled(settings.minimumDwell, s1, Publish(id))
            && Enabled(settings.minimumDwell, s2, Record(id))
            && Apply(s2, Record(id)) == s.(lastGenerated := s.lastGenerated[x.scope.Key() := x.now],
                                           log := s.log + [Entry(x.scope, x.now)])
  {
    hide ValidScope;
    var s1 := Apply(s, Begin(id, x.scope, x.now, x.stored.value));
    var s2 := Apply(s1, Publish(id));
    assert Apply(s2, Record(id)).pending == s.pending;
  }
}
