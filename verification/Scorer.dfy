/** The weight scorer: candidates, a normalised target, one bounded step towards it, a benefit gate. */
module Scorer {
  import opened Domain
  import opened Candidates
  import opened NodeWeights

  datatype Proposal = Proposal(
    current: Weights,
    proposed: Weights,
    expected: ExpectedDelta,
    reasonCodes: seq<string>,
    evidence: map<string, NodeMetric>,
    windowStart: Instant,
    windowEnd: Instant)

  const BASE_REASONS := ["BOUNDED_MULTI_OBJECTIVE_SCORE", "MAX_WEIGHT_STEP_OK", "CAPACITY_HEADROOM_OK"]

  // ---------------------------------------------------------------- evidence

  function AddAll(values: seq<string>, additions: seq<string>): seq<string>
    decreases |additions|
  {
    if additions == [] then values
    else
      var before := AddAll(values, additions[..|additions| - 1]);
      var last := additions[|additions| - 1];
      if last in before then before else before + [last]
  }

  method AppendUnique(values: seq<string>, additions: seq<string>) returns (r: seq<string>)
    ensures r == AddAll(values, additions)
  {
    var seen := set v | v in values;
    r := values;
    for i := 0 to |additions|
      invariant r == AddAll(values, additions[..i])
      invariant forall v :: v in seen <==> v in r
    {
      assert additions[..i + 1][..i] == additions[..i];
      if additions[i] !in seen {
        r := r + [additions[i]];
        seen := seen + {additions[i]};
      }
    }
    assert additions[..|additions|] == additions;
  }

  /** The codes a candidate's signal contributes. */
  function CodesOf(signals: map<string, Signal>, id: string): seq<string> {
    if id in signals && signals[id].anomalous then signals[id].reasonCodes else []
  }

  ghost function Reasons(E: seq<NodeMetric>, signals: map<string, Signal>): seq<string>
    decreases |E|
  {
    if E == [] then BASE_REASONS
    else AddAll(Reasons(E[..|E| - 1], signals), CodesOf(signals, E[|E| - 1].nodeId))
  }

  ghost function EvidenceOf(E: seq<NodeMetric>): map<string, NodeMetric> {
    map id | id in Ids(E) :: MetricOf(E, id)
  }

  /** The earliest window start, where the zero instant counts as "not set yet". */
  ghost function StartOf(E: seq<NodeMetric>): Instant
    decreases |E|
  {
    if E == [] then 0
    else
      var before, start := StartOf(E[..|E| - 1]), E[|E| - 1].windowStart;
      if before == 0 || start < before then start else before
  }

  ghost function EndOf(E: seq<NodeMetric>): Instant
    decreases |E|
  {
    if E == [] then 0
    else
      var before, end := EndOf(E[..|E| - 1]), E[|E| - 1].windowEnd;
      if end > before then end else before
  }

  method Summarise(E: seq<NodeMetric>, signals: map<string, Signal>)
    returns (evidence: map<string, NodeMetric>, reasons: seq<string>, start: Instant, end: Instant)
    requires DistinctIds(E)
    ensures evidence == EvidenceOf(E) && reasons == Reasons(E, signals)
    ensures start == StartOf(E) && end == EndOf(E)
  {
    hide Reasons;
    hide StartOf;
    hide EndOf;
    evidence, reasons, start, end := map[], BASE_REASONS, 0, 0;
    NothingSummarised(signals);
    for i := 0 to |E|
      invariant evidence.Keys == Ids(E[..i])
      invariant forall id :: id in evidence ==> evidence[id] in E && evidence[id].nodeId == id
      invariant reasons == Reasons(E[..i], signals)
      invariant start == StartOf(E[..i]) && end == EndOf(E[..i])
    {
      var m := E[i];
      IdsSnoc(E, i);
      SummarySnoc(E, i, signals);
      evidence := evidence[m.nodeId := m];
      if start == 0 || m.windowStart < start { start := m.windowStart; }
      if m.windowEnd > end { end := m.windowEnd; }
      if m.nodeId in signals && signals[m.nodeId].anomalous {
        reasons := AppendUnique(reasons, signals[m.nodeId].reasonCodes);
      }
    }
    assert E[..|E|] == E;
    forall id | id in evidence ensures evidence[id] == MetricOf(E, id) {
      UniqueMetric(E, evidence[id], MetricOf(E, id));
    }
  }

  lemma NothingSummarised(signals: map<string, Signal>)
    ensures Reasons([], signals) == BASE_REASONS && StartOf([]) == 0 && EndOf([]) == 0
  {
  }

  lemma SummarySnoc(E: seq<NodeMetric>, i: nat, signals: map<string, Signal>)
    requires i < |E|
    ensures Reasons(E[..i + 1], signals) == AddAll(Reasons(E[..i], signals), CodesOf(signals, E[i].nodeId))
    ensures StartOf(E[..i + 1]) ==
            if StartOf(E[..i]) == 0 || E[i].windowStart < StartOf(E[..i]) then E[i].windowStart else StartOf(E[..i])
    ensures EndOf(E[..i + 1]) == if E[i].windowEnd > EndOf(E[..i]) then E[i].windowEnd else EndOf(E[..i])
  {
    assert E[..i + 1][..i] == E[..i];
  }

  lemma UniqueMetric(E: seq<NodeMetric>, a: NodeMetric, b: NodeMetric)
    requires DistinctIds(E) && a in E && b in E && a.nodeId == b.nodeId
    ensures a == b
  {
  }

  // ---------------------------------------------------------------- one proposal

  /** The full move towards the target, shortened to the largest allowed step. */
  ghost function NextWeights(cfg: Config, E: seq<NodeMetric>, signals: map<string, Signal>, c: Weights): Weights
    requires E != []
  {
    var t := TargetOf(E, signals);
    Moved(c, t, FactorFor(cfg.maximumWeightStep, Distance(E, c, t)))
  }

  ghost function Benefit(E: seq<NodeMetric>, c: Weights, p: Weights): real {
    Dot(E, c, UnitPenalty) - Dot(E, p, UnitPenalty)
  }

  /** The answer for at least two candidates. */
  ghost function Decide(cfg: Config, E: seq<NodeMetric>, requested: Weights, signals: map<string, Signal>)
    : Result<Proposal, Error>
    requires E != []
  {
    var c := Normalise(E, requested);
    var p := NextWeights(cfg, E, signals, c);
    if Benefit(E, c, p) < cfg.benefitMargin then Err(NoMaterialBenefit)
    else Ok(Proposal(c, p, DeltaOf(E, c, p), Reasons(E, signals), EvidenceOf(E), StartOf(E), EndOf(E)))
  }

  ghost function Answer(cfg: Config, now: Instant, metrics: seq<NodeMetric>, E: seq<NodeMetric>,
                        requested: Weights, signals: map<string, Signal>): Result<Proposal, Error>
  {
    if |E| < 2 then Err(Shortage(cfg, now, metrics)) else Decide(cfg, E, requested, signals)
  }

  ghost predicate IsAnswer(cfg: Config, now: Instant, metrics: seq<NodeMetric>, requested: Weights,
                           signals: map<string, Signal>, r: Result<Proposal, Error>)
  {
    exists E: seq<NodeMetric> :: Answers(cfg, now, metrics, requested, signals, E, r)
  }

  ghost predicate Answers(cfg: Config, now: Instant, metrics: seq<NodeMetric>, requested: Weights,
                          signals: map<string, Signal>, E: seq<NodeMetric>, r: Result<Proposal, Error>)
  {
    CandidateList(cfg, now, metrics, E) && r == Answer(cfg, now, metrics, E, requested, signals)
  }

  /** Scorer.Propose. */
  method Propose(cfg: Config, now: Instant, metrics: seq<NodeMetric>, requested: Weights, signals: map<string, Signal>)
    returns (r: Result<Proposal, Error>)
    requires cfg.maximumWeightStep >= 0.0 && NonNegativeSeverities(signals)
    ensures IsAnswer(cfg, now, metrics, requested, signals, r)
  {
    hide CandidateList;
    hide Shortage;
    hide Decide;
    var selected := SelectCandidates(cfg, now, metrics);
    if selected.Err? {
      ghost var E :| CandidateList(cfg, now, metrics, E) && |E| < 2;
      r := Err(selected.error);
      assert Answers(cfg, now, metrics, requested, signals, E, r);
    } else {
      CandidatesDistinct(cfg, now, metrics, selected.value);
      r := ProposeFor(cfg, selected.value, requested, signals);
      assert Answers(cfg, now, metrics, requested, signals, selected.value, r);
    }
  }

  /** The rest of Propose, on the selected candidates. */
  method ProposeFor(cfg: Config, candidates: seq<NodeMetric>, requested: Weights, signals: map<string, Signal>)
    returns (r: Result<Proposal, Error>)
    requires cfg.maximumWeightStep >= 0.0 && NonNegativeSeverities(signals)
    requires candidates != [] && DistinctIds(candidates)
    ensures r == Decide(cfg, candidates, requested, signals)
  {
    hide Normalise;
    hide TargetOf;
    hide Distance;
    hide Dot;
    hide FactorFor;
    var current := NormalizedCurrent(requested, candidates);
    var target := TargetWeights(candidates, signals);
    TargetKeys(candidates, signals);
    var fraction := StepFactor(candidates, current, target, cfg.maximumWeightStep);
    var proposed := Move(current, target, fraction);
    var currentPenalty := WeightedPenalty(candidates, current);
    var proposedPenalty := WeightedPenalty(candidates, proposed);
    if currentPenalty - proposedPenalty < cfg.benefitMargin { return Err(NoMaterialBenefit); }
    var evidence, reasons, start, end := Summarise(candidates, signals);
    var expected := ExpectedDeltaOf(candidates, current, proposed);
    return Ok(Proposal(current, proposed, expected, reasons, evidence, start, end));
  }

  lemma CandidatesDistinct(cfg: Config, now: Instant, metrics: seq<NodeMetric>, E: seq<NodeMetric>)
    requires CandidateList(cfg, now, metrics, E)
    ensures DistinctIds(E)
  {
  }

  lemma TargetKeys(E: seq<NodeMetric>, signals: map<string, Signal>)
    requires E != []
    ensures TargetOf(E, signals).Keys == Ids(E)
  {
  }

  /** The answer is a function of the request: neither map order nor sorting shows. */
  lemma ProposeDeterministic(cfg: Config, now: Instant, metrics: seq<NodeMetric>, requested: Weights,
                             signals: map<string, Signal>, r1: Result<Proposal, Error>, r2: Result<Proposal, Error>)
    requires IsAnswer(cfg, now, metrics, requested, signals, r1) && IsAnswer(cfg, now, metrics, requested, signals, r2)
    ensures r1 == r2
  {
    hide Answer;
    hide CandidateList;
    var e1: seq<NodeMetric> :| Answers(cfg, now, metrics, requested, signals, e1, r1);
    var e2: seq<NodeMetric> :| Answers(cfg, now, metrics, requested, signals, e2, r2);
    CandidatesUnique(cfg, now, metrics, e1, e2);
  }
}
