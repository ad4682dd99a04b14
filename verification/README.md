# StreamPulse in Dafny

StreamPulse watches a CDN: an analytics job turns delivery events into per-minute rows, a detector and a scorer turn
rows into bounded weight recommendations, and a generator and an evaluator close the loop with labelled experiments.
This project models these components and proves what they promise, across components where the promise spans them.

`dafny verify dfyconfig.toml` checks everything.

## How it is organised

| component | modules |
|---|---|
| shared vocabulary | `Domain`, `Ordering` (sorting, counting, listings, sums), `RealArithmetic`, `OrderStatistics` (median, nearest rank) |
| detector | `Detector`, `DetectorProperties` |
| scorer | `Candidates`, `NodeWeights`, `Scorer`, `ScorerProperties`, `ScorerConvergence` |
| recommendation service | `Scopes`, `DwellRuns`, `Service`, `RoutingContract` |
| analytics job | `DeliveryEvents`, `Accumulator`, `Pipeline`, `PipelineProperties`, `PipelineConservation`, `PipelineFields` |
| experiments | `Generator`, `KafkaSink`, `GeneratorRun`, `Evaluator`, `HistoryWindows`, `GroundTruth` |

Code that works by updating variables is a method with its loops, proved against a specification function; laws are
lemmas about that function. The main laws are stated by the fields of inputs and outputs with the source's comparisons
and constants written out, not through the functions they are about (`PipelineFields` does this for the whole job). Objects that the source mutates are classes: the service with its timers and its publish
log, the accumulator, the deduplicator, the per-window revision and the Kafka sink. The iteration order of Go maps and
the order of ties under an unstable sort are arbitrary in the methods and are shown not to matter.

The analytics job is a step machine. An action either receives a raw record at a processing time or advances the
watermark to any value that the largest event time seen justifies (at most that time minus 10 001 ms), firing the due
windows in any order. The Flink rules stated as steps: a window is late once the watermark has passed its last
millisecond by 5 s, it fires when the watermark reaches its last millisecond, and fires again on every later accepted
element without being purged. Properties hold for every legal sequence of actions, hence for every watermark schedule.

The service is modelled twice: as the class `RecommendationService`, whose `Evaluate` is one uninterrupted evaluation,
and as runs (`DwellRuns`) in which evaluations of different scopes interleave, publishing can fail and the process can
restart. `Service.GeneratingIsARun` connects the two.

## What the code does not do

- contracts/compatibility.md:24 requires the same node ids in `current` and `proposed`. The scorer drops candidates
  without a positive requested weight from `current`, so this fails; `ScorerProperties.SameNodeIds` gives the exact
  condition, `ScorerProperties.SameNodeIdsCanFail` a family of requests, and `RoutingContract.PublishedNodesDiffer` a
  publication in the default configuration.
- The dwell is not kept when evaluations of a scope overlap, because the check and the recording of the timer are
  separate critical sections: every overlap can break it (`DwellRuns.OverlapBreaksDwell`). After a restart it depends on
  the repository having seen the newest publication (`DwellRuns.RestartIsSafeIff`).
- An event on the late audit topic is not always lost to all metrics (`PipelineConservation.AuditedYetCounted`).
- The evaluator's EWMA/MAD strategy is not quite the online detector. On the same history it demands 100 requests for
  the latency and cache tests as well (`Evaluator.EvaluatorAgreesWithDetector` states exactly where they part). And the
  service reads at most HISTORY_WINDOWS rows per node, 15 by default
  (services/recommendation-api/cmd/server/main.go:48,
  services/recommendation-api/internal/repository/clickhouse.go:71), while the evaluator keeps the whole series:
  `HistoryWindows.CappedDetector` gives the law, `HistoryWindows.CapSeparates` a series.
- The evaluator's answers are keyed by row value, so a repeated row is judged with hindsight
  (`Evaluator.RepeatedRowChanges`); for all others there is no leakage from later rows (`Evaluator.NoTimeLeakage`).
- A node-wide fault that names a network is labelled on all networks but counted on one
  (`GroundTruth.NamedNetworkLosesFaults`); `GroundTruth.DeliveriesAreCountedIff` says exactly
  when no generated delivery is lost.

## Model

| member | source | states |
|---|---|---|
| `ScorerProperties.ProposalLaw` | services/recommendation-api/internal/scoring/scorer.go:46-145 | Every successful proposal's evidence is, node by node, exactly the nodes' newest metrics that are healthy, have the minimum of requests, are below the saturation limit, end no later than the tolerance after now and no earlier than the stale limit before it (the comparisons written out, in both directions); there are at least two; the proposed weights cover exactly these nodes, lie in [0,1], sum to 1 and are each within the maximum step of the current weight; the current weights are positive, sum to 1 and cover a subset; reason codes are distinct; the penalty benefit is at least the margin |
| `ScorerProperties.ProposalIsLargestMove` | services/recommendation-api/internal/scoring/scorer.go:107-117 | No larger share of the full move than the proposal's own, among shares in [0,1], would keep every weight within the maximum step |
| `ScorerProperties.StepLaw` | services/recommendation-api/internal/scoring/scorer.go:107-117 | The shared factor lies in [0,1], keeps every weight within the step, and bounds every other share that does |
| `ScorerProperties.SameNodeIds` | services/recommendation-api/internal/scoring/scorer.go:162-182 | `current` and `proposed` name the same nodes exactly when all candidates, or none, had a positive requested weight; otherwise `current` is a strict subset (contracts/compatibility.md:24 promises equality unconditionally) |
| `ScorerProperties.SameNodeIdsCanFail` | services/recommendation-api/internal/scoring/scorer.go:107-128 | For every configuration with a step in (0,1] and any signals with severities in [0,1]: when all requested weight is on the worse of exactly two candidates and 52 margins do not exceed the step times the difference of their penalties, the scorer proposes both nodes beside a current map of one |
| `RoutingContract.PublishedNodesDiffer` | services/recommendation-api/internal/app/service.go:131-210 | A history and a request for which the service in its default configuration passes every check and publishes `proposed` over two nodes with `current` over one |
| `ScorerProperties.NoStarvation` | services/recommendation-api/internal/scoring/scorer.go:93-105 | With severities in [0,1] no candidate's target is below 1/(26 n), and two targets differ by a factor of at most 26, whatever the metrics |
| `ScorerProperties.BetterGetsMore` | services/recommendation-api/internal/scoring/scorer.go:82-105 | A candidate no worse in latency, errors, misses, origin cost, saturation and signal surcharge never gets a smaller target |
| `ScorerProperties.TargetOnSimplex` | services/recommendation-api/internal/scoring/scorer.go:93-105 | Targets are weights in [0,1] with sum 1 over the candidates |
| `ScorerProperties.TargetProportions` | services/recommendation-api/internal/scoring/scorer.go:93-105 | Two targets are in inverse proportion to 0.05 plus the two candidates' penalties |
| `ScorerProperties.FactorLaw` | services/recommendation-api/internal/scoring/scorer.go:184-202 | A factor times the spread between the extreme candidates is the candidate's distance from the lowest, and 0 when the spread is below 1e-12 |
| `ScorerProperties.QuantitiesLaw` | services/recommendation-api/internal/scoring/scorer.go:82-209 | The compared quantities by field: latency, errors, misses, origin time per request (0, respectively undivided, without requests) and saturation, and the coefficients of the unit penalty |
| `ScorerProperties.NormaliseOnSimplex` | services/recommendation-api/internal/scoring/scorer.go:162-182 | The normalised current weights lie in [0,1] and sum to 1 whatever was requested: negative, missing or foreign entries included |
| `ScorerProperties.CurrentKeysLaw` | services/recommendation-api/internal/scoring/scorer.go:162-182 | Which candidates the normalised current weights cover: all of them exactly when all or none were requested with a positive weight |
| `ScorerProperties.CurrentProportions` | services/recommendation-api/internal/scoring/scorer.go:162-182 | Normalised current weights are in the proportions of the requested positive weights; all equal to 1/n when there are none |
| `ScorerProperties.MovedOnSimplex` | services/recommendation-api/internal/scoring/scorer.go:114-117 | A move by a share in [0,1] between two points of the simplex stays on the simplex and covers every candidate |
| `ScorerProperties.EffectsLaw` | services/recommendation-api/internal/scoring/scorer.go:204-230 | Expected deltas and penalty benefit of a shortened move are the same share of those of the full move |
| `ScorerProperties.BenefitFromDeltas` | services/recommendation-api/internal/scoring/scorer.go:204-230 | The gated benefit equals the negated weighted sum of the three published deltas and the two unpublished ones (misses, saturation) |
| `ScorerProperties.StepWeights` | services/recommendation-api/internal/scoring/scorer.go:81-117 | Current and next weights are on the simplex, a positive step leaves every candidate with positive weight, and no weight moves further than the step |
| `ScorerProperties.EvidenceLaw` | services/recommendation-api/internal/scoring/scorer.go:131-132 | A metric is in the evidence, under its own node id, if and only if it is its node's newest and healthy, sampled, below saturation, not stale and not from the future, with the comparisons written out |
| `ScorerProperties.ReasonsLaw` | services/recommendation-api/internal/scoring/scorer.go:128-141 | Reason codes are the three guardrail codes and exactly the codes of anomalous candidates, each once |
| `ScorerProperties.SpanLaw` | services/recommendation-api/internal/scoring/scorer.go:131-138 | The input window is the tight span of the candidates' windows |
| `Scorer.Propose` | services/recommendation-api/internal/scoring/scorer.go:46-145 | Answers with the refusal or the proposal that the candidate list, normalisation, target, bounded step and gate determine |
| `Scorer.ProposeFor` | services/recommendation-api/internal/scoring/scorer.go:81-144 | The part of the above after candidate selection |
| `Scorer.ProposeDeterministic` | services/recommendation-api/internal/scoring/scorer.go:46-145 | Any two answers to one request are equal: neither map iteration order nor the unstable sort shows |
| `Scorer.Summarise` | services/recommendation-api/internal/scoring/scorer.go:125-142 | One pass yields evidence, reason codes and input window of the candidates |
| `Scorer.AppendUnique` | services/recommendation-api/internal/scoring/scorer.go:232-244 | Appends each addition that is not yet present, in order |
| `ScorerConvergence.RoundDistance` | services/recommendation-api/internal/scoring/scorer.go:107-117 | One round brings the weights closer to the target, in maximum norm, by exactly min(step, distance) |
| `ScorerConvergence.IterateDistance` | services/recommendation-api/internal/scoring/scorer.go:107-117 | After k rounds max(0, distance - k step) is left |
| `ScorerConvergence.RoundsToTarget` | services/recommendation-api/internal/scoring/scorer.go:107-117 | The target is reached after k rounds if and only if k is at least ceil(distance / step) |
| `ScorerConvergence.NormaliseFixed` | services/recommendation-api/internal/scoring/scorer.go:162-182 | A proposal fed back as the next request passes normalisation unchanged |
| `ScorerConvergence.RoundBenefit` | services/recommendation-api/internal/scoring/scorer.go:119-121 | The benefit of round k is min(step, remaining distance) / distance of the total gain, so all full-size rounds have the same benefit |
| `ScorerConvergence.LoopFollows` | services/recommendation-api/internal/scoring/scorer.go:46-145 | While every round is admitted, repeated evaluation on unchanged evidence follows the ungated iteration |
| `ScorerConvergence.LoopStuck` | services/recommendation-api/internal/scoring/scorer.go:119-123 | A refused round is refused for ever and changes nothing |
| `ScorerConvergence.GateAt` | services/recommendation-api/internal/scoring/scorer.go:119-123 | Round k clears the gate if and only if its share of the total gain reaches the margin |
| `ScorerConvergence.GateAllOrNothing` | services/recommendation-api/internal/scoring/scorer.go:119-123 | The gate refuses the first full-size round, and then all evaluations for ever, or admits every full-size round; one comparison decides which |
| `ScorerConvergence.GateOnLastRound` | services/recommendation-api/internal/scoring/scorer.go:119-123 | When full-size rounds are admitted, the last partial round passes exactly when the remaining distance's share of the gain reaches the margin |
| `Candidates.SelectCandidates` | services/recommendation-api/internal/scoring/scorer.go:52-79 | The candidates in id order if there are at least two, else future before stale before insufficient as the reason |
| `Candidates.SelectionLaw` | services/recommendation-api/internal/scoring/scorer.go:52-79 | With the comparisons written out: the selection succeeds exactly when two nodes have a usable newest metric and then holds exactly the usable ones; otherwise it reports future metrics if all newest metrics lie in the future, stale ones if all are stale, and too few candidates in every other case |
| `Candidates.FilterLatest` | services/recommendation-api/internal/scoring/scorer.go:56-69 | Keeps exactly the eligible newest metrics; the counters tell whether all were future or all were stale |
| `Candidates.LatestByNode` | services/recommendation-api/internal/scoring/scorer.go:147-160 | One entry per node: its newest metric, the first seen among equal window ends |
| `Candidates.NewestLaw` | services/recommendation-api/internal/scoring/scorer.go:147-154 | The entry of a node exists exactly when the node occurs, is one of its metrics, none of them is newer, and it is the first seen among the newest |
| `Candidates.SortById` | services/recommendation-api/internal/scoring/scorer.go:79 | A permutation ordered by node id |
| `Ordering.LexLaw` | services/recommendation-api/internal/scoring/scorer.go:79 | The order of node ids and codes: a prefix, or the smaller character at the first difference, comes first |
| `Candidates.CandidatesUnique` | services/recommendation-api/internal/scoring/scorer.go:52-79 | A request has only one candidate list |
| `NodeWeights.NormalizedCurrent` | services/recommendation-api/internal/scoring/scorer.go:162-182 | Positive requested weights of candidates scaled to sum 1; uniform when there are none |
| `NodeWeights.UniformWeights` | services/recommendation-api/internal/scoring/scorer.go:171-177 | The same weight for every candidate and nothing else |
| `NodeWeights.DivideAll` | services/recommendation-api/internal/scoring/scorer.go:178-180 | Divides every entry of the map in place |
| `NodeWeights.Normalized` | services/recommendation-api/internal/scoring/scorer.go:184-202 | Every candidate's position between the extremes of a factor; 0 for all when the extremes almost coincide |
| `NodeWeights.RawWeights` | services/recommendation-api/internal/scoring/scorer.go:93-102 | Every candidate's attractiveness, and their total |
| `NodeWeights.PenaltyBounds` | services/recommendation-api/internal/scoring/scorer.go:96-99 | A penalty lies between the signal surcharge and one above it, so no target weight divides by less than 0.05 |
| `NodeWeights.TargetWeights` | services/recommendation-api/internal/scoring/scorer.go:82-105 | The target proportional to attractiveness |
| `NodeWeights.StepFactor` | services/recommendation-api/internal/scoring/scorer.go:107-113 | The loop over a map in any order finds min(1, step / largest gap) |
| `NodeWeights.Move` | services/recommendation-api/internal/scoring/scorer.go:114-117 | Moves every target node's weight by the shared factor |
| `NodeWeights.WeightedPenalty` | services/recommendation-api/internal/scoring/scorer.go:204-212 | The weighted sum of the candidates' unit penalties |
| `NodeWeights.ExpectedDeltaOf` | services/recommendation-api/internal/scoring/scorer.go:214-230 | Differences of the weighted sums of latency, error rate and origin time per request |
| `DetectorProperties.RuleFlagsMinority` | services/recommendation-api/internal/detection/detector.go:33-57 | With non-negative latencies the location rule flags at most (n-1) div 2 nodes when the multiple is at least 2 (so never at locations of one or two nodes), and at most n div 2 when it is at least 1 |
| `DetectorProperties.AcceptedIdempotent` | services/recommendation-api/internal/detection/detector.go:101-115 | Rerunning the frozen average on the accepted samples accepts all of them |
| `DetectorProperties.RejectedHasNoEffect` | services/recommendation-api/internal/detection/detector.go:101-115 | A rejected sample of any size, anywhere in the history, changes neither later acceptances nor the baseline |
| `DetectorProperties.FrozenBaselineLaw` | services/recommendation-api/internal/detection/detector.go:101-115 | For alpha in [0,1] the frozen baseline stays within the range of the accepted samples and is the baseline of these alone |
| `DetectorProperties.EwmaClosedForm` | services/recommendation-api/internal/detection/detector.go:105-113 | The running average equals the explicit sum with exponentially decaying weights |
| `DetectorProperties.ZScorePermutation` | services/recommendation-api/internal/detection/detector.go:117-134 | The robust z score does not depend on the order of the history |
| `DetectorProperties.BaselineOrderIrrelevant` | services/recommendation-api/internal/detection/detector.go:33-42 | The location baseline does not depend on the order in which the node map is visited |
| `DetectorProperties.EvaluationDeterministic` | services/recommendation-api/internal/detection/detector.go:27-99 | Without conflicting samples for one window end, any two evaluations of one history give the same signals |
| `DetectorProperties.SignalLaw` | services/recommendation-api/internal/detection/detector.go:44-97 | Severity lies in [0,1] and is 0 without anomaly; a node is anomalous exactly when it has reason codes, each code occurs exactly when its test, written out by field, holds, and baseline and robust z are those of the history where there is enough of it |
| `DetectorProperties.SeverityLaw` | services/recommendation-api/internal/detection/detector.go:52-92 | Severity is at least the clamped excess of every quantity of every test that fires (error rate and latency over their thresholds, latency over its average, error growth, miss rate), and, if there is an anomaly, one of them |
| `DetectorProperties.EvaluationLaw` | services/recommendation-api/internal/detection/detector.go:27-47 | An evaluation judges every node of the history exactly once, on all its samples in order of window end, the last as the latest, against the median over the nodes of their newest latencies |
| `DetectorProperties.AcceptanceLaw` | services/recommendation-api/internal/detection/detector.go:101-112 | A sample is accepted exactly when fewer than five were before it or its robust z against them is at most 4 |
| `DetectorProperties.ZScoreLaw` | services/recommendation-api/internal/detection/detector.go:117-134 | The robust z by the two medians: 0 without history, the scaled distance, and 0 or infinite when the deviations vanish |
| `DetectorProperties.SeverityScales` | services/recommendation-api/internal/detection/detector.go:52-92 | Where each severity saturates and where it vanishes |
| `Detector.Evaluate` | services/recommendation-api/internal/detection/detector.go:27-99 | Signals of an evaluation with the history grouped by node and each slice in window order |
| `Detector.GroupByNode` | services/recommendation-api/internal/detection/detector.go:28-31 | Every node's metrics, in the order of the history |
| `Detector.SortGroups` | services/recommendation-api/internal/detection/detector.go:33-39 | Ordered permutations of the slices, and the newest latency of every node |
| `Detector.SignalEach` | services/recommendation-api/internal/detection/detector.go:44-98 | One signal per node, whatever the visiting order |
| `Detector.EvaluateNode` | services/recommendation-api/internal/detection/detector.go:46-96 | The signal of one node: location rule first, then the history tests |
| `Detector.AddHistory` | services/recommendation-api/internal/detection/detector.go:59-94 | The three history tests raise severity and add their codes |
| `Detector.FrozenEwma` | services/recommendation-api/internal/detection/detector.go:101-115 | The plain average of the accepted subsequence |
| `Detector.RobustZ` | services/recommendation-api/internal/detection/detector.go:117-134 | The scaled distance from the median in deviations; infinite when the history is flat and the value is not |
| `Detector.AppendUnique` | services/recommendation-api/internal/detection/detector.go:157-164 | Appends a code unless it is present |
| `OrderStatistics.MedianBreakdown` | services/recommendation-api/internal/detection/detector.go:144-155 | Replacing fewer than half of the samples arbitrarily leaves the median within any bounds of the untouched ones |
| `OrderStatistics.MedianBreakdownIsSharp` | services/recommendation-api/internal/detection/detector.go:144-155 | Replacing exactly half of them can move it out |
| `OrderStatistics.MedianLaw` | services/recommendation-api/internal/detection/detector.go:144-155 | Twice the median is the sum of the samples of ranks (n-1) div 2 and n div 2; the median of nothing is 0 |
| `OrderStatistics.MedianPermutation` | services/recommendation-api/internal/detection/detector.go:144-155 | The median is a function of the multiset of samples |
| `OrderStatistics.AboveMedian` | services/recommendation-api/internal/detection/detector.go:144-155 | How many non-negative samples can exceed a threshold of one or two medians |
| `Service.PublicationTrustworthy` | services/recommendation-api/internal/app/service.go:143-197 | Whatever is built from the detector's signals (one of them anomalous) and a scorer answer is trustworthy: its evidence is the history's candidate list at its creation time, and over that evidence it is sound, of total weight 1, worth the margin, one common share of the full move in weights and deltas, with sorted distinct reason codes (exactly the guardrails and the candidates' anomaly codes), valid for exactly the TTL, with the confidence of that evidence in [0.45, 0.99] |
| `Service.PublishedWeightsSum` | services/recommendation-api/internal/app/service.go:176-197 | The published current and proposed weights of a trustworthy entry, summed over the published maps in any order, are 1 |
| `Service.EntryIsItsEvidence` | services/recommendation-api/internal/app/service.go:176-197 | The candidates of a trustworthy entry are its published evidence in id order, so margin and share are statements about what is published |
| `Service.RecommendationService.Evaluate` | services/recommendation-api/internal/app/service.go:131-210 | The verdict is the first refusal in the order of the checks, or follows from the scorer's answer; the timer and the publish log change exactly when a recommendation is published, so a failed publish changes neither; every entry of the log stays trustworthy, timers show the newest publications, and the log stays spaced by the dwell in every scope as long as scopes without a timer were published with the newest publication stored |
| `Service.RefusalLaw` | services/recommendation-api/internal/app/service.go:131-158 | Which refusal, in the order of the checks, with the dwell comparison written out |
| `Service.DwellRefusalIff` | services/recommendation-api/internal/app/service.go:148-158 | For a valid scope, a history, an anomaly and an answering repository, the evaluation is refused for the dwell if and only if the timer or the stored answer is less than the dwell before now |
| `Service.ConclusionLaw` | services/recommendation-api/internal/app/service.go:160-208 | After the checks: the reason for which a selection or a too small benefit is refused, and otherwise a recommendation exactly when the publisher takes it |
| `Service.RecommendationService.constructor` | services/recommendation-api/internal/app/service.go:62-105 | A process starts without timers on whatever former processes published |
| `Service.PublicationKeepsDwell` | services/recommendation-api/internal/app/service.go:148-204 | One more publication keeps timers and spacing, given the newest publication where there is no timer |
| `Service.RecommendationService.Build` | services/recommendation-api/internal/app/service.go:176-197 | Assembles the recommendation from the proposal |
| `Service.ProposalIsShare` | services/recommendation-api/internal/scoring/scorer.go:107-143 | Weights and expected deltas of a proposal are one share in [0,1] of the full move |
| `Service.DetectorSeverities` | services/recommendation-api/internal/detection/detector.go:48-93 | The severities handed to the scorer lie in [0,1], which is what the scorer's laws assume |
| `Service.ConfidenceOf` | services/recommendation-api/internal/app/service.go:274-283 | The confidence for the largest severity and the 64-bit sample total of the evidence, whatever the visiting order |
| `Service.ConfidenceRange` | services/recommendation-api/internal/app/service.go:274-283 | Confidence lies in [0.45, 0.99] |
| `Service.ConfidenceLaw` | services/recommendation-api/internal/app/service.go:274-283 | Confidence is monotone in severity and sample size: 0.45 without either, 0.80 for severity alone, 0.65 for samples alone, capped at 0.99 |
| `Service.ConfidenceFormula` | services/recommendation-api/internal/app/service.go:281-282 | Confidence is 0.45 + 0.35 severity + samples / 15000 (at most 0.20), capped at 0.99, to the nearest thousandth |
| `Service.ConfidenceSource` | services/recommendation-api/internal/app/service.go:274-280 | The severity is the largest among the signals of the evidence's nodes (0 without any), the sample size the requests of the evidence modulo 2^64 |
| `Service.ConfidenceDeterministic` | services/recommendation-api/internal/app/service.go:274-283 | Any two visiting orders of the evidence map give the same confidence |
| `Service.SampleSumLaw` | services/recommendation-api/internal/app/service.go:276-278 | The wrapping loop total is the sample total modulo 2^64 |
| `Service.SortUnique` | services/recommendation-api/internal/app/service.go:301-312 | The same codes, each once, sorted |
| `Service.FindAnomaly` | services/recommendation-api/internal/app/service.go:260-267 | Finds whether any signal is anomalous |
| `Service.GeneratingIsARun` | services/recommendation-api/internal/app/service.go:148-204 | A sequential evaluation that generates is a Begin, Publish, Record of the run model below |
| `DwellRuns.DwellHolds` | services/recommendation-api/internal/app/service.go:148-158 | On every run, with any clock, interleaving of scopes, failed publishes and restarts, consecutive publications of one scope are at least the dwell apart, provided evaluations of that scope do not overlap and after a restart the repository returns the newest publication |
| `DwellRuns.ReadyAfterDwell` | services/recommendation-api/internal/app/service.go:148-158 | Conversely, in every state of such a run without a pending evaluation of the scope, an evaluation for which the repository returns the newest publication passes the checks if and only if there is none or it is at least the dwell old |
| `DwellRuns.StepKeeps` | services/recommendation-api/internal/app/service.go:148-204 | Every step of an evaluation keeps the timers, pending evaluations and publication times consistent |
| `DwellRuns.RunInv` | services/recommendation-api/internal/app/service.go:148-204 | Hence every reachable state is consistent |
| `DwellRuns.FewUnexpired` | services/recommendation-api/internal/app/service.go:148-180 | At any instant at most ceil(TTL / dwell) recommendations of a scope are unexpired |
| `DwellRuns.AbandonLeavesNoTrace` | services/recommendation-api/internal/app/service.go:148-204 | An evaluation that fails, whatever other calls and restarts happen meanwhile, leaves the same state as if it had never begun and enables or blocks no other step |
| `DwellRuns.ScopesIndependent` | services/recommendation-api/internal/app/service.go:240-251 | Steps of other valid scopes never change whether a scope is blocked |
| `DwellRuns.OverlapBreaksDwell` | services/recommendation-api/internal/app/service.go:149-204 | In every state: when an evaluation passes the checks while another of its scope has passed and not yet published, both orders of publishing are possible and one leaves a gap below the dwell |
| `DwellRuns.PublishingIsSafeIff` | services/recommendation-api/internal/app/service.go:148-204 | In every state: an evaluation that passed the checks keeps its scope spaced if and only if the newest publication is at least the dwell old, seen by the checks or not |
| `DwellRuns.RestartIsSafeIff` | services/recommendation-api/internal/app/service.go:148-158 | After a restart an evaluation passes exactly when the repository's answer is old enough, and is safe exactly when the newest publication is |
| `DwellRuns.OverlapWitness` | services/recommendation-api/internal/app/service.go:149-204 | Such an overlap is reachable from the empty state |
| `DwellRuns.ForgetfulRestartWitness` | services/recommendation-api/internal/app/service.go:152-158 | An unsafe restart without any overlap is reachable from the empty state |
| `Scopes.KeyInjective` | services/recommendation-api/internal/domain/types.go:10-12 | Validated scopes with equal keys are equal |
| `Scopes.LocationIff` | services/recommendation-api/internal/app/service.go:25-28 | A location is valid exactly when it matches the pattern, read part by part |
| `Scopes.NetworkIff` | services/recommendation-api/internal/app/service.go:25-28 | A network id is valid exactly when it matches one of the three alternatives of the pattern |
| `Scopes.KeyClash` | services/recommendation-api/internal/domain/types.go:10-12 | Without validation two different scopes can share a key |
| `PipelineProperties.PublishedRows` | jobs/cdn-analytics/src/main/java/com/streampulse/analytics/CdnAnalyticsJob.java:81-108 | For every arrival order and watermark schedule: a window has rows exactly when it is closed and has events; their revisions are 0, 1, 2, ...; each later row covers exactly one more of the deduplicated, not-too-late events in order of arrival, and the newest row is the batch group-by over all of them |
| `PipelineFields.SameWindowIff` | jobs/cdn-analytics/src/main/java/com/streampulse/analytics/CdnAnalyticsJob.java:88-105 | Two events share a window of a branch if and only if they agree on its dimensions (location, network and node; location and network; content id) and lie in the same minute, or the same five minutes for content |
| `PipelineFields.NewestRowCounts` | jobs/cdn-analytics/src/main/java/com/streampulse/analytics/CdnAnalyticsJob.java:88-108 | In every reachable state and for each of the three branches: an event's dimensions and block have rows exactly when some accepted event counts for them and the watermark has come to the end of the block, and the newest row's requests are the accepted events with these dimensions and block that were not 5 s too late |
| `PipelineFields.DroppedIff` | jobs/cdn-analytics/src/main/java/com/streampulse/analytics/CdnAnalyticsJob.java:92-112 | In every reachable state a branch has dropped (the node branch: audited) an event exactly if it was accepted when the watermark had passed the end of its block by 5 s |
| `PipelineFields.WatermarkIff` | jobs/cdn-analytics/src/main/java/com/streampulse/analytics/CdnAnalyticsJob.java:81-84 | In every reachable state the watermark can advance to an instant exactly if it is later than the current one and some accepted event is at least 10 001 ms after it |
| `PipelineFields.AcceptedIff` | jobs/cdn-analytics/src/main/java/com/streampulse/analytics/parse/EventIdDeduplicator.java:17-31 | In every reachable state a valid event is accepted if and only if every acceptance of its id is at least 25 h ago; otherwise nothing of the job changes |
| `PipelineProperties.PublishedMetrics` | jobs/cdn-analytics/src/main/java/com/streampulse/analytics/metrics/NodeMetricWindow.java:21-36 | A published row states its window's bounds (a minute, five for content), the number of its events, the shares of those with status 500 or more and of cache hits among them, their bytes and origin time, and their nearest-rank latencies |
| `PipelineProperties.RevisionCount` | jobs/cdn-analytics/src/main/java/com/streampulse/analytics/metrics/NodeMetricWindow.java:14-19 | How often a closed window has been published: one more than the events that arrived after the first row |
| `PipelineProperties.SameEventsSameRow` | jobs/cdn-analytics/src/main/java/com/streampulse/analytics/CdnAnalyticsJob.java:81-108 | Two runs that count the same events for a window, in any order, end with the same row |
| `PipelineProperties.FifteenSeconds` | jobs/cdn-analytics/src/main/java/com/streampulse/analytics/CdnAnalyticsJob.java:81-92 | If every event is at most 15 s behind the largest event time before it, nothing is too late and the newest rows are the full batch result |
| `PipelineProperties.TenSeconds` | jobs/cdn-analytics/src/main/java/com/streampulse/analytics/CdnAnalyticsJob.java:81-92 | If at most 10 s behind, every closed window has exactly one row, at revision 0, with the full batch result |
| `PipelineProperties.DropsAreAudited` | jobs/cdn-analytics/src/main/java/com/streampulse/analytics/CdnAnalyticsJob.java:92-112 | The network branch drops exactly what the node branch audits as late; the content branch drops a part of it |
| `PipelineProperties.LateAcrossBranches` | jobs/cdn-analytics/src/main/java/com/streampulse/analytics/CdnAnalyticsJob.java:88-108 | The same for every sequence of arrivals |
| `PipelineProperties.OnEventKeeps` | jobs/cdn-analytics/src/main/java/com/streampulse/analytics/CdnAnalyticsJob.java:88-108 | Processing an event keeps every window of a branch equal to its batch |
| `PipelineProperties.OnMarkKeeps` | jobs/cdn-analytics/src/main/java/com/streampulse/analytics/CdnAnalyticsJob.java:88-108 | So does an advance of the watermark, in any firing order |
| `PipelineProperties.StepKeeps` | jobs/cdn-analytics/src/main/java/com/streampulse/analytics/CdnAnalyticsJob.java:70-126 | Every enabled action keeps the job invariant |
| `PipelineProperties.RunOk` | jobs/cdn-analytics/src/main/java/com/streampulse/analytics/CdnAnalyticsJob.java:70-126 | Hence it holds after every legal run |
| `PipelineConservation.NodeRowsSumToNetworkRow` | jobs/cdn-analytics/src/main/java/com/streampulse/analytics/CdnAnalyticsJob.java:88-101 | In every reachable state, for each location, network and minute, the newest node rows' requests add up to the newest network row's |
| `PipelineConservation.Conservation` | jobs/cdn-analytics/src/main/java/com/streampulse/analytics/CdnAnalyticsJob.java:70-126 | Records received = dead-lettered + duplicates + requests the node branch holds (in open windows, or in the newest rows of cleared ones) + audited too late |
| `PipelineConservation.AcceptancesApart` | jobs/cdn-analytics/src/main/java/com/streampulse/analytics/parse/EventIdDeduplicator.java:17-31 | Two acceptances of one event id are at least 25 h of processing time apart |
| `PipelineConservation.ReplayInvisible` | jobs/cdn-analytics/src/main/java/com/streampulse/analytics/parse/EventIdDeduplicator.java:17-31 | Replays of accepted events within 25 h, at any point of a run, change nothing of the job but the counters, and the rest of the run is possible with them exactly when it is without |
| `PipelineConservation.AuditedYetCounted` | jobs/cdn-analytics/src/main/java/com/streampulse/analytics/CdnAnalyticsJob.java:88-112 | An event that the node branch audits as late is added to the content branch's accumulator of its window exactly when that window has not expired, and otherwise dropped there too |
| `PipelineConservation.AuditedInEveryRun` | jobs/cdn-analytics/src/main/java/com/streampulse/analytics/CdnAnalyticsJob.java:88-112 | In every reachable state an audited event was dropped by the content branch too, or is among the events whose accumulation that branch holds in the window's open cell or has published in its newest row |
| `PipelineConservation.AuditedYetCountedWitness` | jobs/cdn-analytics/src/main/java/com/streampulse/analytics/CdnAnalyticsJob.java:88-112 | A legal run in which an event is both on the audit output and in the accumulator of the content branch |
| `Pipeline.EventIdDeduplicator.ProcessElement` | jobs/cdn-analytics/src/main/java/com/streampulse/analytics/parse/EventIdDeduplicator.java:27-32 | Collects an event exactly when its id is not remembered; a duplicate refreshes nothing |
| `Pipeline.WindowRevision.Next` | jobs/cdn-analytics/src/main/java/com/streampulse/analytics/metrics/WindowRevision.java:9-15 | Numbers the firings of a window from 0 |
| `Pipeline.WindowRevision.Process` | jobs/cdn-analytics/src/main/java/com/streampulse/analytics/metrics/NodeMetricWindow.java:12-37 | Publishes the metrics of the row that the operator model fires |
| `DeliveryEvents.ValidIff` | jobs/cdn-analytics/src/main/java/com/streampulse/analytics/schema/DeliveryEvent.java:29-47 | An event passes validation exactly when it is well formed and names a known cache status |
| `DeliveryEvents.FirstFailureDecides` | jobs/cdn-analytics/src/main/java/com/streampulse/analytics/schema/DeliveryEvent.java:29-47 | A dead letter carries the code of the first of the fifteen checks that its event fails |
| `Accumulator.MetricAccumulator.Add` | jobs/cdn-analytics/src/main/java/com/streampulse/analytics/metrics/MetricAccumulator.java:17-24 | Adds one event to counts, sums and samples |
| `Accumulator.MetricAccumulator.MergeWith` | jobs/cdn-analytics/src/main/java/com/streampulse/analytics/metrics/MetricAccumulator.java:26-34 | Adds another accumulator, possibly the receiver itself |
| `Accumulator.MetricAccumulator.Percentile` | jobs/cdn-analytics/src/main/java/com/streampulse/analytics/metrics/MetricAccumulator.java:36-42 | The nearest-rank percentile; 0 without samples |
| `Accumulator.MetricAccumulator.GetResult` | jobs/cdn-analytics/src/main/java/com/streampulse/analytics/metrics/NodeMetricAggregate.java:12-23 | The snapshot of the accumulated events |
| `Accumulator.FoldLaw` | jobs/cdn-analytics/src/main/java/com/streampulse/analytics/metrics/MetricAccumulator.java:17-24 | An accumulator holds exactly the count, error and hit counts, byte and origin sums and samples of its events |
| `Accumulator.MergeHomomorphism` | jobs/cdn-analytics/src/main/java/com/streampulse/analytics/metrics/MetricAccumulator.java:26-34 | Merging the accumulators of two batches is accumulating their concatenation |
| `Accumulator.SnapshotOrderIrrelevant` | jobs/cdn-analytics/src/main/java/com/streampulse/analytics/metrics/NodeMetricAggregate.java:8-23 | A snapshot is a function of the multiset of events |
| `Accumulator.SnapshotLaw` | jobs/cdn-analytics/src/main/java/com/streampulse/analytics/metrics/NodeMetricAggregate.java:12-23 | Counts, sums and percentiles of a snapshot are those of its events; rates lie in [0,1], p50 <= p95 <= p99, and each of them is a real sample |
| `OrderStatistics.NearestRankLaw` | jobs/cdn-analytics/src/main/java/com/streampulse/analytics/metrics/MetricAccumulator.java:36-42 | The percentile is a sample; at least the given share of samples is at or below it, and less than that share is below it |
| `OrderStatistics.NearestRankMonotone` | jobs/cdn-analytics/src/main/java/com/streampulse/analytics/metrics/MetricAccumulator.java:36-42 | A larger probability never gives a smaller percentile |
| `Evaluator.EvaluatorAgreesWithDetector` | scripts/evaluate_detectors.py:207-225 | Against the online detector on any history, other nodes included, whose samples of the row's node are its series with distinct window ends: each history code occurs online exactly when the evaluator's test holds; with at least 100 requests the reasons are the same up to the location rule; the evaluator never fires where the detector is silent, and misses a history code exactly on smaller rows where the latency or cache test holds |
| `Evaluator.EvaluatorAgreesAlone` | scripts/evaluate_detectors.py:207-225 | On the history of a single node the location rule is silent and verdict and reasons agree outright |
| `HistoryWindows.CappedDetector` | services/recommendation-api/internal/app/service.go:135-143 | When the history holds only the newest windows of each node, the history codes are the tests on the kept rows; with at least 100 requests (and a cap above five) they are the evaluator's if and only if there is too little history or the tests answer alike on the kept rows and on the whole series |
| `HistoryWindows.ServiceHistoryQualifies` | services/recommendation-api/internal/repository/clickhouse.go:58-93 | Cutting a loaded scope's history to the newest windows of each node, other nodes included, leaves just those kept rows |
| `HistoryWindows.CutOfNode` | services/recommendation-api/internal/repository/clickhouse.go:58-93 | The cut keeps the end of every node's history |
| `HistoryWindows.AgreeWithinCap` | services/recommendation-api/internal/app/service.go:135-143 | Below the cap the service's detector and the evaluator agree as on the whole series |
| `HistoryWindows.CapSeparates` | services/recommendation-api/internal/app/service.go:135-143 | Beyond it they part: an 18-row series on whose last row the service, in its default configuration, raises the cache test and the evaluator does not |
| `Evaluator.RuleAgreesWithDetector` | scripts/evaluate_detectors.py:196-206 | When a minute's rows, one per node, are the newest online samples of all nodes, the streaming rule flags a row exactly when the online detector does |
| `Evaluator.LoadedRowsQualify` | scripts/evaluate_detectors.py:109-132 | For rows as loaded, with distinct window ends per series, the whole history of a row's scope up to that row meets the premise of that agreement |
| `Evaluator.NoTimeLeakage` | scripts/evaluate_detectors.py:180-230 | The answers for the first k rows, computed on them alone or on all rows, are the same: for the fixed strategy always, for EWMA/MAD for every row that does not occur again later |
| `Evaluator.RepeatedRowChanges` | scripts/evaluate_detectors.py:228-230 | Why the exception: a row whose repetition later in the data changes its answer from not detected to detected |
| `Evaluator.LastDecides` | scripts/evaluate_detectors.py:228-230 | The answer for a row that occurs several times is the verdict on its last occurrence |
| `Evaluator.RuleSeesItsMinuteOnly` | scripts/evaluate_detectors.py:196-204 | The rule's answer for a row is not changed by later rows outside its minute and scope |
| `Evaluator.DetectionNeedsTraffic` | scripts/evaluate_detectors.py:187-225 | No strategy fires on a row below 100 requests |
| `Evaluator.FixedLaw` | scripts/evaluate_detectors.py:190-195 | The fixed strategy fires exactly on rows with 100 requests and a latency of 100 ms or an error rate of 0.05 |
| `Evaluator.RuleLaw` | scripts/evaluate_detectors.py:196-206 | The rule fires exactly on rows with 100 requests, an error rate above 0.02 and a latency above twice the positive median of its peers |
| `Evaluator.PeersLaw` | scripts/evaluate_detectors.py:183-185 | The peers are the rows of the same window end, location and network, each as often as it occurs |
| `Evaluator.SeriesLaw` | scripts/evaluate_detectors.py:208-229 | The series of a row are the rows of its location, network and node, in their order |
| `Evaluator.CasesLaw` | scripts/evaluate_detectors.py:247-261 | The counted cases by verdict, matching fault and traffic |
| `Evaluator.Evaluate` | scripts/evaluate_detectors.py:334-336 | For every data set, repeated rows included, each row is counted once among tp, fp, fn and tn, and there are no small-traffic false positives |
| `Evaluator.Predict` | scripts/evaluate_detectors.py:180-230 | The streaming dictionaries yield every row's verdict on its own past |
| `Evaluator.GroupPeers` | scripts/evaluate_detectors.py:183-185 | The peers of a row are all rows of its window end, location and network |
| `Evaluator.PeerRule` | scripts/evaluate_detectors.py:196-204 | The location rule over a row's peers |
| `Evaluator.EwmaVerdict` | scripts/evaluate_detectors.py:207-225 | The reasons of the EWMA/MAD tests, none with a short history or little traffic |
| `Evaluator.StrategyCounts` | scripts/evaluate_detectors.py:241-261 | The loop's counters are the numbers of rows in the four cases and of the two small-traffic cases; the four add up to the rows |
| `Evaluator.RobustZ` | scripts/evaluate_detectors.py:158-165 | Computes the same score as the online detector |
| `Evaluator.FrozenEwma` | scripts/evaluate_detectors.py:168-177 | Computes the same baseline as the online detector, although it tests in the opposite order |
| `Evaluator.Percentile` | scripts/evaluate_detectors.py:233-238 | Computes the same percentile as the analytics job on non-empty input |
| `GroundTruth.DeliveriesAreCountedIff` | services/event-generator/internal/scenario/generator.go:114-187 | For a valid configuration: every delivery of its runs that carries a node-fault label is filed by the analytics job under a row that counts as an actual fault, if and only if, wherever a node-wide fault can hit a network other than the one it names (any place in the schedule, jitter and network that may be drawn), some node fault of that node, on that network or on all, falls into the same minute |
| `GroundTruth.GeneratedFaultsAreCounted` | services/event-generator/internal/scenario/generator.go:114-187 | In particular nothing is lost when every node-wide fault that names a network is covered throughout by active node faults of its target that name none |
| `GroundTruth.LabelsAreCountedIff` | services/event-generator/internal/scenario/generator.go:252-311 | That stronger condition is what is needed for arbitrary networks and arbitrary rows, beyond those a configuration and the job produce |
| `GroundTruth.CountedIff` | scripts/evaluate_detectors.py:143-151 | A row counts as an actual fault exactly when a scenario that is a node fault, on its network or on all, matches it |
| `GroundTruth.CountedByFields` | scripts/evaluate_detectors.py:143-151 | The same by fields: a row counts exactly when a latency spike, 5xx spike, ISP degradation or capacity pressure targets its node, names its network or none, and overlaps its window |
| `GroundTruth.LabelledRowsAreFaults` | services/event-generator/internal/scenario/generator.go:252-311 | In particular nothing is lost when node-wide faults name no network |
| `GroundTruth.FaultRowsAreLabelled` | scripts/evaluate_detectors.py:143-151 | Conversely a row counted as a fault contains an instant at which the generator labels events of its node and network, when ISP faults name a network |
| `GroundTruth.LabelMatchesRow` | scripts/evaluate_detectors.py:143-147 | A scenario that labels an event matches the event's row exactly when it names no network or the event's |
| `GroundTruth.JobRowContainsEvent` | jobs/cdn-analytics/src/main/java/com/streampulse/analytics/CdnAnalyticsJob.java:88-90 | The minute row of an event contains its event time |
| `GroundTruth.NamedNetworkLosesFaults` | services/event-generator/internal/scenario/generator.go:262-266 | A valid run of 600 requests whose first delivery carries the label of a latency spike although the evaluator does not count the minute row under which the job files it |
| `GroundTruth.LoadFaults` | scripts/evaluate_detectors.py:75-88 | The node faults among the manifest's labels, an empty network standing for every network |
| `Generator.ComputeEffects` | services/event-generator/internal/scenario/generator.go:252-297 | The combined effects of the scenarios that apply, labels sorted |
| `Generator.LabelsLaw` | services/event-generator/internal/scenario/generator.go:252-297 | An event carries a label exactly when a scenario of that kind is active and hits its node and network; labels are sorted |
| `Generator.RatesLaw` | services/event-generator/internal/scenario/generator.go:252-297 | By kind and field of the scenarios under way: the error rate is the largest among 5xx spikes and capacity pressures of the node and ISP degradations of node and network, the miss rate the largest among popularity shifts, zero without any; the added latency is the sum of theirs, at least 60 ms for each capacity pressure; the pressure is the capacity of the last pressure on the node; content shifts exactly during a popularity shift |
| `Generator.DeliveryLaw` | services/event-generator/internal/scenario/generator.go:114-187 | A generated delivery by schedule and effects: its times, node, location and network, a 503 exactly below the larger of the fault and base error rates, and a miss exactly below the larger of the miss rates |
| `Generator.LatencyLaw` | services/event-generator/internal/scenario/generator.go:143-147 | Its latencies, to the nearest thousandth: origin time on a miss only, at least 1 ms, with 40% of the added latency; time to first byte with all of it, on top of the origin's |
| `Generator.RecordsLaw` | services/event-generator/internal/scenario/generator.go:197-249 | A request's records: topics, keys, a player report every fourth request, and a duplicate that equals the delivery but for its mark |
| `Generator.GeneratedWellFormed` | services/event-generator/internal/scenario/generator.go:163-187 | With non-blank names every generated delivery passes all checks except, possibly, the cache status |
| `Generator.ParserMatchesGenerator` | services/event-generator/internal/scenario/generator.go:197-248 | With non-blank names the parser dead-letters exactly the deliveries marked schema-invalid, duplicates included |
| `GeneratorRun.Generate` | services/event-generator/cmd/generator/main.go:66-70 | A written manifest means that all records it counts were handed over, in order, by successful batch writes |
| `GeneratorRun.Run` | services/event-generator/internal/scenario/generator.go:71-112 | The manifest counts all records of a complete run; of a stopped one it counts the beginning of them, and the sink was handed just these or these and the one whose write failed |
| `GeneratorRun.TotalRequestsLaw` | services/event-generator/internal/scenario/generator.go:72-72 | The number of requests is the duration times the rate, rounded to the nearest integer, halves up |
| `GeneratorRun.EmitAll` | services/event-generator/internal/scenario/generator.go:95-109 | Counts a record after its successful write; at a failed write exactly the records before it are counted |
| `GeneratorRun.LabelWindows` | services/event-generator/internal/scenario/generator.go:299-311 | One label window per scenario |
| `GeneratorRun.DeliveryTopicTotal` | services/event-generator/internal/scenario/generator.go:99-108 | Delivery records = base requests + duplicates exactly when the delivery topic is neither the routing nor the player topic |
| `GeneratorRun.DeliveryKeysTotal` | services/event-generator/internal/scenario/generator.go:99-102 | The per-key delivery counts add up to the delivery topic's count |
| `GeneratorRun.SchemaErrorsAreDeadLetters` | services/event-generator/internal/scenario/generator.go:106-108 | The manifest's schema errors are as many as the records the parser will dead-letter |
| `KafkaSink.Kafka.Write` | services/event-generator/internal/sink/sink.go:100-110 | Buffers the record and writes the batch when it has 500 records; a failed batch stays buffered, so nothing handed over is lost |
| `KafkaSink.Kafka.Flush` | services/event-generator/internal/sink/sink.go:123-132 | Writes the buffer as one batch or leaves everything as it was |
| `KafkaSink.Kafka.Close` | services/event-generator/internal/sink/sink.go:112-121 | Success means that everything ever written has been delivered in order |

## Left out

- Floating point: all float64 arithmetic is over `real`, so rounding, NaN and overflow are not modelled. The infinite
  robust z score is a constructor of its own. A quotient by zero in the rule's severity (an error threshold of 0) is
  +Inf in the source and is clamped to 1 here.
- Integer width: integers are unbounded, except the confidence's sample total, which wraps at 2^64.
- Time: instants are integers (nanoseconds, and milliseconds inside the job); formatting and parsing of times, the
  parsing of `start_time` and the evaluator's microsecond resolution are not modelled.
- Opaque values: JSON, SHA-256, recommendation ids, random numbers and texts derived from them are arbitrary inputs or
  omitted, as are constant fields (mode, action, versions, evidence-window text) and the TTL self-check of the service,
  which cannot fail on integers.
- Fields of generated events that the analytics job does not read (session, object type, bitrate, node load, synthetic
  labels) are not part of `DeliveryEvent`; the labels and the load are `Generator.Effects`.
- The outside world: replies of the metric repository, the publisher and the broker are inputs. A failed publish or
  batch write counts as nothing delivered, although a broker may have kept part of it.
- Scorer.Propose: requires a non-negative maximum step, which the configuration enforces, and non-negative severities,
  which `Service.DetectorSeverities` proves of the detector's.
- ScorerProperties.SpanLaw: assumes window bounds after the zero instant, which the source uses as "not set".
- ScorerConvergence.RoundsToTarget: like the other laws on repeated rounds it assumes a positive step; with step 0
  nothing ever moves. Evidence is unchanged from round to round.
- DwellRuns.DwellHolds: excludes overlapping evaluations of one scope, for which `DwellRuns.OverlapBreaksDwell` shows it
  false.
- DetectorProperties.EvaluationDeterministic: excludes histories with two different samples of a node for one window
  end; there the unstable sort decides.
- Evaluator.EvaluatorAgreesWithDetector: is about the detector's default configuration, which the evaluator hard-codes.
- Evaluator.RuleAgreesWithDetector: is about minutes in which every node has one newest row; a node that is silent in
  that minute is a peer online but not in the evaluator.
- PipelineProperties.StepKeeps: one step takes a record through parser, deduplicator and all three branches, which is
  parallelism 1; higher parallelism, checkpoints, restarts, offsets, idleness and sink guarantees are not modelled.
- Pipeline.WindowRevision.Process: one class stands for the three process-window functions; their rows differ in the
  fields they publish.
- Evaluator.Evaluate: covers the confusion counts only; precision, recall, delays, recoveries and
  report writing are left out, as is loading faults from a scenario file instead of a manifest.
- Generator.ComputeEffects: compares rates as `maxFloat` does; valid configurations have rates in [0,1].
- KafkaSink.Kafka.Close: the JSON-lines sink, timeouts and cancellation inside a write are left out.
- Acknowledgements and outcomes, HTTP handlers, ClickHouse queries (but for the history's cap per node) and the Kafka
  publisher are plumbing.
- Dashboards, schemas, the privacy scanner, scripts and the vendored Flink playgrounds hold no logic of this system.
