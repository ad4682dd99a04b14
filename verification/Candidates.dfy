/** Candidate selection of the weight scorer: the newest metric of every node, filtered and ordered by node id. */
module Candidates {
  import opened Domain
  import opened Ordering

  datatype Config = Config(
    minimumSamples: nat,
    staleAfter: Duration,
    futureTolerance: Duration,
    saturationLimit: real,
    maximumWeightStep: real,
    benefitMargin: real)

  datatype Error = InsufficientCandidates | StaleMetrics | FutureMetrics | NoMaterialBenefit

  /** The newest metric of a node; among equal window ends the first one seen. */
  function NewestOf(metrics: seq<NodeMetric>, id: string): Option<NodeMetric>
    decreases |metrics|
  {
    if metrics == [] then None
    else
      var last := metrics[|metrics| - 1];
      var before := NewestOf(metrics[..|metrics| - 1], id);
      if last.nodeId == id && (before.None? || last.windowEnd > before.value.windowEnd) then Some(last) else before
  }

  ghost predicate DistinctIds(E: seq<NodeMetric>) {
    forall i, j :: 0 <= i < j < |E| ==> E[i].nodeId != E[j].nodeId
  }

  /** One entry per node, the newest, in the order in which the map was visited. */
  ghost predicate NewestList(metrics: seq<NodeMetric>, latest: seq<NodeMetric>) {
    && DistinctIds(latest)
    && (forall m :: m in latest ==> NewestOf(metrics, m.nodeId) == Some(m))
    && (forall m :: m in metrics ==> m.nodeId in Ids(latest))
  }

  predicate IsFuture(cfg: Config, now: Instant, m: NodeMetric) { m.windowEnd > now + cfg.futureTolerance }

  predicate IsStale(cfg: Config, now: Instant, m: NodeMetric) { now - m.windowEnd > cfg.staleAfter }

  predicate IsEligible(cfg: Config, now: Instant, m: NodeMetric) {
    && !IsFuture(cfg, now, m)
    && !IsStale(cfg, now, m)
    && m.healthy
    && m.requests >= cfg.minimumSamples
    && m.saturation < cfg.saturationLimit
  }

  ghost function Ids(E: seq<NodeMetric>): set<string> { set m | m in E :: m.nodeId }

  ghost predicate SortedById(E: seq<NodeMetric>) {
    forall i, j :: 0 <= i < j < |E| ==> LexLe(E[i].nodeId, E[j].nodeId)
  }

  /** The candidates: the newest metrics that pass every filter, ordered by node id. */
  ghost predicate CandidateList(cfg: Config, now: Instant, metrics: seq<NodeMetric>, E: seq<NodeMetric>) {
    && DistinctIds(E)
    && SortedById(E)
    && forall m :: m in E <==> NewestOf(metrics, m.nodeId) == Some(m) && IsEligible(cfg, now, m)
  }

  /** Metric i is m, and all metrics of the node before it are older. */
  ghost predicate FirstNewest(metrics: seq<NodeMetric>, id: string, i: nat, m: NodeMetric) {
    && i < |metrics| && metrics[i] == m
    && forall j :: 0 <= j < i && metrics[j].nodeId == id ==> metrics[j].windowEnd < m.windowEnd
  }

  lemma {:induction false} NewestLaw(metrics: seq<NodeMetric>, id: string)
    ensures NewestOf(metrics, id).None? <==> id !in Ids(metrics)
    ensures NewestOf(metrics, id).Some? ==>
              var m := NewestOf(metrics, id).value;
              m in metrics && m.nodeId == id
              && forall x :: x in metrics && x.nodeId == id ==> x.windowEnd <= m.windowEnd
    ensures NewestOf(metrics, id).Some? ==> exists i :: FirstNewest(metrics, id, i, NewestOf(metrics, id).value)
    decreases |metrics|
  {
    if metrics != [] {
      var last := |metrics| - 1;
      NewestLaw(metrics[..last], id);
      assert metrics == metrics[..last] + [metrics[last]];
      if NewestOf(metrics[..last], id).Some? && NewestOf(metrics, id) == NewestOf(metrics[..last], id) {
        var i :| FirstNewest(metrics[..last], id, i, NewestOf(metrics[..last], id).value);
        assert FirstNewest(metrics, id, i, NewestOf(metrics, id).value);
      } else if NewestOf(metrics, id).Some? {
        assert FirstNewest(metrics, id, last, metrics[last]);
      }
    }
  }

  lemma NewestSnoc(metrics: seq<NodeMetric>, i: nat, id: string)
    requires i < |metrics|
    ensures var m, before := metrics[i], NewestOf(metrics[..i], id);
            NewestOf(metrics[..i + 1], id) ==
            if m.nodeId == id && (before.None? || m.windowEnd > before.value.windowEnd) then Some(m) else before
  {
    assert metrics[..i + 1][..i] == metrics[..i];
  }

  method LatestByNode(metrics: seq<NodeMetric>) returns (result: seq<NodeMetric>)
    ensures NewestList(metrics, result)
  {
    var latest: map<string, NodeMetric> := map[];
    for i := 0 to |metrics|
      invariant forall id :: id in latest ==> NewestOf(metrics[..i], id) == Some(latest[id])
      invariant forall m :: m in metrics[..i] ==> m.nodeId in latest
    {
      var m := metrics[i];
      NewestLaw(metrics[..i], m.nodeId);
      assert metrics[..i + 1] == metrics[..i] + [m];
      if m.nodeId !in latest || m.windowEnd > latest[m.nodeId].windowEnd {
        latest := latest[m.nodeId := m];
      }
    }
    assert metrics[..|metrics|] == metrics;
    result := CollectValues(metrics, latest);
  }

  method CollectValues(ghost metrics: seq<NodeMetric>, latest: map<string, NodeMetric>)
    returns (result: seq<NodeMetric>)
    requires forall id :: id in latest ==> NewestOf(metrics, id) == Some(latest[id])
    requires forall m :: m in metrics ==> m.nodeId in latest
    ensures NewestList(metrics, result)
  {
    result := [];
    var order := Enumerate(latest.Keys);
    for i := 0 to |order|
      invariant |result| == i
      invariant forall j :: 0 <= j < i ==> result[j] == latest[order[j]] && result[j].nodeId == order[j]
    {
      NewestLaw(metrics, order[i]);
      result := result + [latest[order[i]]];
    }
    forall m | m in metrics ensures m.nodeId in Ids(result) {
      var j :| 0 <= j < |order| && order[j] == m.nodeId;
      assert result[j] in result;
    }
  }

  function IdOf(m: NodeMetric): string { m.nodeId }

  predicate LeId(a: NodeMetric, b: NodeMetric) { LexLe(a.nodeId, b.nodeId) }

  lemma DistinctIdsPermutation(a: seq<NodeMetric>, b: seq<NodeMetric>)
    requires multiset(a) == multiset(b) && DistinctIds(a)
    ensures DistinctIds(b)
  {
    SameSize(a, b);
    MapPermutation(a, b, IdOf);
    assert Distinct(MapSeq(a, IdOf));
    DistinctPermutation(MapSeq(a, IdOf), MapSeq(b, IdOf));
    forall i, j | 0 <= i < j < |b| ensures b[i].nodeId != b[j].nodeId {
      assert MapSeq(b, IdOf)[i] != MapSeq(b, IdOf)[j];
    }
  }

  method SortById(metrics: seq<NodeMetric>) returns (sorted: seq<NodeMetric>)
    requires DistinctIds(metrics)
    ensures multiset(sorted) == multiset(metrics) && DistinctIds(sorted) && SortedById(sorted)
  {
    LexOrder();
    assert TotalPreorder(LeId);
    SortBySorted(metrics, LeId);
    sorted := SortBy(metrics, LeId);
    DistinctIdsPermutation(metrics, sorted);
    assert forall i, j :: 0 <= i < j < |sorted| ==> LeId(sorted[i], sorted[j]);
  }

  /** The candidate list is determined by the metrics: neither map order nor sorting shows. */
  lemma CandidatesUnique(cfg: Config, now: Instant, metrics: seq<NodeMetric>, a: seq<NodeMetric>, b: seq<NodeMetric>)
    requires CandidateList(cfg, now, metrics, a) && CandidateList(cfg, now, metrics, b)
    ensures a == b
  {
    forall m ensures multiset(a)[m] == multiset(b)[m] {
      DistinctMultiplicity(a, m);
      DistinctMultiplicity(b, m);
      assert m in a <==> m in b;
    }
    LexOrder();
    forall x, y | x in a && y in a && LeId(x, y) && LeId(y, x) ensures x == y {
      assert x.nodeId == y.nodeId;
    }
    SortedUnique(a, b, LeId);
  }

  ghost predicate AllNewest(metrics: seq<NodeMetric>, test: NodeMetric -> bool) {
    metrics != []
    && forall id :: id in Ids(metrics) ==> NewestOf(metrics, id).Some? && test(NewestOf(metrics, id).value)
  }

  function FutureTest(cfg: Config, now: Instant): NodeMetric -> bool { m => IsFuture(cfg, now, m) }

  function StaleTest(cfg: Config, now: Instant): NodeMetric -> bool {
    m => !IsFuture(cfg, now, m) && IsStale(cfg, now, m)
  }

  /** Why there are fewer than two candidates. */
  ghost function Shortage(cfg: Config, now: Instant, metrics: seq<NodeMetric>): Error {
    if AllNewest(metrics, FutureTest(cfg, now)) then FutureMetrics
    else if AllNewest(metrics, StaleTest(cfg, now)) then StaleMetrics
    else InsufficientCandidates
  }

  lemma NewestListAll(metrics: seq<NodeMetric>, latest: seq<NodeMetric>, test: NodeMetric -> bool)
    requires NewestList(metrics, latest)
    ensures AllNewest(metrics, test) <==> latest != [] && forall i :: 0 <= i < |latest| ==> test(latest[i])
  {
    if latest != [] {
      assert NewestOf(metrics, latest[0].nodeId) == Some(latest[0]);
      NewestLaw(metrics, latest[0].nodeId);
      assert metrics != [];
    }
    if metrics != [] { assert metrics[0].nodeId in Ids(latest); }
    forall id | id in Ids(metrics) ensures NewestOf(metrics, id).Some? && NewestOf(metrics, id).value in latest {
      assert id in Ids(latest);
    }
    forall m | m in latest ensures m.nodeId in Ids(metrics) {
      NewestLaw(metrics, m.nodeId);
    }
  }

  /** What candidate selection answers: the candidate list if it has at least two members, else why not. */
  ghost predicate IsSelection(cfg: Config, now: Instant, metrics: seq<NodeMetric>, r: Result<seq<NodeMetric>, Error>) {
    match r
    case Ok(E) => CandidateList(cfg, now, metrics, E) && |E| >= 2
    case Err(e) => e == Shortage(cfg, now, metrics) && exists E :: CandidateList(cfg, now, metrics, E) && |E| < 2
  }

  method SelectCandidates(cfg: Config, now: Instant, metrics: seq<NodeMetric>)
    returns (r: Result<seq<NodeMetric>, Error>)
    ensures IsSelection(cfg, now, metrics, r)
  {
    hide CandidateList;
    var latest := LatestByNode(metrics);
    var eligible, staleCount, futureCount := FilterLatest(cfg, now, latest);
    var sorted := SortById(eligible);
    SortedAreCandidates(cfg, now, metrics, latest, eligible, sorted);
    NewestListAll(metrics, latest, FutureTest(cfg, now));
    NewestListAll(metrics, latest, StaleTest(cfg, now));
    if |sorted| < 2 {
      if futureCount > 0 && futureCount == |latest| { return Err(FutureMetrics); }
      if staleCount > 0 && staleCount == |latest| { return Err(StaleMetrics); }
      return Err(InsufficientCandidates);
    }
    return Ok(sorted);
  }

  /** The metric is the newest of its node, neither from the future nor stale, healthy, sampled and below saturation. */
  ghost predicate Usable(cfg: Config, now: Instant, metrics: seq<NodeMetric>, m: NodeMetric) {
    && NewestOf(metrics, m.nodeId) == Some(m)
    && m.windowEnd <= now + cfg.futureTolerance && now - m.windowEnd <= cfg.staleAfter
    && m.healthy && m.requests >= cfg.minimumSamples && m.saturation < cfg.saturationLimit
  }

  ghost predicate AllInFuture(cfg: Config, now: Instant, metrics: seq<NodeMetric>) {
    metrics != []
    && forall m :: m in metrics && NewestOf(metrics, m.nodeId) == Some(m) ==> m.windowEnd > now + cfg.futureTolerance
  }

  ghost predicate AllStale(cfg: Config, now: Instant, metrics: seq<NodeMetric>) {
    metrics != []
    && forall m :: m in metrics && NewestOf(metrics, m.nodeId) == Some(m) ==>
         m.windowEnd <= now + cfg.futureTolerance && now - m.windowEnd > cfg.staleAfter
  }

  /** Candidate selection by the fields of the metrics: it succeeds exactly when two nodes are usable, with all usable
      ones; otherwise it says whether every node's newest metric is from the future, or every one is stale. */
  lemma SelectionLaw(cfg: Config, now: Instant, metrics: seq<NodeMetric>, r: Result<seq<NodeMetric>, Error>)
    requires IsSelection(cfg, now, metrics, r)
    ensures r.Ok? <==>
      exists x, y :: Usable(cfg, now, metrics, x) && Usable(cfg, now, metrics, y) && x.nodeId != y.nodeId
    ensures r.Ok? ==> forall m :: m in r.value <==> Usable(cfg, now, metrics, m)
    ensures r.Err? ==> r.error == if AllInFuture(cfg, now, metrics) then FutureMetrics
                                  else if AllStale(cfg, now, metrics) then StaleMetrics else InsufficientCandidates
  {
    hide NewestOf;
    var E: seq<NodeMetric> :| CandidateList(cfg, now, metrics, E) && (r.Ok? ==> E == r.value) && (r.Err? ==> |E| < 2);
    assert forall m :: m in E <==> Usable(cfg, now, metrics, m);
    if |E| >= 2 {
      assert E[0] in E && E[1] in E;
      assert Usable(cfg, now, metrics, E[0]) && Usable(cfg, now, metrics, E[1]) && E[0].nodeId != E[1].nodeId;
    }
    AllNewestIff(metrics, FutureTest(cfg, now));
    AllNewestIff(metrics, StaleTest(cfg, now));
  }

  lemma AllNewestIff(metrics: seq<NodeMetric>, test: NodeMetric -> bool)
    ensures AllNewest(metrics, test) <==>
            metrics != [] && forall m :: m in metrics && NewestOf(metrics, m.nodeId) == Some(m) ==> test(m)
  {
    hide NewestOf;
    forall id | id in Ids(metrics)
      ensures NewestOf(metrics, id).Some? && NewestOf(metrics, id).value in metrics
              && NewestOf(metrics, id).value.nodeId == id
    {
      NewestLaw(metrics, id);
    }
  }

  lemma SortedAreCandidates(cfg: Config, now: Instant, metrics: seq<NodeMetric>, latest: seq<NodeMetric>,
                            eligible: seq<NodeMetric>, sorted: seq<NodeMetric>)
    requires NewestList(metrics, latest)
    requires forall m :: m in eligible <==> m in latest && IsEligible(cfg, now, m)
    requires multiset(sorted) == multiset(eligible) && DistinctIds(sorted) && SortedById(sorted)
    ensures CandidateList(cfg, now, metrics, sorted)
  {
    SameMembers(sorted, eligible);
    forall m ensures m in sorted <==> NewestOf(metrics, m.nodeId) == Some(m) && IsEligible(cfg, now, m) {
      if NewestOf(metrics, m.nodeId) == Some(m) {
        NewestLaw(metrics, m.nodeId);
        var x :| x in latest && x.nodeId == m.nodeId;
        assert NewestOf(metrics, x.nodeId) == Some(x);
        assert x == m;
      }
    }
  }

  method FilterLatest(cfg: Config, now: Instant, latest: seq<NodeMetric>)
    returns (eligible: seq<NodeMetric>, staleCount: nat, futureCount: nat)
    requires DistinctIds(latest)
    ensures DistinctIds(eligible)
    ensures forall m :: m in eligible <==> m in latest && IsEligible(cfg, now, m)
    ensures futureCount == |latest| <==> forall i :: 0 <= i < |latest| ==> FutureTest(cfg, now)(latest[i])
    ensures staleCount == |latest| <==> forall i :: 0 <= i < |latest| ==> StaleTest(cfg, now)(latest[i])
  {
    eligible, staleCount, futureCount := [], 0, 0;
    for i := 0 to |latest|
      invariant DistinctIds(eligible)
      invariant forall m :: m in eligible <==> m in latest[..i] && IsEligible(cfg, now, m)
      invariant futureCount <= i && staleCount <= i
      invariant futureCount == i <==> forall j :: 0 <= j < i ==> FutureTest(cfg, now)(latest[j])
      invariant staleCount == i <==> forall j :: 0 <= j < i ==> StaleTest(cfg, now)(latest[j])
    {
      var m := latest[i];
      assert latest[..i + 1] == latest[..i] + [m];
      assert forall j :: 0 <= j < |eligible| ==> eligible[j] in latest[..i];
      if m.windowEnd > now + cfg.futureTolerance {
        futureCount := futureCount + 1;
      } else if now - m.windowEnd > cfg.staleAfter {
        staleCount := staleCount + 1;
      } else if !m.healthy || m.requests < cfg.minimumSamples || m.saturation >= cfg.saturationLimit {
      } else {
        eligible := eligible + [m];
      }
    }
  }
}
