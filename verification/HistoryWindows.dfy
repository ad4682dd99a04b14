/** The service hands the detector only the newest windows of every node; the evaluator keeps a whole series.  What the
    cap leaves of their agreement. */
module HistoryWindows {
  import opened Domain
  import opened Ordering
  import opened OrderStatistics
  import opened Evaluator
  import Detector

  /** The service's default. */
  const HISTORY_WINDOWS := 15

  function LastOf<T>(s: seq<T>, n: nat): seq<T> { if |s| <= n then s else s[|s| - n..] }

  /** The newest `windows` samples of every node of a chronological history. */
  function CutHistory(history: seq<NodeMetric>, windows: nat): seq<NodeMetric> {
    if history == [] then []
    else (if |Detector.OfNode(history, history[0].nodeId)| <= windows then [history[0]] else [])
         + CutHistory(history[1..], windows)
  }

  lemma {:induction false} OfNodeConcat(a: seq<NodeMetric>, b: seq<NodeMetric>, node: string)
    ensures Detector.OfNode(a + b, node) == Detector.OfNode(a, node) + Detector.OfNode(b, node)
    decreases |b|
  {
    if b == [] {
      assert a + b == a;
    } else {
      var last := |b| - 1;
      OfNodeConcat(a, b[..last], node);
      assert (a + b)[..|a + b| - 1] == a + b[..last];
    }
  }

  lemma OfNodeOne(m: NodeMetric, node: string)
    ensures Detector.OfNode([m], node) == if m.nodeId == node then [m] else []
  {
    assert [m][..0] == [];
  }

  /** The cut keeps just the end of every node's history. */
  lemma {:induction false} CutOfNode(history: seq<NodeMetric>, windows: nat, node: string)
    ensures Detector.OfNode(CutHistory(history, windows), node) == LastOf(Detector.OfNode(history, node), windows)
  {
    hide Detector.OfNode;
    hide LastOf;
    if history == [] {
      NothingKept(windows, node);
    } else {
      var first, rest := history[0], history[1..];
      var kept := if |Detector.OfNode(history, first.nodeId)| <= windows then [first] else [];
      assert CutHistory(history, windows) == kept + CutHistory(rest, windows);
      CutOfNode(rest, windows, node);
      hide CutHistory;
      assert history == [first] + rest;
      OfNodeConcat([first], rest, node);
      OfNodeOne(first, node);
      OfNodeConcat(kept, CutHistory(rest, windows), node);
      NothingKept(windows, node);
      var own := Detector.OfNode(rest, node);
      LastStep(first, own, windows);
      if first.nodeId == node {
        assert Detector.OfNode(history, node) == [first] + own;
        assert kept == if |own| < windows then [first] else [];
      } else {
        assert Detector.OfNode(history, node) == [] + own == own;
        assert Detector.OfNode(kept, node) == [];
      }
      assert [] + LastOf(own, windows) == LastOf(own, windows);
    }
  }

  lemma NothingKept(windows: nat, node: string)
    ensures Detector.OfNode([], node) == [] && LastOf<NodeMetric>([], windows) == []
  {
  }

  lemma LastStep<T>(x: T, s: seq<T>, n: nat)
    ensures LastOf([x] + s, n) == if |s| < n then [x] + LastOf(s, n) else LastOf(s, n)
  {
    if |s| >= n { assert ([x] + s)[|s| + 1 - n..] == s[|s| - n..]; }
  }

  /** The rows of the series that a capped history keeps beside the newest one. */
  function Kept(rows: seq<Metric>, i: nat, windows: nat): seq<Metric>
    requires i < |rows| && windows > 0
  {
    LastOf(SeriesOf(rows[..i], rows[i].Key()), windows - 1)
  }

  /** What the service's detector reads of the scope of row i. */
  function ServiceHistory(rows: seq<Metric>, i: nat, windows: nat): seq<NodeMetric>
    requires i < |rows|
  {
    CutHistory(ScopeHistory(rows, i), windows)
  }

  lemma CutQualifies(all: seq<Metric>, past: seq<Metric>, m: Metric, windows: nat)
    requires windows > 0 && all == past + [m]
    requires forall x :: x in all ==> x.Key() == m.Key()
    requires forall i, j :: 0 <= i < j < |all| ==> all[i].windowEnd < all[j].windowEnd
    ensures SameSeries(LastOf(past, windows - 1), m, LastOf(MapSeq(all, Online), windows))
  {
    var kept := LastOf(past, windows - 1);
    var drop := |past| - |kept|;
    assert kept + [m] == all[drop..];
    assert forall k :: drop <= k < |all| ==> all[k] in all;
    assert LastOf(MapSeq(all, Online), windows) == MapSeq(kept + [m], Online);
    OrderedQualifies(kept, m);
  }

  /** The service's history of loaded rows holds, of the row's node, the kept rows and the row itself. */
  lemma ServiceHistoryQualifies(rows: seq<Metric>, i: nat, windows: nat)
    requires Loaded(rows) && i < |rows| && windows > 0
    ensures SameSeries(Kept(rows, i, windows), rows[i],
                       Detector.OfNode(ServiceHistory(rows, i, windows), rows[i].nodeId))
  {
    hide SeriesOf;
    hide ScopeOf;
    hide SameSeries;
    hide Detector.OfNode;
    hide CutHistory;
    hide LastOf;
    var past, m := SeriesOf(rows[..i], rows[i].Key()), rows[i];
    SeriesOrdered(rows[..i + 1], m.Key());
    ScopeSeries(rows[..i + 1], m.Key());
    SeriesSnoc(rows, i, m.Key());
    CutOfNode(ScopeHistory(rows, i), windows, m.nodeId);
    CutQualifies(past + [m], past, m, windows);
  }

  /** The evaluator's tests give the same answers on both histories. */
  predicate SameAnswers(kept: seq<Metric>, past: seq<Metric>, m: Metric) {
    && (LatencyFires(kept, m) <==> LatencyFires(past, m))
    && (ErrorFires(kept, m) <==> ErrorFires(past, m))
    && (MissFires(kept, m) <==> MissFires(past, m))
  }

  lemma CodesEqualIff(a: bool, b: bool, c: bool, a': bool, b': bool, c': bool)
    ensures Detector.When(a, Detector.LATENCY) + Detector.When(b, Detector.ERROR_RATE)
              + Detector.When(c, Detector.CACHE_MISS)
            == Detector.When(a', Detector.LATENCY) + Detector.When(b', Detector.ERROR_RATE)
                 + Detector.When(c', Detector.CACHE_MISS)
            <==> a == a' && b == b' && c == c'
  {
    var codes := Detector.When(a, Detector.LATENCY) + Detector.When(b, Detector.ERROR_RATE)
                 + Detector.When(c, Detector.CACHE_MISS);
    var codes' := Detector.When(a', Detector.LATENCY) + Detector.When(b', Detector.ERROR_RATE)
                  + Detector.When(c', Detector.CACHE_MISS);
    assert Detector.When(false, Detector.RULE) + codes == codes;
    assert Detector.When(false, Detector.RULE) + codes' == codes';
    CodeMembers(false, a, b, c, codes);
    CodeMembers(false, a', b', c', codes');
  }

  /** The online detector on a capped history applies the history tests to the kept rows, the evaluator to the whole
      series: with at least 100 requests they give the same codes (the location rule apart) if and only if there is too
      little history or the three tests answer alike on both.  (A cap of five windows or less never leaves the history
      tests enough.) */
  lemma CappedDetector(rows: seq<Metric>, i: nat, windows: nat, online: seq<NodeMetric>, signals: map<string, Signal>)
    requires i < |rows| && windows > 0
    requires SameSeries(Kept(rows, i, windows), rows[i], Detector.OfNode(online, rows[i].nodeId))
    requires Detector.IsEvaluation(DEFAULTS, online, signals)
    ensures rows[i].nodeId in signals
    ensures var m, codes, kept := rows[i], signals[rows[i].nodeId].reasonCodes, Kept(rows, i, windows);
            && (Detector.LATENCY in codes <==> |kept| >= 5 && LatencyFires(kept, m))
            && (Detector.ERROR_RATE in codes <==> |kept| >= 5 && m.requests >= 100 && ErrorFires(kept, m))
            && (Detector.CACHE_MISS in codes <==> |kept| >= 5 && MissFires(kept, m))
    ensures var m, codes, kept := rows[i], signals[rows[i].nodeId].reasonCodes, Kept(rows, i, windows);
            var past := SeriesOf(rows[..i], m.Key());
            m.requests >= 100 && windows > 5 ==>
              (codes == Detector.When(Detector.RULE in codes, Detector.RULE) + Verdict(rows, EwmaMad, i).reasons <==>
               |past| < 5 || SameAnswers(kept, past, m))
  {
    hide LatencyFires;
    hide ErrorFires;
    hide MissFires;
    hide SeriesOf;
    hide SameSeries;
    hide Detector.Evaluation;
    var m, kept, past := rows[i], Kept(rows, i, windows), SeriesOf(rows[..i], rows[i].Key());
    var groups: map<string, seq<NodeMetric>>, nodes: seq<string> :|
      Detector.Evaluation(DEFAULTS, online, signals, groups, nodes);
    SignalOnline(kept, m, online, signals, groups, nodes);
    hide OnlineRule;
    assert windows > 5 ==> (|kept| >= 5 <==> |past| >= 5);
    hide Kept;
    TestCodes(OnlineRule(groups, nodes, m.nodeId), kept, past, m, signals[m.nodeId].reasonCodes);
  }

  lemma TestCodes(rule: bool, kept: seq<Metric>, past: seq<Metric>, m: Metric, codes: seq<string>)
    requires codes == Detector.When(rule, Detector.RULE)
                      + (Detector.When(|kept| >= 5 && LatencyFires(kept, m), Detector.LATENCY)
                         + Detector.When(|kept| >= 5 && m.requests >= 100 && ErrorFires(kept, m), Detector.ERROR_RATE)
                         + Detector.When(|kept| >= 5 && MissFires(kept, m), Detector.CACHE_MISS))
    ensures Detector.LATENCY in codes <==> |kept| >= 5 && LatencyFires(kept, m)
    ensures Detector.ERROR_RATE in codes <==> |kept| >= 5 && m.requests >= 100 && ErrorFires(kept, m)
    ensures Detector.CACHE_MISS in codes <==> |kept| >= 5 && MissFires(kept, m)
    ensures m.requests >= 100 && (|kept| >= 5 <==> |past| >= 5) ==>
              (codes == Detector.When(Detector.RULE in codes, Detector.RULE) + EwmaReasons(past, m) <==>
               |past| < 5 || SameAnswers(kept, past, m))
  {
    hide LatencyFires;
    hide ErrorFires;
    hide MissFires;
    var enough := |kept| >= 5;
    var a, b, c := enough && LatencyFires(kept, m), enough && m.requests >= 100 && ErrorFires(kept, m),
                   enough && MissFires(kept, m);
    CodeMembers(rule, a, b, c, codes);
    if m.requests >= 100 && (enough <==> |past| >= 5) {
      CodesEqualIff(a, b, c, enough && LatencyFires(past, m), enough && ErrorFires(past, m),
                    enough && MissFires(past, m));
      SameTail(Detector.When(rule, Detector.RULE),
               Detector.When(a, Detector.LATENCY) + Detector.When(b, Detector.ERROR_RATE)
               + Detector.When(c, Detector.CACHE_MISS), EwmaReasons(past, m));
    }
  }

  lemma SameTail(front: seq<string>, x: seq<string>, y: seq<string>)
    ensures front + x == front + y <==> x == y
  {
    assert (front + x)[|front|..] == x && (front + y)[|front|..] == y;
  }

  /** For a row with fewer predecessors than the cap the service's detector and the evaluator agree as on the whole
      series. */
  lemma AgreeWithinCap(rows: seq<Metric>, i: nat, windows: nat, signals: map<string, Signal>)
    requires Loaded(rows) && i < |rows| && |SeriesOf(rows[..i], rows[i].Key())| < windows
    requires Detector.IsEvaluation(DEFAULTS, ServiceHistory(rows, i, windows), signals)
    ensures rows[i].nodeId in signals
    ensures var m, v, s := rows[i], Verdict(rows, EwmaMad, i), signals[rows[i].nodeId];
            && (m.requests >= 100 ==>
                  s.reasonCodes == Detector.When(Detector.RULE in s.reasonCodes, Detector.RULE) + v.reasons)
            && (v.detected ==> s.anomalous)
  {
    hide Verdict;
    hide SeriesOf;
    hide SameSeries;
    hide ServiceHistory;
    hide Detector.IsEvaluation;
    ServiceHistoryQualifies(rows, i, windows);
    EvaluatorAgreesWithDetector(rows, i, ServiceHistory(rows, i, windows), signals);
  }

  // ---------------------------------------------------------------- beyond the cap they part

  /** Hit ratios of a series: three low ones, eight high ones, then low ones again. */
  function HitAt(i: nat): real { if 3 <= i < 11 then 0.9 else 0.3 }

  function RowAt(i: nat): Metric { Metric("r", i * 60, (i + 1) * 60, "au", "isp", "a", 100, 0.0, HitAt(i), 50.0) }

  const SERIES: seq<Metric> := seq(18, i requires 0 <= i < 18 => RowAt(i))

  const EARLIER: seq<Metric> := seq(17, i requires 0 <= i < 17 => RowAt(i))

  const RECENT: seq<Metric> := seq(14, i requires 0 <= i < 14 => RowAt(i + 3))

  lemma SeriesFacts()
    ensures Loaded(SERIES) && SERIES[..17] == EARLIER && SeriesOf(SERIES[..17], SERIES[17].Key()) == EARLIER
    ensures Kept(SERIES, 17, HISTORY_WINDOWS) == RECENT
  {
    assert SERIES[..17] == EARLIER;
    OneSeries(EARLIER, SERIES[17].Key());
    hide SeriesOf;
    assert EARLIER[3..] == RECENT;
  }

  /** The newest fourteen are mostly high, ... */
  lemma RecentMedian()
    ensures Median(MapSeq(RECENT, RowHit)) == 0.9
  {
    hide Median;
    var hits := MapSeq(RECENT, RowHit);
    CountAtLeast(hits, AtLeast(0.9), 8);
    CountBounds(hits, AtMost(0.9));
    MedianMajority(hits, 0.9, 0.9);
  }

  /** ... all seventeen mostly low. */
  lemma EarlierMedian()
    ensures Median(MapSeq(EARLIER, RowHit)) <= 0.3
  {
    hide Median;
    var hits := MapSeq(EARLIER, RowHit);
    var oldest, middle, newest := hits[..3], hits[3..11], hits[11..];
    assert hits == oldest + (middle + newest);
    CountConcat(oldest, middle + newest, AtMost(0.3));
    CountConcat(middle, newest, AtMost(0.3));
    CountBounds(oldest, AtMost(0.3));
    CountBounds(newest, AtMost(0.3));
    CountBounds(hits, AtLeast(0.0));
    hide Count;
    MedianMajority(hits, 0.0, 0.3);
  }

  /** On the last row of that series, which has 100 requests, the service's detector in its default configuration raises
      the cache test and the evaluator does not. */
  lemma CapSeparates(signals: map<string, Signal>)
    requires Detector.IsEvaluation(DEFAULTS, ServiceHistory(SERIES, 17, HISTORY_WINDOWS), signals)
    ensures Loaded(SERIES) && SERIES[17].requests == 100 && "a" in signals
    ensures Detector.CACHE_MISS in signals["a"].reasonCodes
    ensures Detector.CACHE_MISS !in Verdict(SERIES, EwmaMad, 17).reasons
  {
    hide Median;
    hide LatencyFires;
    hide ErrorFires;
    hide ServiceHistory;
    hide Detector.IsEvaluation;
    hide SameSeries;
    hide SeriesOf;
    SeriesFacts();
    ServiceHistoryQualifies(SERIES, 17, HISTORY_WINDOWS);
    CappedDetector(SERIES, 17, HISTORY_WINDOWS, ServiceHistory(SERIES, 17, HISTORY_WINDOWS), signals);
    RecentMedian();
    EarlierMedian();
    Detector.CodesDistinct();
  }
}
