/** What every reachable state of the analytics job guarantees, for every arrival order and watermark schedule. */
module PipelineProperties {
  import opened Ordering
  import opened OrderStatistics
  import opened RealArithmetic
  import opened DeliveryEvents
  import opened Accumulator
  import opened Pipeline

  // ---------------------------------------------------------------- batch view of the arrivals

  /** The arrival counts for window w: it falls into it and was not too late. */
  predicate Counts(b: Branch, w: Window, a: Arrival) { WindowOf(b, a.event) == w && !Expired(b, w, a.mark) }

  /** The batch group-by: the deduplicated, not-too-late events of one window, in order of arrival. */
  function Batch(b: Branch, w: Window, arrivals: seq<Arrival>): seq<DeliveryEvent>
    decreases |arrivals|
  {
    if arrivals == [] then []
    else
      var a := arrivals[|arrivals| - 1];
      Batch(b, w, arrivals[..|arrivals| - 1]) + (if Counts(b, w, a) then [a.event] else [])
  }

  /** How many of them arrived before the window closed. */
  function Early(b: Branch, w: Window, arrivals: seq<Arrival>): nat
    decreases |arrivals|
  {
    if arrivals == [] then 0
    else
      var a := arrivals[|arrivals| - 1];
      Early(b, w, arrivals[..|arrivals| - 1]) + (if Counts(b, w, a) && !Closed(b, w, a.mark) then 1 else 0)
  }

  function TooLate(b: Branch, arrivals: seq<Arrival>): seq<DeliveryEvent>
    decreases |arrivals|
  {
    if arrivals == [] then []
    else
      var a := arrivals[|arrivals| - 1];
      TooLate(b, arrivals[..|arrivals| - 1])
      + (if Expired(b, WindowOf(b, a.event), a.mark) then [a.event] else [])
  }

  /** The rows a branch has emitted for one window, in order. */
  function RowsOf(rows: seq<Row>, w: Window): seq<Row>
    decreases |rows|
  {
    if rows == [] then []
    else RowsOf(rows[..|rows| - 1], w) + (if rows[|rows| - 1].window == w then [rows[|rows| - 1]] else [])
  }

  lemma BatchSnoc(b: Branch, w: Window, arrivals: seq<Arrival>, a: Arrival)
    ensures Batch(b, w, arrivals + [a]) ==
            if Counts(b, w, a) then Batch(b, w, arrivals) + [a.event] else Batch(b, w, arrivals)
    ensures Early(b, w, arrivals + [a]) ==
            Early(b, w, arrivals) + (if Counts(b, w, a) && !Closed(b, w, a.mark) then 1 else 0)
    ensures TooLate(b, arrivals + [a]) ==
            if Expired(b, WindowOf(b, a.event), a.mark) then TooLate(b, arrivals) + [a.event] else TooLate(b, arrivals)
  {
    assert (arrivals + [a])[..|arrivals|] == arrivals;
  }

  lemma RowsSnoc(rows: seq<Row>, r: Row, w: Window)
    ensures RowsOf(rows + [r], w) == if r.window == w then RowsOf(rows, w) + [r] else RowsOf(rows, w)
  {
    assert (rows + [r])[..|rows|] == rows;
  }

  // ---------------------------------------------------------------- the operator invariant

  /** Number of events in the row of revision 0: all that came before the window closed, or the first late one. */
  function First(early: nat): nat { if early == 0 then 1 else early }

  /** The emitted rows of one window: revisions 0, 1, 2, ... where each one after 0 adds exactly one event and the last
      one covers the whole batch. */
  ghost predicate RevisionHistory(rs: seq<Row>, w: Window, batch: seq<DeliveryEvent>, early: nat) {
    && First(early) <= |batch|
    && |rs| == |batch| - First(early) + 1
    && forall i :: 0 <= i < |rs| ==> rs[i] == Row(w, i, SnapshotOf(Fold(batch[..First(early) + i])))
  }

  ghost predicate WindowOk(b: Branch, op: Operator, arrivals: seq<Arrival>, mark: Mark, w: Window) {
    var batch, early, rs := Batch(b, w, arrivals), Early(b, w, arrivals), RowsOf(op.rows, w);
    && (w in op.cells <==> batch != [] && !Expired(b, w, mark))
    && (w in op.cells ==> op.cells[w] == Cell(Fold(batch), |rs|))
    && early <= |batch|
    && (!Closed(b, w, mark) ==> early == |batch|)
    && if batch == [] || !Closed(b, w, mark) then rs == [] else RevisionHistory(rs, w, batch, early)
  }

  ghost predicate OperatorOk(b: Branch, op: Operator, arrivals: seq<Arrival>, mark: Mark) {
    && op.late == TooLate(b, arrivals)
    && forall w :: WindowOk(b, op, arrivals, mark, w)
  }

  lemma RevisionAppend(rs: seq<Row>, w: Window, batch: seq<DeliveryEvent>, early: nat, e: DeliveryEvent)
    requires RevisionHistory(rs, w, batch, early)
    ensures RevisionHistory(rs + [Row(w, |rs|, SnapshotOf(Fold(batch + [e])))], w, batch + [e], early)
  {
    hide SnapshotOf;
    hide Fold;
    var rs', batch' := rs + [Row(w, |rs|, SnapshotOf(Fold(batch + [e])))], batch + [e];
    forall i | 0 <= i < |rs'| ensures rs'[i] == Row(w, i, SnapshotOf(Fold(batch'[..First(early) + i]))) {
      if i < |rs| {
        assert batch'[..First(early) + i] == batch[..First(early) + i];
      } else {
        assert batch'[..First(early) + i] == batch';
      }
    }
  }

  lemma RevisionStart(w: Window, batch: seq<DeliveryEvent>, early: nat)
    requires batch != [] && First(early) == |batch|
    ensures RevisionHistory([Row(w, 0, SnapshotOf(Fold(batch)))], w, batch, early)
  {
    hide SnapshotOf;
    hide Fold;
    assert batch[..|batch|] == batch;
  }

  /** The window of the event itself. */
  lemma OwnWindow(b: Branch, op: Operator, arrivals: seq<Arrival>, mark: Mark, e: DeliveryEvent, at: int)
    requires WindowOk(b, op, arrivals, mark, WindowOf(b, e)) && !Expired(b, WindowOf(b, e), mark)
    ensures WindowOk(b, OnEvent(b, op, e, mark), arrivals + [Arrival(e, at, mark)], mark, WindowOf(b, e))
  {
    hide SnapshotOf;
    hide Fold;
    hide AddTo;
    hide RevisionHistory;
    hide WindowOf;
    hide Batch;
    hide Early;
    hide RowsOf;
    var w := WindowOf(b, e);
    var batch, rs := Batch(b, w, arrivals), RowsOf(op.rows, w);
    BatchSnoc(b, w, arrivals, Arrival(e, at, mark));
    FoldSnoc(batch, e);
    FoldNothing();
    var row := Row(w, CellAt(op, w).firings, SnapshotOf(AddTo(CellAt(op, w).acc, e)));
    RowsSnoc(op.rows, row, w);
    assert AddTo(CellAt(op, w).acc, e) == Fold(batch + [e]);
    if Closed(b, w, mark) {
      if batch == [] {
        assert rs + [row] == [row];
        RevisionStart(w, batch + [e], Early(b, w, arrivals));
      } else {
        RevisionAppend(rs, w, batch, Early(b, w, arrivals), e);
      }
    }
  }

  lemma FoldNothing()
    ensures Fold([]) == EMPTY
  {
  }

  lemma OtherWindow(b: Branch, op: Operator, arrivals: seq<Arrival>, mark: Mark, e: DeliveryEvent, at: int, w: Window)
    requires WindowOk(b, op, arrivals, mark, w)
    requires w != WindowOf(b, e) || Expired(b, w, mark)
    ensures WindowOk(b, OnEvent(b, op, e, mark), arrivals + [Arrival(e, at, mark)], mark, w)
  {
    hide SnapshotOf;
    hide Fold;
    hide AddTo;
    hide RevisionHistory;
    hide WindowOf;
    hide Batch;
    hide Early;
    hide RowsOf;
    BatchSnoc(b, w, arrivals, Arrival(e, at, mark));
    var own := WindowOf(b, e);
    RowsSnoc(op.rows, Row(own, CellAt(op, own).firings, SnapshotOf(AddTo(CellAt(op, own).acc, e))), w);
  }

  lemma OnEventKeeps(b: Branch, op: Operator, arrivals: seq<Arrival>, mark: Mark, e: DeliveryEvent, at: int)
    requires OperatorOk(b, op, arrivals, mark)
    ensures OperatorOk(b, OnEvent(b, op, e, mark), arrivals + [Arrival(e, at, mark)], mark)
  {
    hide WindowOk;
    hide WindowOf;
    hide TooLate;
    hide AddTo;
    hide SnapshotOf;
    var op', arrivals' := OnEvent(b, op, e, mark), arrivals + [Arrival(e, at, mark)];
    BatchSnoc(b, WindowOf(b, e), arrivals, Arrival(e, at, mark));
    forall w ensures WindowOk(b, op', arrivals', mark, w) {
      if w == WindowOf(b, e) && !Expired(b, w, mark) {
        OwnWindow(b, op, arrivals, mark, e, at);
      } else {
        OtherWindow(b, op, arrivals, mark, e, at, w);
      }
    }
  }

  lemma {:induction false} FiredRows(rows: seq<Row>, order: seq<Window>, f: Window -> Row, w: Window)
    requires Distinct(order)
    requires forall x :: f(x).window == x
    ensures RowsOf(rows + MapSeq(order, f), w) == if w in order then RowsOf(rows, w) + [f(w)] else RowsOf(rows, w)
    decreases |order|
  {
    hide RowsOf;
    if order == [] {
      assert rows + MapSeq(order, f) == rows;
    } else {
      var last := |order| - 1;
      assert Distinct(order[..last]) && order[last] !in order[..last];
      FiredRows(rows, order[..last], f, w);
      assert rows + MapSeq(order, f) == (rows + MapSeq(order[..last], f)) + [f(order[last])];
      RowsSnoc(rows + MapSeq(order[..last], f), f(order[last]), w);
      assert order == order[..last] + [order[last]];
    }
  }

  lemma OnMarkKeepsWindow(b: Branch, op: Operator, arrivals: seq<Arrival>, mark: Mark, next: int, order: seq<Window>,
                          w: Window)
    requires WindowOk(b, op, arrivals, mark, w)
    requires mark.Below(next) && FiringOrder(b, op, mark, Mark(next), order)
    ensures WindowOk(b, OnMark(b, op, mark, Mark(next), order), arrivals, Mark(next), w)
  {
    hide SnapshotOf;
    hide Fold;
    hide RevisionHistory;
    hide Batch;
    hide Early;
    hide RowsOf;
    FiredRows(op.rows, order, FiringRow(op), w);
    var batch := Batch(b, w, arrivals);
    if batch != [] && Due(b, w, mark, Mark(next)) {
      var row := FiringRow(op)(w);
      assert RowsOf(op.rows, w) + [row] == [row];
      RevisionStart(w, batch, Early(b, w, arrivals));
    }
  }

  lemma OnMarkKeeps(b: Branch, op: Operator, arrivals: seq<Arrival>, mark: Mark, next: int, order: seq<Window>)
    requires OperatorOk(b, op, arrivals, mark)
    requires mark.Below(next) && FiringOrder(b, op, mark, Mark(next), order)
    ensures OperatorOk(b, OnMark(b, op, mark, Mark(next), order), arrivals, Mark(next))
  {
    hide WindowOk;
    hide TooLate;
    hide SnapshotOf;
    forall w ensures WindowOk(b, OnMark(b, op, mark, Mark(next), order), arrivals, Mark(next), w) {
      OnMarkKeepsWindow(b, op, arrivals, mark, next, order, w);
    }
  }

  // ---------------------------------------------------------------- the job invariant

  /** An event seen at least 10 001 ms ahead of the mark justifies it. */
  ghost predicate Justified(arrivals: seq<Arrival>, mark: Mark) {
    mark.Mark? ==> exists j :: 0 <= j < |arrivals| && mark.ms + OUT_OF_ORDERNESS + 1 <= arrivals[j].event.Millis()
  }

  ghost predicate MarksOk(j: Job) {
    && (forall i :: 0 <= i < |j.arrivals| ==> Justified(j.arrivals[..i], j.arrivals[i].mark))
    && Justified(j.arrivals, j.mark)
    && (j.maxSeen.Mark? ==> exists i :: 0 <= i < |j.arrivals| && j.arrivals[i].event.Millis() == j.maxSeen.ms)
  }

  ghost predicate SeenOk(j: Job) {
    && (forall i :: 0 <= i < |j.arrivals| ==>
          j.arrivals[i].event.eventId in j.seen && j.arrivals[i].at <= j.seen[j.arrivals[i].event.eventId])
    && (forall h, i :: 0 <= h < i < |j.arrivals| && j.arrivals[h].event.eventId == j.arrivals[i].event.eventId ==>
          j.arrivals[h].at + DEDUP_TTL <= j.arrivals[i].at)
    && (forall i :: 0 <= i < |j.arrivals| ==> Validate(j.arrivals[i].event).None?)
  }

  ghost predicate CountersOk(s: State) {
    s.counters.received == s.counters.deadLetters + s.counters.duplicates + |s.job.arrivals|
  }

  ghost predicate JobOk(s: State) {
    var j := s.job;
    && OperatorOk(Node, j.node, j.arrivals, j.mark)
    && OperatorOk(Network, j.network, j.arrivals, j.mark)
    && OperatorOk(Content, j.content, j.arrivals, j.mark)
    && MarksOk(j)
    && SeenOk(j)
    && CountersOk(s)
  }

  lemma JustifiedGrows(arrivals: seq<Arrival>, a: Arrival, mark: Mark)
    requires Justified(arrivals, mark)
    ensures Justified(arrivals + [a], mark)
  {
    if mark.Mark? {
      var j :| 0 <= j < |arrivals| && mark.ms + OUT_OF_ORDERNESS + 1 <= arrivals[j].event.Millis();
      assert (arrivals + [a])[j] == arrivals[j];
    }
  }

  lemma AcceptMarks(j: Job, e: DeliveryEvent, at: int)
    requires MarksOk(j)
    ensures MarksOk(Accept(j, e, at))
  {
    hide Justified;
    hide OnEvent;
    var a := Arrival(e, at, j.mark);
    var j' := Accept(j, e, at);
    JustifiedGrows(j.arrivals, a, j.mark);
    forall i | 0 <= i < |j'.arrivals| ensures Justified(j'.arrivals[..i], j'.arrivals[i].mark) {
      assert j'.arrivals[..i] == j.arrivals[..i];
      assert i == |j.arrivals| ==> j.arrivals[..i] == j.arrivals;
    }
    if j'.maxSeen.Mark? {
      assert j'.arrivals[|j.arrivals|] == a;
      if j'.maxSeen == j.maxSeen {
        var i :| 0 <= i < |j.arrivals| && j.arrivals[i].event.Millis() == j.maxSeen.ms;
        assert j'.arrivals[i] == j.arrivals[i];
      }
    }
  }

  lemma AcceptSeen(j: Job, e: DeliveryEvent, at: int)
    requires SeenOk(j) && !Remembered(j.seen, e.eventId, at) && Validate(e).None?
    ensures SeenOk(Accept(j, e, at))
  {
    hide OnEvent;
    hide Validate;
    hide Later;
  }

  lemma AcceptKeeps(s: State, e: DeliveryEvent, at: int)
    requires JobOk(s) && !Remembered(s.job.seen, e.eventId, at) && Validate(e).None?
    ensures JobOk(State(Accept(s.job, e, at), s.counters.(received := s.counters.received + 1)))
  {
    hide OperatorOk;
    hide MarksOk;
    hide SeenOk;
    hide OnEvent;
    hide Validate;
    var j := s.job;
    OnEventKeeps(Node, j.node, j.arrivals, j.mark, e, at);
    OnEventKeeps(Network, j.network, j.arrivals, j.mark, e, at);
    OnEventKeeps(Content, j.content, j.arrivals, j.mark, e, at);
    AcceptMarks(j, e, at);
    AcceptSeen(j, e, at);
  }

  lemma AdvanceKeeps(s: State, a: Action)
    requires JobOk(s) && a.Advance? && Enabled(s.job, a)
    ensures JobOk(Apply(s, a))
  {
    hide OperatorOk;
    hide SeenOk;
    hide OnMark;
    hide FiringOrder;
    var j := s.job;
    OnMarkKeeps(Node, j.node, j.arrivals, j.mark, a.next, a.nodes);
    OnMarkKeeps(Network, j.network, j.arrivals, j.mark, a.next, a.networks);
    OnMarkKeeps(Content, j.content, j.arrivals, j.mark, a.next, a.contents);
    assert SeenOk(Apply(s, a).job) by { SeenUnchanged(j, Apply(s, a).job); }
  }

  lemma SeenUnchanged(j: Job, j': Job)
    requires SeenOk(j) && j'.seen == j.seen && j'.arrivals == j.arrivals
    ensures SeenOk(j')
  {
  }

  lemma StepKeeps(s: State, a: Action)
    requires JobOk(s) && Enabled(s.job, a)
    ensures JobOk(Apply(s, a))
  {
    hide OperatorOk;
    hide MarksOk;
    hide SeenOk;
    hide Accept;
    hide Validate;
    hide OnMark;
    if a.Advance? {
      AdvanceKeeps(s, a);
    } else if DeadLetterCode(a.raw).None? && !Remembered(s.job.seen, a.raw.event.eventId, a.at) {
      AcceptKeeps(s, a.raw.event, a.at);
    }
  }

  lemma InitialOk()
    ensures JobOk(INITIAL)
  {
  }

  lemma {:induction false} RunOk(actions: seq<Action>)
    requires Legal(INITIAL, actions)
    ensures JobOk(Run(INITIAL, actions))
    decreases |actions|
  {
    hide JobOk;
    hide Apply;
    hide Enabled;
    if actions == [] {
      InitialOk();
    } else {
      var last := |actions| - 1;
      RunOk(actions[..last]);
      StepKeeps(Run(INITIAL, actions[..last]), actions[last]);
    }
  }

  lemma ReachableOk(s: State)
    requires Reachable(s)
    ensures JobOk(s)
  {
    hide JobOk;
    hide Run;
    var actions: seq<Action> :| Legal(INITIAL, actions) && s == Run(INITIAL, actions);
    RunOk(actions);
  }

  function OperatorOf(b: Branch, j: Job): Operator {
    match b
    case Node => j.node
    case Network => j.network
    case Content => j.content
  }

  lemma WindowInvariant(s: State, b: Branch, w: Window)
    requires Reachable(s)
    ensures WindowOk(b, OperatorOf(b, s.job), s.job.arrivals, s.job.mark, w)
    ensures OperatorOf(b, s.job).late == TooLate(b, s.job.arrivals)
  {
    hide WindowOk;
    hide MarksOk;
    hide SeenOk;
    hide TooLate;
    ReachableOk(s);
    assert OperatorOk(b, OperatorOf(b, s.job), s.job.arrivals, s.job.mark);
  }

  // ---------------------------------------------------------------- final rows and revisions

  /** The rows published for a window, whatever the arrival order and the watermark schedule: none before it closes or
      without events; afterwards revisions 0, 1, 2, ..., where revision 0 covers the events that came before closing (or
      the first late one), each later revision adds exactly one event, and the last row is the batch group-by over the
      deduplicated, not-too-late events. */
  lemma PublishedRows(s: State, b: Branch, w: Window)
    requires Reachable(s)
    ensures var batch, rs := Batch(b, w, s.job.arrivals), RowsOf(OperatorOf(b, s.job).rows, w);
            && (rs != [] <==> batch != [] && Closed(b, w, s.job.mark))
            && (forall i :: 0 <= i < |rs| ==> rs[i].window == w && rs[i].revision == i)
            && |rs| <= |batch|
            && (forall i :: 0 <= i < |rs| ==> rs[i].snapshot == SnapshotOf(Fold(batch[..|batch| - |rs| + 1 + i])))
            && (rs != [] ==> rs[|rs| - 1].snapshot == SnapshotOf(Fold(batch)))
  {
    hide Batch;
    hide RowsOf;
    hide Fold;
    hide SnapshotOf;
    hide Early;
    hide Reachable;
    WindowInvariant(s, b, w);
    var batch, rs := Batch(b, w, s.job.arrivals), RowsOf(OperatorOf(b, s.job).rows, w);
    if rs != [] { assert batch[..|batch|] == batch; }
  }

  lemma RatioTimes(numerator: int, denominator: int)
    requires denominator > 0
    ensures Ratio(numerator, denominator) * denominator as real == numerator as real
  {
    Quotient(numerator as real, denominator as real);
  }

  /** What the row of a window publishes about the events it covers: their number, the shares of server errors and of
      cache hits among them, their bytes and origin time, and their nearest-rank latencies. */
  lemma PublishedMetrics(b: Branch, w: Window, revision: nat, events: seq<DeliveryEvent>)
    requires events != []
    ensures var x := MetricsOf(b, Row(w, revision, SnapshotOf(Fold(events))));
            && x.windowStart == w.start && x.windowEnd == w.start + (if b.Content? then 300_000 else 60_000)
            && x.revision == revision
            && x.requests == |events|
            && x.error5xxRate * |events| as real == Count(events, (e: DeliveryEvent) => e.httpStatus >= 500) as real
            && 0.0 <= x.error5xxRate <= 1.0
            && x.cacheHitRatio * |events| as real == Count(events, (e: DeliveryEvent) => e.cacheStatus == "HIT") as real
            && 0.0 <= x.cacheHitRatio <= 1.0
            && x.bytesSent as real == RealSum(events, (e: DeliveryEvent) => e.bytesSent as real)
            && x.originMsTotal == RealSum(events, (e: DeliveryEvent) => e.originMs)
            && x.p50 == NearestRank(MapSeq(events, (e: DeliveryEvent) => e.ttfbMs), 0.50)
            && x.p95 == NearestRank(MapSeq(events, (e: DeliveryEvent) => e.ttfbMs), 0.95)
            && x.p99 == NearestRank(MapSeq(events, (e: DeliveryEvent) => e.ttfbMs), 0.99)
  {
    hide Fold;
    hide SnapshotOf;
    hide NearestRank;
    hide MapSeq;
    hide RealSum;
    hide Count;
    hide Ratio;
    SnapshotLaw(events);
    PublishedRates(b, w, revision, SnapshotOf(Fold(events)));
    hide MetricsOf;
  }

  lemma PublishedRates(b: Branch, w: Window, revision: nat, s: Snapshot)
    requires s.requests > 0
    ensures var x := MetricsOf(b, Row(w, revision, s));
            && x.windowStart == w.start && x.windowEnd == w.start + (if b.Content? then 300_000 else 60_000)
            && x.revision == revision && x.requests == s.requests
            && x.error5xxRate * s.requests as real == s.errors5xx as real
            && x.cacheHitRatio * s.requests as real == s.cacheHits as real
            && x.error5xxRate == Ratio(s.errors5xx, s.requests) && x.cacheHitRatio == Ratio(s.cacheHits, s.requests)
            && x.bytesSent == s.bytesSent && x.originMsTotal == s.originMsTotal
            && x.p50 == s.p50 && x.p95 == s.p95 && x.p99 == s.p99
  {
    RatioTimes(s.errors5xx, s.requests);
    RatioTimes(s.cacheHits, s.requests);
  }

  /** How many times a closed window has been published. */
  lemma RevisionCount(s: State, b: Branch, w: Window)
    requires Reachable(s) && Closed(b, w, s.job.mark) && Batch(b, w, s.job.arrivals) != []
    ensures |RowsOf(OperatorOf(b, s.job).rows, w)|
            == |Batch(b, w, s.job.arrivals)| - First(Early(b, w, s.job.arrivals)) + 1
  {
    hide Batch;
    hide RowsOf;
    hide Early;
    hide Fold;
    hide SnapshotOf;
    WindowInvariant(s, b, w);
  }

  /** Two runs that agree on which events count for a window end with the same published row. */
  lemma SameEventsSameRow(s: State, t: State, b: Branch, w: Window)
    requires Reachable(s) && Reachable(t) && Closed(b, w, s.job.mark) && Closed(b, w, t.job.mark)
    requires multiset(Batch(b, w, s.job.arrivals)) == multiset(Batch(b, w, t.job.arrivals))
    requires Batch(b, w, s.job.arrivals) != []
    ensures var rs, rt := RowsOf(OperatorOf(b, s.job).rows, w), RowsOf(OperatorOf(b, t.job).rows, w);
            rs != [] && rt != [] && rs[|rs| - 1].snapshot == rt[|rt| - 1].snapshot
  {
    hide Batch;
    hide RowsOf;
    hide Fold;
    hide SnapshotOf;
    hide Reachable;
    SameSize(Batch(b, w, s.job.arrivals), Batch(b, w, t.job.arrivals));
    PublishedRows(s, b, w);
    PublishedRows(t, b, w);
    SnapshotOrderIrrelevant(Batch(b, w, s.job.arrivals), Batch(b, w, t.job.arrivals));
  }

  // ---------------------------------------------------------------- bounded disorder

  /** Every accepted event is at most `bound` ms behind the largest event time accepted before it. */
  ghost predicate Disorder(arrivals: seq<Arrival>, bound: int) {
    forall h, i :: 0 <= h < i < |arrivals| ==> arrivals[i].event.Millis() >= arrivals[h].event.Millis() - bound
  }

  /** All deduplicated events of a window, too late or not. */
  function AllOf(b: Branch, w: Window, arrivals: seq<Arrival>): seq<DeliveryEvent>
    decreases |arrivals|
  {
    if arrivals == [] then []
    else
      var a := arrivals[|arrivals| - 1];
      AllOf(b, w, arrivals[..|arrivals| - 1]) + (if WindowOf(b, a.event) == w then [a.event] else [])
  }

  lemma InWindow(b: Branch, e: DeliveryEvent)
    ensures WindowOf(b, e).start <= e.Millis() <= LastMs(b, WindowOf(b, e))
  {
    assert Size(b) == MINUTE || Size(b) == 5 * MINUTE;
  }

  /** How late an arrival can be under bounded disorder. */
  lemma DisorderBounds(s: State, b: Branch, i: nat, bound: int)
    requires JobOk(s) && Disorder(s.job.arrivals, bound) && i < |s.job.arrivals|
    ensures bound <= OUT_OF_ORDERNESS + ALLOWED_LATENESS ==>
              !Expired(b, WindowOf(b, s.job.arrivals[i].event), s.job.arrivals[i].mark)
    ensures bound <= OUT_OF_ORDERNESS ==>
              !Closed(b, WindowOf(b, s.job.arrivals[i].event), s.job.arrivals[i].mark)
  {
    hide OperatorOk;
    hide WindowOf;
    var arrivals := s.job.arrivals;
    var a := arrivals[i];
    InWindow(b, a.event);
    assert Justified(arrivals[..i], a.mark);
    if a.mark.Mark? {
      var h :| 0 <= h < i && a.mark.ms + OUT_OF_ORDERNESS + 1 <= arrivals[..i][h].event.Millis();
      assert arrivals[h].event.Millis() - bound <= a.event.Millis();
    }
  }

  lemma {:induction false} NothingDropped(b: Branch, w: Window, arrivals: seq<Arrival>)
    requires forall i :: 0 <= i < |arrivals| ==> !Expired(b, WindowOf(b, arrivals[i].event), arrivals[i].mark)
    ensures Batch(b, w, arrivals) == AllOf(b, w, arrivals) && TooLate(b, arrivals) == []
    decreases |arrivals|
  {
    hide WindowOf;
    if arrivals != [] { NothingDropped(b, w, arrivals[..|arrivals| - 1]); }
  }

  lemma {:induction false} AllEarly(b: Branch, w: Window, arrivals: seq<Arrival>)
    requires forall i :: 0 <= i < |arrivals| ==> !Closed(b, WindowOf(b, arrivals[i].event), arrivals[i].mark)
    ensures Early(b, w, arrivals) == |Batch(b, w, arrivals)|
    decreases |arrivals|
  {
    hide WindowOf;
    if arrivals != [] { AllEarly(b, w, arrivals[..|arrivals| - 1]); }
  }

  /** At most 15 s of disorder: nothing is ever too late and the published rows are the full batch result. */
  lemma FifteenSeconds(s: State, b: Branch, w: Window)
    requires Reachable(s) && Disorder(s.job.arrivals, 15_000)
    ensures OperatorOf(b, s.job).late == []
    ensures var all, rs := AllOf(b, w, s.job.arrivals), RowsOf(OperatorOf(b, s.job).rows, w);
            && (rs != [] <==> all != [] && Closed(b, w, s.job.mark))
            && (rs != [] ==> rs[|rs| - 1].snapshot == SnapshotOf(Fold(all)))
  {
    hide Batch;
    hide AllOf;
    hide TooLate;
    hide RowsOf;
    hide Fold;
    hide SnapshotOf;
    hide Reachable;
    hide WindowOf;
    hide WindowOk;
    hide JobOk;
    ReachableOk(s);
    forall i | 0 <= i < |s.job.arrivals|
      ensures !Expired(b, WindowOf(b, s.job.arrivals[i].event), s.job.arrivals[i].mark)
    {
      DisorderBounds(s, b, i, OUT_OF_ORDERNESS + ALLOWED_LATENESS);
    }
    NothingDropped(b, w, s.job.arrivals);
    WindowInvariant(s, b, w);
    PublishedRows(s, b, w);
  }

  /** At most 10 s of disorder: every window is published once, at revision 0, with the full batch result. */
  lemma TenSeconds(s: State, b: Branch, w: Window)
    requires Reachable(s) && Disorder(s.job.arrivals, 10_000)
    ensures var all := AllOf(b, w, s.job.arrivals);
            RowsOf(OperatorOf(b, s.job).rows, w) ==
            if all != [] && Closed(b, w, s.job.mark) then [Row(w, 0, SnapshotOf(Fold(all)))] else []
  {
    hide Batch;
    hide RowsOf;
    hide Early;
    hide Fold;
    hide SnapshotOf;
    hide Reachable;
    hide WindowOf;
    hide JobOk;
    ReachableOk(s);
    forall i | 0 <= i < |s.job.arrivals|
      ensures !Closed(b, WindowOf(b, s.job.arrivals[i].event), s.job.arrivals[i].mark)
    {
      DisorderBounds(s, b, i, OUT_OF_ORDERNESS);
    }
    AllEarly(b, w, s.job.arrivals);
    WindowInvariant(s, b, w);
    PublishedRows(s, b, w);
    FifteenSeconds(s, b, w);
  }

  // ---------------------------------------------------------------- late events across branches

  lemma NestedWindows(e: DeliveryEvent)
    ensures LastMs(Node, WindowOf(Node, e)) == LastMs(Network, WindowOf(Network, e))
    ensures LastMs(Node, WindowOf(Node, e)) <= LastMs(Content, WindowOf(Content, e))
  {
    var t := e.Millis();
    assert t - t % MINUTE + MINUTE <= t - t % (5 * MINUTE) + 5 * MINUTE by { NestedGrid(t, MINUTE); }
  }

  lemma NestedGrid(t: int, m: int)
    requires m > 0
    ensures t - t % m + m <= t - t % (5 * m) + 5 * m
  {
    var q, r := t / (5 * m), t % (5 * m);
    assert t == q * (5 * m) + r && 0 <= r < 5 * m;
    var a, b := t / m, t % m;
    assert t == a * m + b && 0 <= b < m;
    assert (q + 1) * 5 * m == t - r + 5 * m;
    assert (a + 1) * m == t - b + m;
    LessFactor(a, (q + 1) * 5, m);
    Multiply((q + 1) * 5, a + 1, m);
  }

  lemma LessFactor(a: int, b: int, m: int)
    requires a * m < b * m && m > 0
    ensures a < b
  {
    if a >= b { Multiply(a, b, m); }
  }

  lemma Multiply(a: int, b: int, m: int)
    requires a >= b && m > 0
    ensures a * m >= b * m
  {
  }

  /** The network branch drops exactly what the node branch puts on the audit output; the content branch drops a part of
      it. */
  lemma {:induction false} LateAcrossBranches(arrivals: seq<Arrival>)
    ensures TooLate(Network, arrivals) == TooLate(Node, arrivals)
    ensures multiset(TooLate(Content, arrivals)) <= multiset(TooLate(Node, arrivals))
    decreases |arrivals|
  {
    hide WindowOf;
    hide LastMs;
    if arrivals != [] {
      var last := |arrivals| - 1;
      LateAcrossBranches(arrivals[..last]);
      NestedWindows(arrivals[last].event);
    }
  }

  lemma DropsAreAudited(s: State)
    requires Reachable(s)
    ensures s.job.network.late == s.job.node.late
    ensures multiset(s.job.content.late) <= multiset(s.job.node.late)
  {
    hide Reachable;
    hide JobOk;
    hide TooLate;
    var w := Window(ContentKey(""), 0);
    WindowInvariant(s, Node, w);
    WindowInvariant(s, Network, w);
    WindowInvariant(s, Content, w);
    LateAcrossBranches(s.job.arrivals);
  }
}
