/** Conservation laws of the analytics job: every record is accounted for once, branches agree, replays are
    invisible. */
module PipelineConservation {
  import opened Ordering
  import opened DeliveryEvents
  import opened Accumulator
  import opened Pipeline
  import opened PipelineProperties

  // ---------------------------------------------------------------- node rows against the network row

  /** Requests in the newest row of a window; 0 while there is none. */
  function LatestRequests(rows: seq<Row>, w: Window): int {
    var rs := RowsOf(rows, w);
    if rs == [] then 0 else rs[|rs| - 1].snapshot.requests
  }

  lemma LatestRequestsLaw(s: State, b: Branch, w: Window)
    requires Reachable(s)
    ensures LatestRequests(OperatorOf(b, s.job).rows, w)
            == if Closed(b, w, s.job.mark) then |Batch(b, w, s.job.arrivals)| else 0
  {
    hide Batch;
    hide RowsOf;
    hide Fold;
    hide Reachable;
    hide PercentileOf;
    PublishedRows(s, b, w);
    FoldLaw(Batch(b, w, s.job.arrivals));
  }

  function NodeWindow(location: string, network: string, start: int, node: string): Window {
    Window(NodeKey(location, network, node), start)
  }

  function BatchSizes(location: string, network: string, start: int, arrivals: seq<Arrival>): string -> nat {
    node => |Batch(Node, NodeWindow(location, network, start, node), arrivals)|
  }

  ghost predicate Covers(nodes: seq<string>, arrivals: seq<Arrival>) {
    Distinct(nodes) && forall i :: 0 <= i < |arrivals| ==> arrivals[i].event.nodeId in nodes
  }

  lemma SameMinute(t: int)
    ensures StartOf(Node, t) == StartOf(Network, t)
  {
  }

  lemma SameGrid(e: DeliveryEvent, location: string, network: string, start: int, node: string, mark: Mark)
    ensures Counts(Network, Window(NetworkKey(location, network), start), Arrival(e, 0, mark)) && e.nodeId == node <==>
            Counts(Node, NodeWindow(location, network, start, node), Arrival(e, 0, mark))
  {
    hide StartOf;
    hide DeliveryEvent.Millis;
    SameMinute(e.Millis());
  }

  lemma {:induction false} NodeBatchesSum(location: string, network: string, start: int, nodes: seq<string>,
                                          arrivals: seq<Arrival>)
    requires Covers(nodes, arrivals)
    ensures SumOver(nodes, BatchSizes(location, network, start, arrivals))
            == |Batch(Network, Window(NetworkKey(location, network), start), arrivals)|
    decreases |arrivals|
  {
    hide Counts;
    var w := Window(NetworkKey(location, network), start);
    if arrivals == [] {
      SumZero(nodes, BatchSizes(location, network, start, []));
    } else {
      var last := |arrivals| - 1;
      var a := arrivals[last];
      var f := BatchSizes(location, network, start, arrivals[..last]);
      var g := BatchSizes(location, network, start, arrivals);
      NodeBatchesSum(location, network, start, nodes, arrivals[..last]);
      CountsIgnoresTime(Network, w, a);
      forall node | node in nodes
        ensures g(node) == f(node) + (if Counts(Network, w, a) && node == a.event.nodeId then 1 else 0)
      {
        SameGrid(a.event, location, network, start, node, a.mark);
        CountsIgnoresTime(Node, NodeWindow(location, network, start, node), a);
      }
      if Counts(Network, w, a) {
        SumBump(nodes, f, g, a.event.nodeId);
      } else {
        SumSame(nodes, f, g);
      }
    }
  }

  lemma CountsIgnoresTime(b: Branch, w: Window, a: Arrival)
    ensures Counts(b, w, a) <==> Counts(b, w, Arrival(a.event, 0, a.mark))
  {
  }

  function NodeRequests(rows: seq<Row>, location: string, network: string, start: int): string -> nat {
    node => var r := LatestRequests(rows, NodeWindow(location, network, start, node)); if r < 0 then 0 else r
  }

  /** For every location, network and minute the newest node rows add up to the newest network row. */
  lemma NodeRowsSumToNetworkRow(s: State, location: string, network: string, start: int, nodes: seq<string>)
    requires Reachable(s) && Covers(nodes, s.job.arrivals)
    ensures SumOver(nodes, NodeRequests(s.job.node.rows, location, network, start))
            == LatestRequests(s.job.network.rows, Window(NetworkKey(location, network), start))
  {
    hide Batch;
    hide Reachable;
    hide LatestRequests;
    var w := Window(NetworkKey(location, network), start);
    var f := NodeRequests(s.job.node.rows, location, network, start);
    LatestRequestsLaw(s, Network, w);
    forall node ensures f(node) == if Closed(Network, w, s.job.mark)
                                   then BatchSizes(location, network, start, s.job.arrivals)(node) else 0
    {
      LatestRequestsLaw(s, Node, NodeWindow(location, network, start, node));
    }
    if Closed(Network, w, s.job.mark) {
      SumSame(nodes, f, BatchSizes(location, network, start, s.job.arrivals));
      NodeBatchesSum(location, network, start, nodes, s.job.arrivals);
    } else {
      SumZero(nodes, f);
    }
  }

  // ---------------------------------------------------------------- every record is accounted for

  function WindowSizes(b: Branch, arrivals: seq<Arrival>): Window -> nat { w => |Batch(b, w, arrivals)| }

  /** The arrival's window is listed, unless the arrival was too late. */
  predicate CountedIn(b: Branch, windows: seq<Window>, a: Arrival) {
    Expired(b, WindowOf(b, a.event), a.mark) || WindowOf(b, a.event) in windows
  }

  ghost predicate CoversWindows(b: Branch, windows: seq<Window>, arrivals: seq<Arrival>) {
    Distinct(windows) && forall i :: 0 <= i < |arrivals| ==> CountedIn(b, windows, arrivals[i])
  }

  lemma {:induction false} ArrivalsSplit(b: Branch, windows: seq<Window>, arrivals: seq<Arrival>)
    requires CoversWindows(b, windows, arrivals)
    ensures SumOver(windows, WindowSizes(b, arrivals)) + |TooLate(b, arrivals)| == |arrivals|
    decreases |arrivals|
  {
    hide WindowOf;
    if arrivals == [] {
      SumZero(windows, WindowSizes(b, []));
    } else {
      var last := |arrivals| - 1;
      var a := arrivals[last];
      var w := WindowOf(b, a.event);
      var f, g := WindowSizes(b, arrivals[..last]), WindowSizes(b, arrivals);
      ArrivalsSplit(b, windows, arrivals[..last]);
      if Expired(b, w, a.mark) {
        SumSame(windows, f, g);
      } else {
        SumBump(windows, f, g, w);
      }
    }
  }

  /** The requests the operator holds for a window: in its open cell, else in the newest row it has published. */
  function Aggregated(op: Operator): Window -> nat {
    w => var n := if w in op.cells then op.cells[w].acc.requests else LatestRequests(op.rows, w);
         if n < 0 then 0 else n
  }

  /** `windows` lists, each once, at least the windows that have an open cell or a published row. */
  ghost predicate CoversOperator(op: Operator, windows: seq<Window>) {
    && Distinct(windows)
    && (forall w :: w in op.cells ==> w in windows)
    && (forall i :: 0 <= i < |op.rows| ==> op.rows[i].window in windows)
  }

  lemma {:induction false} BatchContains(b: Branch, arrivals: seq<Arrival>, i: nat)
    requires i < |arrivals| && !Expired(b, WindowOf(b, arrivals[i].event), arrivals[i].mark)
    ensures arrivals[i].event in Batch(b, WindowOf(b, arrivals[i].event), arrivals)
    decreases |arrivals|
  {
    hide WindowOf;
    if i < |arrivals| - 1 { BatchContains(b, arrivals[..|arrivals| - 1], i); }
  }

  lemma {:induction false} RowsOfHas(rows: seq<Row>, w: Window)
    requires RowsOf(rows, w) != []
    ensures exists i :: 0 <= i < |rows| && rows[i].window == w
    decreases |rows|
  {
    var last := |rows| - 1;
    if rows[last].window != w {
      RowsOfHas(rows[..last], w);
      var i :| 0 <= i < last && rows[..last][i].window == w;
      assert rows[i].window == w;
    }
  }

  lemma OperatorListsArrivals(s: State, b: Branch, windows: seq<Window>)
    requires Reachable(s) && CoversOperator(OperatorOf(b, s.job), windows)
    ensures CoversWindows(b, windows, s.job.arrivals)
  {
    hide Reachable;
    hide WindowOf;
    hide Batch;
    hide Early;
    hide RowsOf;
    hide RevisionHistory;
    forall i | 0 <= i < |s.job.arrivals| ensures CountedIn(b, windows, s.job.arrivals[i]) {
      var w := WindowOf(b, s.job.arrivals[i].event);
      if !Expired(b, w, s.job.arrivals[i].mark) {
        BatchContains(b, s.job.arrivals, i);
        WindowInvariant(s, b, w);
        if w !in OperatorOf(b, s.job).cells {
          PublishedRows(s, b, w);
          RowsOfHas(OperatorOf(b, s.job).rows, w);
        }
      }
    }
  }

  lemma AggregatedIsBatch(s: State, b: Branch, w: Window)
    requires Reachable(s)
    ensures Aggregated(OperatorOf(b, s.job))(w) == |Batch(b, w, s.job.arrivals)|
  {
    hide Reachable;
    hide Batch;
    hide Early;
    hide RowsOf;
    hide Fold;
    hide RevisionHistory;
    hide LatestRequests;
    WindowInvariant(s, b, w);
    LatestRequestsLaw(s, b, w);
    FoldLaw(Batch(b, w, s.job.arrivals));
  }

  /** Every record received is dead-lettered, dropped as a duplicate, held by the node branch (in an open window or in
      the newest row of a cleared one), or audited as too late. */
  lemma Conservation(s: State, windows: seq<Window>)
    requires Reachable(s) && CoversOperator(s.job.node, windows)
    ensures s.counters.received == s.counters.deadLetters + s.counters.duplicates
                                   + SumOver(windows, Aggregated(s.job.node)) + |s.job.node.late|
  {
    hide Reachable;
    hide TooLate;
    hide OperatorOk;
    hide MarksOk;
    hide SeenOk;
    hide CoversOperator;
    hide CoversWindows;
    ReachableOk(s);
    WindowInvariant(s, Node, Window(ContentKey(""), 0));
    OperatorListsArrivals(s, Node, windows);
    ArrivalsSplit(Node, windows, s.job.arrivals);
    forall i | 0 <= i < |windows|
      ensures Aggregated(s.job.node)(windows[i]) == WindowSizes(Node, s.job.arrivals)(windows[i])
    {
      AggregatedIsBatch(s, Node, windows[i]);
    }
    hide Aggregated;
    hide WindowSizes;
    SumSame(windows, Aggregated(s.job.node), WindowSizes(Node, s.job.arrivals));
  }

  // ---------------------------------------------------------------- deduplication and replay

  /** Two acceptances of one event id are at least 25 hours of processing time apart. */
  lemma AcceptancesApart(s: State, h: nat, i: nat)
    requires Reachable(s) && h < i < |s.job.arrivals|
    requires s.job.arrivals[h].event.eventId == s.job.arrivals[i].event.eventId
    ensures s.job.arrivals[i].at - s.job.arrivals[h].at >= DEDUP_TTL
  {
    hide Reachable;
    hide OperatorOk;
    hide MarksOk;
    ReachableOk(s);
  }

  /** A second copy of an accepted event inside the time to live. */
  ghost predicate IsReplay(j: Job, a: Action) {
    && a.Receive? && a.raw.Readable? && Validate(a.raw.event).None?
    && exists i :: 0 <= i < |j.arrivals| && j.arrivals[i].event.eventId == a.raw.event.eventId
                   && a.at < j.arrivals[i].at + DEDUP_TTL
  }

  lemma ReplayRemembered(s: State, a: Action)
    requires JobOk(s) && IsReplay(s.job, a)
    ensures Remembered(s.job.seen, a.raw.event.eventId, a.at)
    ensures Apply(s, a).job == s.job
    ensures Apply(s, a).counters == s.counters.(received := s.counters.received + 1,
                                                duplicates := s.counters.duplicates + 1)
  {
    hide OperatorOk;
    hide MarksOk;
    hide Accept;
    hide Validate;
  }

  /** The job state never depends on the counters. */
  lemma ApplyJob(s: State, t: State, a: Action)
    requires s.job == t.job
    ensures Apply(s, a).job == Apply(t, a).job
  {
    hide Accept;
    hide OnMark;
    hide Validate;
  }

  lemma {:induction false} RunJob(s: State, t: State, actions: seq<Action>)
    requires s.job == t.job
    ensures Run(s, actions).job == Run(t, actions).job
    decreases |actions|
  {
    hide Apply;
    if actions != [] {
      var last := |actions| - 1;
      RunJob(s, t, actions[..last]);
      ApplyJob(Run(s, actions[..last]), Run(t, actions[..last]), actions[last]);
    }
  }

  lemma {:induction false} RunConcat(s: State, a: seq<Action>, b: seq<Action>)
    ensures Run(s, a + b) == Run(Run(s, a), b)
    decreases |b|
  {
    hide Apply;
    if b == [] {
      assert a + b == a;
    } else {
      var last := |b| - 1;
      RunConcat(s, a, b[..last]);
      assert (a + b)[..|a + b| - 1] == a + b[..last];
    }
  }

  lemma {:induction false} ReplaysKeepJob(s: State, replays: seq<Action>)
    requires JobOk(s) && forall i :: 0 <= i < |replays| ==> IsReplay(s.job, replays[i])
    ensures Run(s, replays).job == s.job && JobOk(Run(s, replays))
    decreases |replays|
  {
    hide Apply;
    hide JobOk;
    hide IsReplay;
    if replays != [] {
      var last := |replays| - 1;
      ReplaysKeepJob(s, replays[..last]);
      var before := Run(s, replays[..last]);
      assert IsReplay(before.job, replays[last]);
      ReplayRemembered(before, replays[last]);
      ReplayEnabled(before.job, replays[last]);
      StepKeeps(before, replays[last]);
    }
  }

  lemma ReplayEnabled(j: Job, a: Action)
    requires IsReplay(j, a)
    ensures Enabled(j, a)
  {
  }

  lemma {:induction false} LegalConcat(s: State, a: seq<Action>, b: seq<Action>)
    ensures Legal(s, a + b) <==> Legal(s, a) && Legal(Run(s, a), b)
    decreases |b|
  {
    hide Enabled;
    hide Run;
    if b == [] {
      assert a + b == a;
    } else {
      var last := |b| - 1;
      LegalConcat(s, a, b[..last]);
      RunConcat(s, a, b[..last]);
      assert (a + b)[..|a + b| - 1] == a + b[..last];
    }
  }

  lemma {:induction false} LegalJob(s: State, t: State, actions: seq<Action>)
    requires s.job == t.job
    ensures Legal(s, actions) <==> Legal(t, actions)
    decreases |actions|
  {
    hide Enabled;
    hide Run;
    if actions != [] {
      var last := |actions| - 1;
      LegalJob(s, t, actions[..last]);
      RunJob(s, t, actions[..last]);
    }
  }

  lemma {:induction false} ReplaysLegal(s: State, replays: seq<Action>)
    requires JobOk(s) && forall i :: 0 <= i < |replays| ==> IsReplay(s.job, replays[i])
    ensures Legal(s, replays)
    decreases |replays|
  {
    hide Run;
    hide JobOk;
    hide IsReplay;
    hide Enabled;
    if replays != [] {
      var last := |replays| - 1;
      ReplaysLegal(s, replays[..last]);
      ReplaysKeepJob(s, replays[..last]);
      assert IsReplay(s.job, replays[last]);
      ReplayEnabled(s.job, replays[last]);
    }
  }

  /** Replaying any already accepted events within 25 hours of their acceptance, at any point of a run, changes nothing
      but the counters: no aggregate, revision, row, late output, watermark or remembered id; and the rest of the run is
      possible with the replays exactly when it is without them. */
  lemma ReplayInvisible(before: seq<Action>, replays: seq<Action>, after: seq<Action>)
    requires Legal(INITIAL, before)
    requires forall i :: 0 <= i < |replays| ==> IsReplay(Run(INITIAL, before).job, replays[i])
    ensures Run(INITIAL, before + replays + after).job == Run(INITIAL, before + after).job
    ensures Legal(INITIAL, before + replays + after) <==> Legal(INITIAL, before + after)
  {
    hide Run;
    hide JobOk;
    hide IsReplay;
    hide Legal;
    var s := Run(INITIAL, before);
    RunOk(before);
    ReplaysKeepJob(s, replays);
    RunConcat(INITIAL, before, replays);
    RunConcat(INITIAL, before + replays, after);
    RunConcat(INITIAL, before, after);
    RunJob(Run(s, replays), s, after);
    ReplaysLegal(s, replays);
    LegalConcat(INITIAL, before, replays);
    LegalConcat(INITIAL, before + replays, after);
    LegalConcat(INITIAL, before, after);
    LegalJob(Run(s, replays), s, after);
  }

  // ---------------------------------------------------------------- audited and still counted

  /** An event that the node branch audits as late is still added to the content branch's accumulator of its five-minute
      window exactly when that window has not expired; otherwise the content branch drops it and nothing else. */
  lemma AuditedYetCounted(j: Job, e: DeliveryEvent, at: int)
    requires Expired(Node, WindowOf(Node, e), j.mark)
    ensures Accept(j, e, at).node == j.node.(late := j.node.late + [e])
    ensures var w, before, after := WindowOf(Content, e), j.content, Accept(j, e, at).content;
            if Expired(Content, w, j.mark) then after == before.(late := before.late + [e])
            else w in after.cells && CellAt(after, w).acc == AddTo(CellAt(before, w).acc, e)
                 && after.late == before.late
  {
    hide WindowOf;
    hide AddTo;
    hide SnapshotOf;
  }

  lemma {:induction false} TooLateHas(b: Branch, arrivals: seq<Arrival>, i: nat)
    requires i < |arrivals| && Expired(b, WindowOf(b, arrivals[i].event), arrivals[i].mark)
    ensures arrivals[i].event in TooLate(b, arrivals)
    decreases |arrivals|
  {
    hide WindowOf;
    if i < |arrivals| - 1 { TooLateHas(b, arrivals[..|arrivals| - 1], i); }
  }

  /** What the content branch holds for a window: the accumulator of its open cell, and the snapshot of its newest row,
      are those of one list of events. */
  ghost predicate HoldsFor(op: Operator, w: Window, events: seq<DeliveryEvent>) {
    && (w in op.cells ==> op.cells[w].acc == Fold(events))
    && (RowsOf(op.rows, w) != [] ==> RowsOf(op.rows, w)[|RowsOf(op.rows, w)| - 1].snapshot == SnapshotOf(Fold(events)))
    && (w in op.cells || RowsOf(op.rows, w) != [])
  }

  /** In every reachable state, an event that was too late for the node branch is on the audit output, and, according to
      whether its content window had expired when it arrived, either was dropped by the content branch too or is among
      the events whose accumulation the content branch holds or has published for that window. */
  lemma AuditedInEveryRun(s: State, i: nat)
    requires Reachable(s) && i < |s.job.arrivals|
    requires Expired(Node, WindowOf(Node, s.job.arrivals[i].event), s.job.arrivals[i].mark)
    ensures s.job.arrivals[i].event in s.job.node.late
    ensures var e, w := s.job.arrivals[i].event, WindowOf(Content, s.job.arrivals[i].event);
            if Expired(Content, w, s.job.arrivals[i].mark) then e in s.job.content.late
            else exists events :: e in events && HoldsFor(s.job.content, w, events)
  {
    hide Reachable;
    hide WindowOf;
    hide Batch;
    hide Early;
    hide RowsOf;
    hide TooLate;
    hide Fold;
    hide SnapshotOf;
    hide RevisionHistory;
    var e, w := s.job.arrivals[i].event, WindowOf(Content, s.job.arrivals[i].event);
    WindowInvariant(s, Node, w);
    WindowInvariant(s, Content, w);
    TooLateHas(Node, s.job.arrivals, i);
    if Expired(Content, w, s.job.arrivals[i].mark) {
      TooLateHas(Content, s.job.arrivals, i);
    } else {
      BatchContains(Content, s.job.arrivals, i);
      PublishedRows(s, Content, w);
      assert HoldsFor(s.job.content, w, Batch(Content, w, s.job.arrivals));
    }
  }

  function Sample(id: string, millis: int): DeliveryEvent {
    DeliveryEvent(1, id, At(millis * 1_000_000), At(millis * 1_000_000), "r", "c", "n", "l", "i", "HIT", 200, 1, 1.0,
                  1.0, 0.0)
  }

  /** Such an event exists: with the watermark at 65 000 ms, an event of time 0 is audited as too late by the minute
      branches and counted by the content branch. */
  lemma AuditedYetCountedWitness()
    ensures exists actions: seq<Action> :: Legal(INITIAL, actions) && AuditedAndCounted(Run(INITIAL, actions), LATE)
  {
    hide *;
    FirstStep();
    SecondStep();
    ThirdStep();
    ThreeSteps(A1, A2, A3);
    var actions := [A1, A2, A3];
    assert Legal(INITIAL, actions) && AuditedAndCounted(Run(INITIAL, actions), LATE);
  }

  ghost predicate AuditedAndCounted(s: State, e: DeliveryEvent) {
    var w := WindowOf(Content, e);
    && e in s.job.node.late
    && w in s.job.content.cells
    && s.job.content.cells[w].acc == Fold([AHEAD, e])
  }

  const AHEAD := Sample("a", 75_001)
  const LATE := Sample("b", 0)
  const A1 := Receive(Readable(AHEAD), 0)
  const A2 := Advance(65_000, [], [], [])
  const A3 := Receive(Readable(LATE), 1)

  lemma SamplesValid(id: string, millis: int)
    requires id == "a" || id == "b"
    ensures Validate(Sample(id, millis)).None? && Sample(id, millis).Millis() == millis
  {
    assert !IsSpace(id[0]) && !IsSpace("r"[0]) && !IsSpace("c"[0]) && !IsSpace("n"[0]) && !IsSpace("l"[0])
           && !IsSpace("i"[0]) && !IsSpace("HIT"[0]);
  }

  lemma QuotientUnique(t: int, size: int, q: int, r: int)
    requires size > 0 && t == q * size + r && 0 <= r < size
    ensures t - t % size == q * size
  {
    var q', r' := t / size, t % size;
    assert t == q' * size + r' && 0 <= r' < size;
    LessFactor(q, q' + 1, size);
    LessFactor(q', q + 1, size);
  }

  lemma SampleStarts()
    ensures StartOf(Node, 75_001) == StartOf(Network, 75_001) == 60_000 && StartOf(Content, 75_001) == 0
    ensures StartOf(Node, 0) == StartOf(Network, 0) == StartOf(Content, 0) == 0
  {
    QuotientUnique(75_001, MINUTE, 1, 15_001);
    QuotientUnique(75_001, 5 * MINUTE, 0, 75_001);
    QuotientUnique(0, MINUTE, 0, 0);
    QuotientUnique(0, 5 * MINUTE, 0, 0);
  }

  lemma SampleWindows(b: Branch)
    ensures WindowOf(b, AHEAD).start == (if b.Content? then 0 else 60_000)
    ensures WindowOf(b, LATE).start == 0
    ensures LastMs(b, WindowOf(b, AHEAD)) > 65_000
  {
    hide Validate;
    hide StartOf;
    hide Sample;
    SamplesValid("a", 75_001);
    SamplesValid("b", 0);
    SampleStarts();
  }

  /** A first event opens one window and fires nothing. */
  lemma FirstCells(b: Branch, e: DeliveryEvent)
    ensures OnEvent(b, IDLE, e, NoMark).cells.Keys == {WindowOf(b, e)}
    ensures OnEvent(b, IDLE, e, NoMark).late == []
  {
    hide WindowOf;
    hide AddTo;
    hide SnapshotOf;
  }

  lemma NothingDue(b: Branch)
    ensures FiringOrder(b, OnEvent(b, IDLE, AHEAD, NoMark), NoMark, Mark(65_000), [])
  {
    hide WindowOf;
    hide OnEvent;
    hide LastMs;
    FirstCells(b, AHEAD);
    SampleWindows(b);
  }

  lemma FirstStep()
    ensures Enabled(INITIAL.job, A1) && Apply(INITIAL, A1).job == Accept(INITIAL.job, AHEAD, 0)
  {
    hide Accept;
    SamplesValid("a", 75_001);
  }

  lemma AfterFirst()
    ensures var j := Accept(INITIAL.job, AHEAD, 0);
            && j.mark == NoMark && j.maxSeen == Mark(75_001) && j.seen == map["a" := 0]
            && j.node == OnEvent(Node, IDLE, AHEAD, NoMark)
            && j.network == OnEvent(Network, IDLE, AHEAD, NoMark)
            && j.content == OnEvent(Content, IDLE, AHEAD, NoMark)
  {
    hide OnEvent;
    SamplesValid("a", 75_001);
  }

  lemma SecondStep()
    requires Apply(INITIAL, A1).job == Accept(INITIAL.job, AHEAD, 0)
    ensures var s1 := Apply(INITIAL, A1);
            var j2 := Apply(s1, A2).job;
            && Enabled(s1.job, A2)
            && j2.mark == Mark(65_000) && j2.seen == map["a" := 0] && j2.node.late == []
            && CellAt(j2.content, WindowOf(Content, LATE)).acc == AddTo(EMPTY, AHEAD)
  {
    hide OnEvent;
    hide FiringOrder;
    hide Accept;
    AfterFirst();
    NothingDue(Node);
    NothingDue(Network);
    NothingDue(Content);
    FirstCells(Node, AHEAD);
    ContentCell();
  }

  /** Both events belong to one content window, which the watermark leaves open. */
  lemma ContentCell()
    ensures CellAt(OnMark(Content, OnEvent(Content, IDLE, AHEAD, NoMark), NoMark, Mark(65_000), []),
                   WindowOf(Content, LATE)).acc == AddTo(EMPTY, AHEAD)
  {
    hide AddTo;
    hide SnapshotOf;
    hide StartOf;
    SampleWindows(Content);
    assert WindowOf(Content, AHEAD) == WindowOf(Content, LATE);
  }

  lemma ThirdStep()
    requires var j2 := Apply(Apply(INITIAL, A1), A2).job;
             && j2.mark == Mark(65_000) && j2.seen == map["a" := 0]
             && CellAt(j2.content, WindowOf(Content, LATE)).acc == AddTo(EMPTY, AHEAD)
    ensures var s2 := Apply(Apply(INITIAL, A1), A2);
            Enabled(s2.job, A3) && AuditedAndCounted(Apply(s2, A3), LATE)
  {
    hide WindowOf;
    hide Accept;
    hide OnEvent;
    hide OnMark;
    hide AddTo;
    var s2 := Apply(Apply(INITIAL, A1), A2);
    SamplesValid("b", 0);
    SampleWindows(Node);
    SampleWindows(Content);
    assert Apply(s2, A3).job == Accept(s2.job, LATE, 1);
    AuditedYetCounted(s2.job, LATE, 1);
    assert LATE in s2.job.node.late + [LATE];
    FoldSnoc([], AHEAD);
    FoldSnoc([AHEAD], LATE);
    assert [] + [AHEAD] == [AHEAD] && [AHEAD] + [LATE] == [AHEAD, LATE] && Fold([]) == EMPTY;
  }

  lemma ThreeSteps(a1: Action, a2: Action, a3: Action)
    requires Enabled(INITIAL.job, a1) && Enabled(Apply(INITIAL, a1).job, a2)
    requires Enabled(Apply(Apply(INITIAL, a1), a2).job, a3)
    ensures Run(INITIAL, [a1, a2, a3]) == Apply(Apply(Apply(INITIAL, a1), a2), a3)
    ensures Legal(INITIAL, [a1, a2, a3])
  {
    hide Apply;
    hide Enabled;
    assert [a1, a2, a3][..2] == [a1, a2] && [a1, a2][..1] == [a1] && [a1][..0] == [];
    assert Run(INITIAL, []) == INITIAL;
    assert Run(INITIAL, [a1]) == Apply(INITIAL, a1);
    assert Run(INITIAL, [a1, a2]) == Apply(Apply(INITIAL, a1), a2);
    assert Legal(INITIAL, []);
    assert Legal(INITIAL, [a1]);
    assert Legal(INITIAL, [a1, a2]);
  }
}
