/** The analytics job by the fields of its events: which events share a window, when a window closes and expires, which
    rows it publishes and which duplicates it drops.  Nothing here refers to the keys, windows and constants with which
    the job itself is described. */
module PipelineFields {
  import opened Domain
  import opened Ordering
  import opened DeliveryEvents
  import opened Accumulator
  import opened Pipeline
  import opened PipelineProperties
  import opened PipelineConservation

  /** The dimensions of the branch: location, network and node; location and network; or content. */
  predicate SameDimensions(b: Branch, e: DeliveryEvent, f: DeliveryEvent) {
    match b
    case Node => e.location == f.location && e.networkId == f.networkId && e.nodeId == f.nodeId
    case Network => e.location == f.location && e.networkId == f.networkId
    case Content => e.contentId == f.contentId
  }

  /** Length of the branch's windows in milliseconds: a minute, or five for content. */
  function Length(b: Branch): int { if b.Content? then 300_000 else 60_000 }

  /** The minute, or the five minutes, of an event since the epoch. */
  function Block(b: Branch, e: DeliveryEvent): int { e.Millis() / Length(b) }

  /** First millisecond after the event's block. */
  function BlockEnd(b: Branch, e: DeliveryEvent): int { (Block(b, e) + 1) * Length(b) }

  /** The watermark has come to the end of the event's block. */
  predicate Over(b: Branch, e: DeliveryEvent, mark: Mark) { mark.Mark? && mark.ms >= BlockEnd(b, e) - 1 }

  /** The event was too late: the watermark was five seconds beyond the end of its block when it arrived. */
  predicate TooLateAt(b: Branch, a: Arrival) { a.mark.Mark? && a.mark.ms >= BlockEnd(b, a.event) - 1 + 5_000 }

  lemma BlockUnique(t: int, size: int)
    requires size > 0
    ensures t - t % size == t / size * size
  {
  }

  lemma StartIsBlock(b: Branch, e: DeliveryEvent)
    ensures StartOf(b, e.Millis()) == Block(b, e) * Length(b)
    ensures LastMs(b, WindowOf(b, e)) == BlockEnd(b, e) - 1
  {
    hide DeliveryEvent.Millis;
    BlockUnique(e.Millis(), Length(b));
    NextBlock(Block(b, e), Length(b));
  }

  lemma NextBlock(q: int, size: int)
    ensures (q + 1) * size == q * size + size
  {
  }

  lemma BlockInjective(p: int, q: int, size: int)
    requires size > 0 && p * size == q * size
    ensures p == q
  {
    if p < q { LessThanNext(p, q, size); }
    if q < p { LessThanNext(q, p, size); }
  }

  lemma LessThanNext(p: int, q: int, size: int)
    requires size > 0 && p < q
    ensures p * size < q * size
  {
    Multiply(q, p + 1, size);
    NextBlock(p, size);
  }

  /** Two events share a window exactly when they agree on the branch's dimensions and lie in the same block. */
  lemma SameWindowIff(b: Branch, e: DeliveryEvent, f: DeliveryEvent)
    ensures WindowOf(b, e) == WindowOf(b, f) <==> SameDimensions(b, e, f) && Block(b, e) == Block(b, f)
  {
    hide DeliveryEvent.Millis;
    StartIsBlock(b, e);
    StartIsBlock(b, f);
    hide Block;
    hide StartOf;
    if Block(b, e) * Length(b) == Block(b, f) * Length(b) { BlockInjective(Block(b, e), Block(b, f), Length(b)); }
  }

  /** The arrival counts for the group of event f: same dimensions, same block, not too late. */
  function InGroupOf(b: Branch, f: DeliveryEvent): Arrival -> bool {
    (a: Arrival) => SameDimensions(b, a.event, f) && Block(b, a.event) == Block(b, f) && !TooLateAt(b, a)
  }

  lemma CountsIff(b: Branch, f: DeliveryEvent, a: Arrival)
    ensures Counts(b, WindowOf(b, f), a) <==> InGroupOf(b, f)(a)
    ensures Closed(b, WindowOf(b, f), a.mark) <==> Over(b, f, a.mark)
  {
    hide WindowOf;
    hide SameDimensions;
    hide BlockEnd;
    hide Block;
    SameWindowIff(b, a.event, f);
    StartIsBlock(b, f);
    StartIsBlock(b, a.event);
  }

  /** An arrival of that group carries the event. */
  ghost predicate GroupHas(b: Branch, f: DeliveryEvent, arrivals: seq<Arrival>, e: DeliveryEvent) {
    exists i :: 0 <= i < |arrivals| && arrivals[i].event == e && InGroupOf(b, f)(arrivals[i])
  }

  lemma {:induction false} BatchIsGroup(b: Branch, f: DeliveryEvent, arrivals: seq<Arrival>)
    ensures |Batch(b, WindowOf(b, f), arrivals)| == Count(arrivals, InGroupOf(b, f))
    ensures forall e :: e in Batch(b, WindowOf(b, f), arrivals) <==> GroupHas(b, f, arrivals, e)
    decreases |arrivals|
  {
    hide WindowOf;
    hide Counts;
    hide InGroupOf;
    hide GroupHas;
    if arrivals == [] {
      forall e ensures !GroupHas(b, f, arrivals, e) { EmptyGroup(b, f, e); }
    } else {
      var last := |arrivals| - 1;
      var before := arrivals[..last];
      BatchIsGroup(b, f, before);
      CountsIff(b, f, arrivals[last]);
      assert arrivals == before + [arrivals[last]];
      CountConcat(before, [arrivals[last]], InGroupOf(b, f));
      forall e
        ensures GroupHas(b, f, arrivals, e) <==>
                (GroupHas(b, f, before, e) || (arrivals[last].event == e && InGroupOf(b, f)(arrivals[last])))
      {
        GroupGrows(b, f, arrivals, e);
      }
    }
  }

  lemma EmptyGroup(b: Branch, f: DeliveryEvent, e: DeliveryEvent)
    ensures !GroupHas(b, f, [], e)
  {
  }

  lemma GroupGrows(b: Branch, f: DeliveryEvent, arrivals: seq<Arrival>, e: DeliveryEvent)
    requires arrivals != []
    ensures var last := |arrivals| - 1;
            GroupHas(b, f, arrivals, e) <==>
            GroupHas(b, f, arrivals[..last], e) || (arrivals[last].event == e && InGroupOf(b, f)(arrivals[last]))
  {
    hide InGroupOf;
    var last := |arrivals| - 1;
    assert forall i :: 0 <= i < last ==> arrivals[..last][i] == arrivals[i];
  }

  /** In every reachable state, for every branch and the group of any event: there are rows exactly when the group is not
      empty and the watermark has come to the end of the block; and the newest row then counts the accepted events of
      that group which were not too late. */
  lemma NewestRowCounts(s: State, b: Branch, f: DeliveryEvent)
    requires Reachable(s)
    ensures var rs, size := RowsOf(OperatorOf(b, s.job).rows, WindowOf(b, f)), Count(s.job.arrivals, InGroupOf(b, f));
            && (rs != [] <==> size > 0 && Over(b, f, s.job.mark))
            && (rs != [] ==> rs[|rs| - 1].snapshot.requests == size)
  {
    hide Reachable;
    hide WindowOf;
    hide RowsOf;
    hide Batch;
    hide InGroupOf;
    hide Over;
    hide Closed;
    hide Fold;
    hide Count;
    var w := WindowOf(b, f);
    PublishedRows(s, b, w);
    BatchIsGroup(b, f, s.job.arrivals);
    FoldLaw(Batch(b, w, s.job.arrivals));
    CountsIff(b, f, Arrival(f, 0, s.job.mark));
  }

  lemma {:induction false} LateByFields(b: Branch, arrivals: seq<Arrival>)
    ensures forall e :: e in TooLate(b, arrivals) <==>
              exists i :: 0 <= i < |arrivals| && arrivals[i].event == e && TooLateAt(b, arrivals[i])
    decreases |arrivals|
  {
    hide WindowOf;
    hide BlockEnd;
    if arrivals != [] {
      var last := |arrivals| - 1;
      LateByFields(b, arrivals[..last]);
      StartIsBlock(b, arrivals[last].event);
      assert forall i :: 0 <= i < last ==> arrivals[..last][i] == arrivals[i];
    }
  }

  /** In every reachable state a branch has dropped (the node branch: audited) exactly the accepted events that came when
      the watermark was five seconds beyond the end of their block. */
  lemma DroppedIff(s: State, b: Branch, e: DeliveryEvent)
    requires Reachable(s)
    ensures e in OperatorOf(b, s.job).late <==>
            exists i :: 0 <= i < |s.job.arrivals| && s.job.arrivals[i].event == e && TooLateAt(b, s.job.arrivals[i])
  {
    hide Reachable;
    hide TooLate;
    hide TooLateAt;
    hide WindowOk;
    WindowInvariant(s, b, WindowOf(b, e));
    LateByFields(b, s.job.arrivals);
  }

  // ---------------------------------------------------------------- watermarks and duplicates

  /** The watermark may move to any later value at least 10 001 ms behind some accepted event, and to no other. */
  lemma WatermarkIff(s: State, next: int)
    requires Reachable(s)
    ensures (exists nodes: seq<Window>, networks: seq<Window>, contents: seq<Window> ::
               Enabled(s.job, Advance(next, nodes, networks, contents))) <==>
            && (s.job.mark.Mark? ==> s.job.mark.ms < next)
            && exists i :: 0 <= i < |s.job.arrivals| && next + 10_001 <= s.job.arrivals[i].event.Millis()
  {
    hide Reachable;
    hide OperatorOk;
    hide SeenOk;
    hide DeliveryEvent.Millis;
    ReachableOk(s);
    MaxSeenCovers(s);
    var nodes := ListingOf(DueWindows(Node, s.job.node, s.job.mark, Mark(next)));
    var networks := ListingOf(DueWindows(Network, s.job.network, s.job.mark, Mark(next)));
    var contents := ListingOf(DueWindows(Content, s.job.content, s.job.mark, Mark(next)));
    if s.job.mark.Below(next) && s.job.maxSeen.Reached(next + OUT_OF_ORDERNESS + 1) {
      assert Enabled(s.job, Advance(next, nodes, networks, contents));
    }
  }

  function DueWindows(b: Branch, op: Operator, mark: Mark, next: Mark): set<Window> {
    set w | w in op.cells && Due(b, w, mark, next)
  }

  /** The largest event time is at least that of every accepted event. */
  ghost predicate MaxCovers(j: Job) {
    forall i :: 0 <= i < |j.arrivals| ==> j.maxSeen.Reached(j.arrivals[i].event.Millis())
  }

  lemma MaxSeenCovers(s: State)
    requires Reachable(s)
    ensures MaxCovers(s.job)
  {
    hide MaxCovers;
    hide Run;
    hide Legal;
    var actions: seq<Action> :| Legal(INITIAL, actions) && s == Run(INITIAL, actions);
    MaxSeenRun(actions);
  }

  lemma {:induction false} MaxSeenRun(actions: seq<Action>)
    ensures MaxCovers(Run(INITIAL, actions).job)
    decreases |actions|
  {
    hide Apply;
    if actions != [] {
      MaxSeenRun(actions[..|actions| - 1]);
      MaxSeenStep(Run(INITIAL, actions[..|actions| - 1]), actions[|actions| - 1]);
    }
  }

  lemma MaxSeenStep(s: State, a: Action)
    requires MaxCovers(s.job)
    ensures MaxCovers(Apply(s, a).job)
  {
    hide OnEvent;
    hide OnMark;
    hide Validate;
    hide DeliveryEvent.Millis;
  }

  /** In every reachable state a valid event is accepted exactly when every earlier acceptance of its id is at least 25
      hours old; otherwise it changes nothing but the counters. */
  lemma AcceptedIff(s: State, e: DeliveryEvent, at: int)
    requires Reachable(s) && Validate(e).None?
    ensures var after := Apply(s, Receive(Readable(e), at)).job;
            if forall i :: 0 <= i < |s.job.arrivals| && s.job.arrivals[i].event.eventId == e.eventId ==>
                 at >= s.job.arrivals[i].at + 25 * 60 * 60 * 1000
            then after.arrivals == s.job.arrivals + [Arrival(e, at, s.job.mark)]
            else after == s.job
  {
    hide Reachable;
    hide OperatorOk;
    hide MarksOk;
    hide OnEvent;
    hide Validate;
    hide DeliveryEvent.Millis;
    ReachableOk(s);
    SeenIsAccepted(s);
  }

  lemma SeenIsAccepted(s: State)
    requires Reachable(s)
    ensures SeenFrom(s.job)
  {
    hide SeenFrom;
    hide Run;
    hide Legal;
    var actions: seq<Action> :| Legal(INITIAL, actions) && s == Run(INITIAL, actions);
    SeenRun(actions);
  }

  ghost predicate SeenFrom(j: Job) {
    forall id :: id in j.seen ==>
      exists i :: 0 <= i < |j.arrivals| && j.arrivals[i].event.eventId == id && j.arrivals[i].at == j.seen[id]
  }

  lemma {:induction false} SeenRun(actions: seq<Action>)
    ensures SeenFrom(Run(INITIAL, actions).job)
    decreases |actions|
  {
    hide Apply;
    if actions != [] {
      SeenRun(actions[..|actions| - 1]);
      SeenStep(Run(INITIAL, actions[..|actions| - 1]), actions[|actions| - 1]);
    }
  }

  lemma SeenStep(s: State, a: Action)
    requires SeenFrom(s.job)
    ensures SeenFrom(Apply(s, a).job)
  {
    hide OnEvent;
    hide OnMark;
    hide Validate;
    hide DeliveryEvent.Millis;
    var j, k := s.job, Apply(s, a).job;
    forall id | id in k.seen
      ensures exists i :: 0 <= i < |k.arrivals| && k.arrivals[i].event.eventId == id && k.arrivals[i].at == k.seen[id]
    {
      if id in j.seen && k.seen[id] == j.seen[id] {
        var i :| 0 <= i < |j.arrivals| && j.arrivals[i].event.eventId == id && j.arrivals[i].at == j.seen[id];
        assert k.arrivals[i] == j.arrivals[i];
      } else {
        assert k.arrivals[|k.arrivals| - 1].event.eventId == id;
      }
    }
  }
}
