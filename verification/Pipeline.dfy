/** The analytics job as a step machine: parse, deduplicate, watermark, three windowed branches.

A step takes one record, or one watermark, through all operators; this is the job at parallelism 1 observed between
steps.  Times are milliseconds.  The rules taken from Flink 1.16 are: the bounded-out-of-orderness watermark never
exceeds the largest event time seen minus 10 001 ms and only grows; an element whose window's cleanup time has been
reached is late; an event-time window fires when the watermark reaches its last millisecond and again on every later
accepted element, keeping its contents until the cleanup time. */
module Pipeline {
  import opened Domain
  import opened Ordering
  import opened DeliveryEvents
  import opened Accumulator

  const OUT_OF_ORDERNESS := 10_000
  const ALLOWED_LATENESS := 5_000
  const MINUTE := 60_000
  const DEDUP_TTL := 25 * 60 * 60 * 1000

  /** The current watermark; before the first one nothing has been reached. */
  datatype Mark = NoMark | Mark(ms: int) {
    predicate Reached(t: int) { Mark? && t <= ms }
    predicate Below(m: int) { NoMark? || ms < m }
  }

  // ---------------------------------------------------------------- windows

  datatype Branch = Node | Network | Content

  datatype Key = NodeKey(location: string, networkId: string, nodeId: string)
               | NetworkKey(location: string, networkId: string)
               | ContentKey(contentId: string)

  datatype Window = Window(key: Key, start: int)

  function Size(b: Branch): int { if b.Content? then 5 * MINUTE else MINUTE }

  function KeyOf(b: Branch, e: DeliveryEvent): Key {
    match b
    case Node => NodeKey(e.location, e.networkId, e.nodeId)
    case Network => NetworkKey(e.location, e.networkId)
    case Content => ContentKey(e.contentId)
  }

  /** Start of the tumbling window that contains t. */
  function StartOf(b: Branch, t: int): int { t - t % Size(b) }

  function WindowOf(b: Branch, e: DeliveryEvent): Window { Window(KeyOf(b, e), StartOf(b, e.Millis())) }

  function LastMs(b: Branch, w: Window): int { w.start + Size(b) - 1 }

  /** The window has fired (if it has contents). */
  predicate Closed(b: Branch, w: Window, mark: Mark) { mark.Reached(LastMs(b, w)) }

  /** The window's cleanup time has come: its state is gone and elements for it are late. */
  predicate Expired(b: Branch, w: Window, mark: Mark) { mark.Reached(LastMs(b, w) + ALLOWED_LATENESS) }

  // ---------------------------------------------------------------- one windowed operator

  /** Contents of an open window: the accumulator and how often the window has fired. */
  datatype Cell = Cell(acc: Acc, firings: nat)

  datatype Row = Row(window: Window, revision: nat, snapshot: Snapshot)

  datatype Operator = Operator(cells: map<Window, Cell>, rows: seq<Row>, late: seq<DeliveryEvent>)

  function CellAt(op: Operator, w: Window): Cell { if w in op.cells then op.cells[w] else Cell(EMPTY, 0) }

  function OnEvent(b: Branch, op: Operator, e: DeliveryEvent, mark: Mark): Operator {
    var w := WindowOf(b, e);
    if Expired(b, w, mark) then op.(late := op.late + [e])
    else
      var cell := CellAt(op, w);
      var acc := AddTo(cell.acc, e);
      if Closed(b, w, mark) then
        op.(cells := op.cells[w := Cell(acc, cell.firings + 1)],
            rows := op.rows + [Row(w, cell.firings, SnapshotOf(acc))])
      else op.(cells := op.cells[w := Cell(acc, cell.firings)])
  }

  /** Windows that fire for the first time when the watermark moves from `mark` to `next`. */
  predicate Due(b: Branch, w: Window, mark: Mark, next: Mark) { Closed(b, w, next) && !Closed(b, w, mark) }

  ghost predicate FiringOrder(b: Branch, op: Operator, mark: Mark, next: Mark, order: seq<Window>) {
    && Distinct(order)
    && forall w :: w in order <==> w in op.cells && Due(b, w, mark, next)
  }

  function FiringRow(op: Operator): Window -> Row {
    w => Row(w, CellAt(op, w).firings, SnapshotOf(CellAt(op, w).acc))
  }

  /** Due windows fire in the given order; expired windows are cleared. */
  function OnMark(b: Branch, op: Operator, mark: Mark, next: Mark, order: seq<Window>): Operator {
    Operator(
      map w | w in op.cells && !Expired(b, w, next) ::
        if Due(b, w, mark, next) then Cell(op.cells[w].acc, op.cells[w].firings + 1) else op.cells[w],
      op.rows + MapSeq(order, FiringRow(op)),
      op.late)
  }

  // ---------------------------------------------------------------- the job

  /** An event that passed deduplication, when, and under which watermark. */
  datatype Arrival = Arrival(event: DeliveryEvent, at: int, mark: Mark)

  datatype Job = Job(
    seen: map<string, int>,
    maxSeen: Mark,
    mark: Mark,
    node: Operator,
    network: Operator,
    content: Operator,
    arrivals: seq<Arrival>)

  datatype Counters = Counters(received: nat, deadLetters: nat, duplicates: nat)

  datatype State = State(job: Job, counters: Counters)

  const IDLE := Operator(map[], [], [])

  const INITIAL := State(Job(map[], NoMark, NoMark, IDLE, IDLE, IDLE, []), Counters(0, 0, 0))

  /** The id is still remembered at processing time `at`. */
  predicate Remembered(seen: map<string, int>, id: string, at: int) { id in seen && at < seen[id] + DEDUP_TTL }

  datatype Action =
    | Receive(raw: Raw, at: int)
    | Advance(next: int, nodes: seq<Window>, networks: seq<Window>, contents: seq<Window>)

  function Later(m: Mark, t: int): Mark { if m.Below(t) then Mark(t) else m }

  function Accept(j: Job, e: DeliveryEvent, at: int): Job {
    Job(j.seen[e.eventId := at],
        Later(j.maxSeen, e.Millis()),
        j.mark,
        OnEvent(Node, j.node, e, j.mark),
        OnEvent(Network, j.network, e, j.mark),
        OnEvent(Content, j.content, e, j.mark),
        j.arrivals + [Arrival(e, at, j.mark)])
  }

  function Apply(s: State, a: Action): State {
    var j, c := s.job, s.counters;
    match a
    case Receive(raw, at) =>
      if DeadLetterCode(raw).Some? then
        State(j, c.(received := c.received + 1, deadLetters := c.deadLetters + 1))
      else if Remembered(j.seen, raw.event.eventId, at) then
        State(j, c.(received := c.received + 1, duplicates := c.duplicates + 1))
      else
        State(Accept(j, raw.event, at), c.(received := c.received + 1))
    case Advance(next, nodes, networks, contents) =>
      State(j.(mark := Mark(next),
               node := OnMark(Node, j.node, j.mark, Mark(next), nodes),
               network := OnMark(Network, j.network, j.mark, Mark(next), networks),
               content := OnMark(Content, j.content, j.mark, Mark(next), contents)), c)
  }

  ghost predicate Enabled(j: Job, a: Action) {
    match a
    case Receive(_, _) => true
    case Advance(next, nodes, networks, contents) =>
      && j.mark.Below(next)
      && j.maxSeen.Reached(next + OUT_OF_ORDERNESS + 1)
      && FiringOrder(Node, j.node, j.mark, Mark(next), nodes)
      && FiringOrder(Network, j.network, j.mark, Mark(next), networks)
      && FiringOrder(Content, j.content, j.mark, Mark(next), contents)
  }

  function Run(s: State, actions: seq<Action>): State
    decreases |actions|
  {
    if actions == [] then s else Apply(Run(s, actions[..|actions| - 1]), actions[|actions| - 1])
  }

  /** Every action is enabled where it is taken; any schedule of watermarks and firing orders is covered. */
  ghost predicate Legal(s: State, actions: seq<Action>)
    decreases |actions|
  {
    actions == [] ||
    (Legal(s, actions[..|actions| - 1]) && Enabled(Run(s, actions[..|actions| - 1]).job, actions[|actions| - 1]))
  }

  ghost predicate Reachable(s: State) {
    exists actions: seq<Action> :: Legal(INITIAL, actions) && s == Run(INITIAL, actions)
  }

  // ---------------------------------------------------------------- the user functions of the job

  /** Keyed "seen" state with a time to live that duplicates do not refresh. */
  class EventIdDeduplicator {
    var seen: map<string, int>

    constructor ()
      ensures seen == map[]
    {
      seen := map[];
    }

    method ProcessElement(e: DeliveryEvent, at: int) returns (collected: bool)
      modifies this
      ensures collected <==> !Remembered(old(seen), e.eventId, at)
      ensures seen == if collected then old(seen)[e.eventId := at] else old(seen)
    {
      var value: Option<int> := None;
      if e.eventId in seen && at < seen[e.eventId] + DEDUP_TTL { value := Some(seen[e.eventId]); }
      collected := value.None?;
      if collected { seen := seen[e.eventId := at]; }
    }
  }

  /** What a row publishes beside its key and revision. */
  datatype Metrics = Metrics(
    windowStart: int,
    windowEnd: int,
    revision: nat,
    requests: int,
    error5xxRate: real,
    cacheHitRatio: real,
    bytesSent: int,
    originMsTotal: real,
    p50: real,
    p95: real,
    p99: real)

  function MetricsOf(b: Branch, row: Row): Metrics {
    var s := row.snapshot;
    Metrics(row.window.start, row.window.start + Size(b), row.revision, s.requests, Ratio(s.errors5xx, s.requests),
            Ratio(s.cacheHits, s.requests), s.bytesSent, s.originMsTotal, s.p50, s.p95, s.p99)
  }

  /** Per-window revision state: absent before the first firing. */
  class WindowRevision {
    var revision: Option<nat>

    ghost function Firings(): nat
      reads this
    {
      if revision.None? then 0 else revision.value + 1
    }

    constructor ()
      ensures Firings() == 0
    {
      revision := None;
    }

    method Next() returns (r: nat)
      modifies this
      ensures r == old(Firings()) && Firings() == old(Firings()) + 1
    {
      r := if revision.None? then 0 else revision.value + 1;
      revision := Some(r);
    }

    /** The process-window function: emits the row that the operator model fires for this window. */
    method Process(b: Branch, w: Window, snapshot: Snapshot) returns (output: Metrics)
      modifies this
      ensures output == MetricsOf(b, Row(w, old(Firings()), snapshot))
      ensures Firings() == old(Firings()) + 1
    {
      var next := Next();
      var errorRate := if snapshot.requests == 0 then 0.0 else snapshot.errors5xx as real / snapshot.requests as real;
      var hitRatio := if snapshot.requests == 0 then 0.0 else snapshot.cacheHits as real / snapshot.requests as real;
      output := Metrics(w.start, w.start + Size(b), next, snapshot.requests, errorRate, hitRatio, snapshot.bytesSent,
                        snapshot.originMsTotal, snapshot.p50, snapshot.p95, snapshot.p99);
    }
  }
}
