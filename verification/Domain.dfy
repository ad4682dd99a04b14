/** The record types of the recommendation service.  Instants and durations are integer nanoseconds,
    with 0 the zero instant; real numbers stand for the service's floating-point fields. */
module Domain {

  datatype Option<+T> = None | Some(value: T)

  datatype Result<+T, +E> = Ok(value: T) | Err(error: E)

  type Instant = int
  type Duration = int

  datatype Scope = Scope(location: string, networkId: string) {
    function Key(): string { location + "|" + networkId }
  }

  datatype NodeMetric = NodeMetric(
    windowStart: Instant,
    windowEnd: Instant,
    scope: Scope,
    nodeId: string,
    requests: nat,
    errorRate: real,
    cacheHitRate: real,
    originMs: real,
    p50Ms: real,
    p95Ms: real,
    p99Ms: real,
    saturation: real,
    healthy: bool)

  /** A robust z-score; division by a vanishing spread gives +Inf. */
  datatype Score = Finite(value: real) | Infinite {
    predicate AtMost(bound: real) { Finite? && value <= bound }
    predicate AtLeast(bound: real) { Infinite? || value >= bound }
  }

  datatype Signal = Signal(
    nodeId: string,
    anomalous: bool,
    severity: real,
    reasonCodes: seq<string>,
    baselineMs: real,
    robustZ: Score)

  datatype ExpectedDelta = ExpectedDelta(p95Ms: real, errorRate: real, costUnits: real)

  function Abs(x: real): real { if x < 0.0 then -x else x }
  function Max(a: real, b: real): real { if a >= b then a else b }
  function Min(a: real, b: real): real { if a <= b then a else b }

  function P95Of(m: NodeMetric): real { m.p95Ms }
  function ErrorOf(m: NodeMetric): real { m.errorRate }
  function HitOf(m: NodeMetric): real { m.cacheHitRate }
}
