/** Delivery events as the analytics job sees them, and the parser that splits the input into events and dead
    letters. */
module DeliveryEvents {
  import opened Domain

  /** A timestamp field: text that is missing or blank, text that is not an ISO-8601 instant, or an instant in
      nanoseconds. */
  datatype TimeText = Blank | Malformed | At(nanos: int)

  datatype DeliveryEvent = DeliveryEvent(
    schemaVersion: int,
    eventId: string,
    eventTime: TimeText,
    ingestTime: TimeText,
    requestId: string,
    contentId: string,
    nodeId: string,
    location: string,
    networkId: string,
    cacheStatus: string,
    httpStatus: int,
    bytesSent: int,
    ttfbMs: real,
    transferMs: real,
    originMs: real)
  {
    /** Milliseconds since the epoch, rounded down. */
    function Millis(): int { if eventTime.At? then eventTime.nanos / 1_000_000 else 0 }
  }

  /** A raw record: text that is not a JSON delivery event, or one that is. */
  datatype Raw = Unreadable | Readable(event: DeliveryEvent)

  /** Java's String.isBlank for ASCII text. */
  predicate IsBlank(s: string) { forall i :: 0 <= i < |s| ==> IsSpace(s[i]) }

  predicate IsSpace(c: char) { c == ' ' || '\t' <= c <= '\r' || '\U{1c}' <= c <= '\U{1f}' }

  const CACHE_STATUSES := {"HIT", "MISS", "BYPASS", "EXPIRED", "STALE", "UPDATING", "REVALIDATED", "UNKNOWN"}

  const INVALID_JSON := "INVALID_JSON"

  /** The error code of the first failed check, in the order of the checks; None for a valid event. */
  function Validate(e: DeliveryEvent): Option<string> {
    if IsBlank(e.eventId) then Some("MISSING_EVENT_ID")
    else if e.eventTime.Blank? then Some("MISSING_EVENT_TIME")
    else if e.ingestTime.Blank? then Some("MISSING_INGEST_TIME")
    else if IsBlank(e.requestId) then Some("MISSING_REQUEST_ID")
    else if IsBlank(e.contentId) then Some("MISSING_CONTENT_ID")
    else if IsBlank(e.nodeId) then Some("MISSING_NODE_ID")
    else if IsBlank(e.location) then Some("MISSING_LOCATION")
    else if IsBlank(e.networkId) then Some("MISSING_NETWORK_ID")
    else if IsBlank(e.cacheStatus) then Some("MISSING_CACHE_STATUS")
    else if e.schemaVersion != 1 then Some("INVALID_SCHEMA_VERSION")
    else if e.httpStatus < 100 || e.httpStatus > 599 then Some("INVALID_HTTP_STATUS")
    else if e.bytesSent < 0 || e.ttfbMs < 0.0 || e.transferMs < 0.0 || e.originMs < 0.0
    then Some("NEGATIVE_MEASUREMENT")
    else if e.eventTime.Malformed? || e.ingestTime.Malformed? then Some(INVALID_JSON)
    else if e.ingestTime.nanos < e.eventTime.nanos then Some("INGEST_BEFORE_EVENT")
    else if e.cacheStatus !in CACHE_STATUSES then Some("INVALID_CACHE_STATUS")
    else None
  }

  /** The code under which a record is dead-lettered; None for a record that becomes an event. */
  function DeadLetterCode(raw: Raw): Option<string> {
    match raw
    case Unreadable => Some(INVALID_JSON)
    case Readable(e) => Validate(e)
  }

  ghost predicate WellFormed(e: DeliveryEvent) {
    && !IsBlank(e.eventId) && !IsBlank(e.requestId) && !IsBlank(e.contentId) && !IsBlank(e.nodeId)
    && !IsBlank(e.location) && !IsBlank(e.networkId)
    && e.schemaVersion == 1
    && 100 <= e.httpStatus <= 599
    && e.bytesSent >= 0 && e.ttfbMs >= 0.0 && e.transferMs >= 0.0 && e.originMs >= 0.0
    && e.eventTime.At? && e.ingestTime.At? && e.eventTime.nanos <= e.ingestTime.nanos
  }

  /** An event passes validation exactly when it is well formed and names a known cache status. */
  lemma ValidIff(e: DeliveryEvent)
    ensures Validate(e).None? <==> WellFormed(e) && e.cacheStatus in CACHE_STATUSES
  {
    hide IsBlank;
    if e.cacheStatus in CACHE_STATUSES { KnownStatusNotBlank(e.cacheStatus); }
  }

  lemma KnownStatusNotBlank(status: string)
    requires status in CACHE_STATUSES
    ensures !IsBlank(status)
  {
    assert !IsSpace(status[0]);
  }

  /** A check of the parser: the code it gives, and whether the event fails it. */
  datatype Check = Check(code: string, fails: bool)

  function ChecksOf(e: DeliveryEvent): seq<Check> {
    [Check("MISSING_EVENT_ID", IsBlank(e.eventId)), Check("MISSING_EVENT_TIME", e.eventTime.Blank?),
     Check("MISSING_INGEST_TIME", e.ingestTime.Blank?), Check("MISSING_REQUEST_ID", IsBlank(e.requestId)),
     Check("MISSING_CONTENT_ID", IsBlank(e.contentId)), Check("MISSING_NODE_ID", IsBlank(e.nodeId)),
     Check("MISSING_LOCATION", IsBlank(e.location)), Check("MISSING_NETWORK_ID", IsBlank(e.networkId)),
     Check("MISSING_CACHE_STATUS", IsBlank(e.cacheStatus)), Check("INVALID_SCHEMA_VERSION", e.schemaVersion != 1),
     Check("INVALID_HTTP_STATUS", !(100 <= e.httpStatus <= 599)),
     Check("NEGATIVE_MEASUREMENT", e.bytesSent < 0 || e.ttfbMs < 0.0 || e.transferMs < 0.0 || e.originMs < 0.0),
     Check("INVALID_JSON", e.eventTime.Malformed? || e.ingestTime.Malformed?),
     Check("INGEST_BEFORE_EVENT", e.eventTime.At? && e.ingestTime.At? && e.ingestTime.nanos < e.eventTime.nanos),
     Check("INVALID_CACHE_STATUS", e.cacheStatus !in CACHE_STATUSES)]
  }

  /** A dead letter carries the code of the first check that its event fails. */
  lemma FirstFailureDecides(e: DeliveryEvent, i: nat)
    requires i < |ChecksOf(e)| && ChecksOf(e)[i].fails
    requires forall j :: 0 <= j < i ==> !ChecksOf(e)[j].fails
    ensures DeadLetterCode(Readable(e)) == Some(ChecksOf(e)[i].code)
  {
    hide IsBlank;
    var checks := ChecksOf(e);
    assert (i > 0 ==> !checks[0].fails) && (i > 1 ==> !checks[1].fails) && (i > 2 ==> !checks[2].fails);
    assert (i > 3 ==> !checks[3].fails) && (i > 4 ==> !checks[4].fails) && (i > 5 ==> !checks[5].fails);
    assert (i > 6 ==> !checks[6].fails) && (i > 7 ==> !checks[7].fails) && (i > 8 ==> !checks[8].fails);
    assert (i > 9 ==> !checks[9].fails) && (i > 10 ==> !checks[10].fails) && (i > 11 ==> !checks[11].fails);
    assert (i > 12 ==> !checks[12].fails) && (i > 13 ==> !checks[13].fails);
  }
}
