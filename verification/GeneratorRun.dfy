/** A whole generator run: every request's records go to the sink and are counted in the manifest. */
module GeneratorRun {
  import opened Domain
  import opened Ordering
  import opened DeliveryEvents
  import opened Generator
  import opened KafkaSink

  datatype LabelWindow = LabelWindow(kind: string, start: Instant, end: Instant, target: string, network: string)

  function LabelOf(start: Instant): ScenarioItem -> LabelWindow {
    (item: ScenarioItem) =>
      LabelWindow(item.kind, start + item.at, start + (item.at + item.duration), item.target, item.network)
  }

  datatype Manifest = Manifest(
    baseRequests: nat,
    recordsByTopic: map<string, nat>,
    deliveryRecordsByKey: map<string, nat>,
    duplicateRecords: nat,
    schemaErrorRecords: nat,
    expectedLabels: seq<LabelWindow>)

  function CountAt(m: map<string, nat>, key: string): nat { if key in m then m[key] else 0 }

  function OnTopic(topic: string): Record -> bool { (r: Record) => r.topic == topic }
  function OnTopicWithKey(topic: string, key: string): Record -> bool {
    (r: Record) => r.topic == topic && r.key == key
  }
  function IsDuplicate(r: Record): bool { r.duplicate }
  function IsSchemaInvalid(r: Record): bool { r.schemaInvalid }

  /** The manifest counts exactly the given records. */
  ghost predicate CountsOf(cfg: Config, m: Manifest, emitted: seq<Record>) {
    && (forall topic :: CountAt(m.recordsByTopic, topic) == Count(emitted, OnTopic(topic)))
    && (forall key :: CountAt(m.deliveryRecordsByKey, key) == Count(emitted, OnTopicWithKey(TopicName(cfg), key)))
    && (forall key :: key in m.deliveryRecordsByKey ==> m.deliveryRecordsByKey[key] > 0)
    && m.duplicateRecords == Count(emitted, IsDuplicate)
    && m.schemaErrorRecords == Count(emitted, IsSchemaInvalid)
  }

  function Bump(m: map<string, nat>, key: string): map<string, nat> { m[key := CountAt(m, key) + 1] }

  function Counted(cfg: Config, m: Manifest, r: Record): Manifest {
    m.(recordsByTopic := Bump(m.recordsByTopic, r.topic),
       deliveryRecordsByKey := if r.topic == TopicName(cfg) then Bump(m.deliveryRecordsByKey, r.key)
                               else m.deliveryRecordsByKey,
       duplicateRecords := m.duplicateRecords + (if r.duplicate then 1 else 0),
       schemaErrorRecords := m.schemaErrorRecords + (if r.schemaInvalid then 1 else 0))
  }

  lemma CountSnoc<T>(s: seq<T>, x: T, p: T -> bool)
    ensures Count(s + [x], p) == Count(s, p) + (if p(x) then 1 else 0)
  {
    CountConcat(s, [x], p);
  }

  lemma CountedIsCounted(cfg: Config, m: Manifest, emitted: seq<Record>, r: Record)
    requires CountsOf(cfg, m, emitted)
    ensures CountsOf(cfg, Counted(cfg, m, r), emitted + [r])
  {
    hide Count;
    hide TopicName;
    var m' := Counted(cfg, m, r);
    CountSnoc(emitted, r, IsDuplicate);
    CountSnoc(emitted, r, IsSchemaInvalid);
    forall topic ensures CountAt(m'.recordsByTopic, topic) == Count(emitted + [r], OnTopic(topic)) {
      CountSnoc(emitted, r, OnTopic(topic));
    }
    forall key
      ensures CountAt(m'.deliveryRecordsByKey, key) == Count(emitted + [r], OnTopicWithKey(TopicName(cfg), key))
    {
      CountSnoc(emitted, r, OnTopicWithKey(TopicName(cfg), key));
    }
  }

  /** Duration in seconds times rate, rounded half up. */
  function TotalRequests(cfg: Config): int { (2 * cfg.duration * cfg.ratePerSecond + SECOND) / (2 * SECOND) }

  /** The number of requests is the duration times the rate, rounded to the nearest integer, halves up. */
  lemma TotalRequestsLaw(cfg: Config)
    requires ValidConfig(cfg)
    ensures var exact := (cfg.duration * cfg.ratePerSecond) as real / 1_000_000_000.0;
            TotalRequests(cfg) >= 0 && exact - 0.5 < TotalRequests(cfg) as real <= exact + 0.5
  {
    hide ValidItem;
    var product := cfg.duration * cfg.ratePerSecond;
    assert product >= 0 by { PositiveProduct(cfg.duration, cfg.ratePerSecond); }
    var n := TotalRequests(cfg);
    assert 2 * cfg.duration * cfg.ratePerSecond == 2 * product;
    assert n * (2 * SECOND) <= 2 * product + SECOND < (n + 1) * (2 * SECOND);
  }

  lemma PositiveProduct(a: int, b: int)
    requires a > 0 && b > 0
    ensures a * b > 0
  {
  }

  /** A valid configuration and one set of random draws per request. */
  ghost predicate ValidInput(cfg: Config, draws: seq<Draws>) {
    ValidConfig(cfg) && |draws| == TotalRequests(cfg) && forall i :: 0 <= i < |draws| ==> ValidDraws(cfg, draws[i])
  }

  /** The records of the first n requests, in order. */
  function Records(cfg: Config, draws: seq<Draws>, n: nat): seq<Record>
    requires ValidConfig(cfg) && n <= |draws|
    requires forall i :: 0 <= i < |draws| ==> ValidDraws(cfg, draws[i])
  {
    if n == 0 then [] else Records(cfg, draws, n - 1) + RequestRecords(cfg, n - 1, draws[n - 1])
  }

  lemma {:induction false} RecordsPrefix(cfg: Config, draws: seq<Draws>, n: nat, m: nat)
    requires ValidInput(cfg, draws) && n <= m <= |draws|
    ensures Records(cfg, draws, n) <= Records(cfg, draws, m)
  {
    hide ValidConfig;
    hide RequestRecords;
    if n < m { RecordsPrefix(cfg, draws, n, m - 1); }
  }

  lemma NoRecords(cfg: Config, draws: seq<Draws>)
    requires ValidInput(cfg, draws)
    ensures Records(cfg, draws, 0) == []
  {
  }

  lemma RecordsNext(cfg: Config, draws: seq<Draws>, n: nat)
    requires ValidInput(cfg, draws) && n < |draws|
    ensures Records(cfg, draws, n + 1) == Records(cfg, draws, n) + RequestRecords(cfg, n, draws[n])
  {
  }

  /** Emits and counts one request's records; stops at the first failed write, whose record the sink has buffered but
      the manifest does not count. */
  method EmitAll(cfg: Config, records: seq<Record>, before: Manifest, sink: Kafka, ghost emitted: seq<Record>)
    returns (m: Manifest, ok: bool, ghost all: seq<Record>)
    requires CountsOf(cfg, before, emitted)
    modifies sink
    ensures CountsOf(cfg, m, all)
    ensures m.baseRequests == before.baseRequests && m.expectedLabels == before.expectedLabels
    ensures ok ==> all == emitted + records && sink.Handed() == old(sink.Handed()) + records
    ensures !ok ==> exists k :: 0 <= k < |records| && all == emitted + records[..k]
                                && sink.Handed() == old(sink.Handed()) + records[..k + 1]
  {
    hide CountsOf;
    m, ok, all := before, true, emitted;
    assert emitted + records[..0] == emitted && old(sink.Handed()) + records[..0] == old(sink.Handed());
    for i := 0 to |records|
      invariant CountsOf(cfg, m, all)
      invariant m.baseRequests == before.baseRequests && m.expectedLabels == before.expectedLabels
      invariant all == emitted + records[..i]
      invariant sink.Handed() == old(sink.Handed()) + records[..i]
    {
      var r := records[i];
      var written := sink.Write(r);
      assert records[..i + 1] == records[..i] + [r];
      assert sink.Handed() == old(sink.Handed()) + records[..i + 1];
      if !written { return m, false, all; }
      CountedIsCounted(cfg, m, all, r);
      m := Counted(cfg, m, r);
      all := all + [r];
    }
    assert records[..|records|] == records;
  }

  method LabelWindows(cfg: Config) returns (labels: seq<LabelWindow>)
    ensures labels == MapSeq(cfg.scenarios, LabelOf(cfg.start))
  {
    labels := [];
    for i := 0 to |cfg.scenarios|
      invariant labels == MapSeq(cfg.scenarios, LabelOf(cfg.start))[..i]
    {
      var item := cfg.scenarios[i];
      labels := labels + [LabelWindow(item.kind, cfg.start + item.at, cfg.start + (item.at + item.duration),
                                      item.target, item.network)];
    }
  }

  /** What an unfinished run leaves behind: the counted records are the beginning of the whole run's records, and the
      sink was handed just these (cancelled between requests) or these and the next one (its write failed). */
  ghost predicate StoppedAt(counted: seq<Record>, handed: seq<Record>, records: seq<Record>) {
    && counted <= records
    && (handed == counted || (|counted| < |records| && handed == counted + [records[|counted|]]))
  }

  lemma StoppedBetween(done: seq<Record>, records: seq<Record>)
    requires done <= records
    ensures StoppedAt(done, done, records)
  {
  }

  lemma StoppedWithin(done: seq<Record>, request: seq<Record>, k: nat, records: seq<Record>)
    requires k < |request| && done + request <= records
    ensures StoppedAt(done + request[..k], done + request[..k + 1], records)
  {
    var counted := done + request[..k];
    assert counted <= done + request;
    assert records[|counted|] == (done + request)[|done| + k] == request[k];
    assert done + request[..k + 1] == counted + [request[k]];
  }

  /** Generator.Run.  `cancelledAt` is the request before which the context is cancelled, if it is. */
  method Run(cfg: Config, draws: seq<Draws>, cancelledAt: nat, sink: Kafka)
    returns (m: Manifest, ok: bool, ghost all: seq<Record>)
    requires ValidInput(cfg, draws)
    modifies sink
    ensures CountsOf(cfg, m, all)
    ensures m.baseRequests == |draws| && m.expectedLabels == MapSeq(cfg.scenarios, LabelOf(cfg.start))
    ensures ok ==> all == Records(cfg, draws, |draws|)
                   && sink.Handed() == old(sink.Handed()) + Records(cfg, draws, |draws|)
    ensures !ok ==> exists handed :: sink.Handed() == old(sink.Handed()) + handed
                                     && StoppedAt(all, handed, Records(cfg, draws, |draws|))
    ensures cancelledAt < |draws| ==> !ok
  {
    hide CountsOf;
    hide RequestRecords;
    hide ValidConfig;
    hide ValidDraws;
    hide StoppedAt;
    hide Records;
    var labels := LabelWindows(cfg);
    m := Manifest(|draws|, map[], map[], 0, 0, labels);
    ok, all := true, [];
    NothingCounted(cfg, m);
    NoRecords(cfg, draws);
    assert old(sink.Handed()) + Records(cfg, draws, 0) == old(sink.Handed());
    for index := 0 to |draws|
      invariant CountsOf(cfg, m, all)
      invariant m.baseRequests == |draws| && m.expectedLabels == MapSeq(cfg.scenarios, LabelOf(cfg.start))
      invariant all == Records(cfg, draws, index)
      invariant sink.Handed() == old(sink.Handed()) + Records(cfg, draws, index)
      invariant index <= cancelledAt
    {
      RecordsPrefix(cfg, draws, index, |draws|);
      RecordsPrefix(cfg, draws, index + 1, |draws|);
      RecordsNext(cfg, draws, index);
      if index == cancelledAt {
        StoppedBetween(all, Records(cfg, draws, |draws|));
        return m, false, all;
      }
      var records := RequestRecords(cfg, index, draws[index]);
      ghost var done := all;
      m, ok, all := EmitAll(cfg, records, m, sink, all);
      if !ok {
        ghost var k :| 0 <= k < |records| && all == done + records[..k]
                       && sink.Handed() == (old(sink.Handed()) + done) + records[..k + 1];
        StoppedWithin(done, records, k, Records(cfg, draws, |draws|));
        assert sink.Handed() == old(sink.Handed()) + (done + records[..k + 1]);
        return m, false, all;
      }
      assert (old(sink.Handed()) + Records(cfg, draws, index)) + records
             == old(sink.Handed()) + Records(cfg, draws, index + 1);
    }
  }

  lemma NothingCounted(cfg: Config, m: Manifest)
    requires m.recordsByTopic == map[] && m.deliveryRecordsByKey == map[]
    requires m.duplicateRecords == 0 && m.schemaErrorRecords == 0
    ensures CountsOf(cfg, m, [])
  {
  }

  /** The program: run, close, and write the manifest only if both succeeded.  A written manifest means that all
      records it counts were handed over, in order, by successful batch writes. */
  method Generate(cfg: Config, draws: seq<Draws>, cancelledAt: nat, sink: Kafka) returns (written: Option<Manifest>)
    requires ValidInput(cfg, draws) && sink.Handed() == []
    modifies sink
    ensures written.Some? ==>
              && sink.Delivered() == Records(cfg, draws, |draws|)
              && CountsOf(cfg, written.value, sink.Delivered())
              && written.value.baseRequests == |draws|
              && written.value.expectedLabels == MapSeq(cfg.scenarios, LabelOf(cfg.start))
  {
    hide CountsOf;
    hide Records;
    var m, ok, all := Run(cfg, draws, cancelledAt, sink);
    var closed := sink.Close();
    if !ok || !closed { return None; }
    assert [] + Records(cfg, draws, |draws|) == Records(cfg, draws, |draws|);
    return Some(m);
  }

  // ---------------------------------------------------------------- what a complete manifest adds up to

  function FourthRequests(n: nat): nat { (n + 3) / 4 }

  lemma FourthNext(n: nat)
    requires n > 0
    ensures FourthRequests(n) == FourthRequests(n - 1) + (if (n - 1) % 4 == 0 then 1 else 0)
    ensures FourthRequests(n) > 0 && FourthRequests(0) == 0
  {
  }

  lemma RequestTopicCount(cfg: Config, index: nat, d: Draws)
    requires ValidConfig(cfg) && ValidDraws(cfg, d)
    ensures var topic, records := TopicName(cfg), RequestRecords(cfg, index, d);
            Count(records, OnTopic(topic)) == 1 + Count(records, IsDuplicate)
              + (if topic == ROUTING_TOPIC then 1 else 0)
              + (if topic == PLAYER_TOPIC && index % 4 == 0 then 1 else 0)
  {
    hide DeliveryOf;
    hide TopicName;
    hide ValidConfig;
    hide SchemaBroken;
    hide DeliveryKey;
    var topic := TopicName(cfg);
    var base := [Record(ROUTING_TOPIC, "request-" + d.hash, RoutingDecision, false, false),
                 DeliveryRecord(cfg, index, d, false)];
    var player := if index % 4 == 0 then [Record(PLAYER_TOPIC, d.hash, PlayerReport, false, false)] else [];
    var dup := if d.duplicate < cfg.duplicateRate then [DeliveryRecord(cfg, index, d, true)] else [];
    CountConcat(base + player, dup, OnTopic(topic));
    CountConcat(base, player, OnTopic(topic));
    CountConcat(base + player, dup, IsDuplicate);
    CountConcat(base, player, IsDuplicate);
    TwoCounts(base[0], base[1], OnTopic(topic));
    TwoCounts(base[0], base[1], IsDuplicate);
  }

  lemma TwoCounts<T>(x: T, y: T, p: T -> bool)
    ensures Count([x, y], p) == (if p(x) then 1 else 0) + (if p(y) then 1 else 0)
  {
    assert [x, y] == [x] + [y];
    CountConcat([x], [y], p);
  }

  lemma {:induction false} TopicCount(cfg: Config, draws: seq<Draws>, n: nat)
    requires ValidInput(cfg, draws) && n <= |draws|
    ensures var topic, records := TopicName(cfg), Records(cfg, draws, n);
            Count(records, OnTopic(topic)) == n + Count(records, IsDuplicate)
              + (if topic == ROUTING_TOPIC then n else 0)
              + (if topic == PLAYER_TOPIC then FourthRequests(n) else 0)
  {
    hide TopicName;
    hide RequestRecords;
    hide ValidConfig;
    hide ValidDraws;
    hide FourthRequests;
    FourthNext(n + 1);
    if n > 0 {
      hide Count;
      FourthNext(n);
      var topic := TopicName(cfg);
      TopicCount(cfg, draws, n - 1);
      RequestTopicCount(cfg, n - 1, draws[n - 1]);
      CountConcat(Records(cfg, draws, n - 1), RequestRecords(cfg, n - 1, draws[n - 1]), OnTopic(topic));
      CountConcat(Records(cfg, draws, n - 1), RequestRecords(cfg, n - 1, draws[n - 1]), IsDuplicate);
    }
  }

  lemma TopicsDistinct()
    ensures ROUTING_TOPIC != PLAYER_TOPIC && DELIVERY_TOPIC != ROUTING_TOPIC && DELIVERY_TOPIC != PLAYER_TOPIC
  {
    assert ROUTING_TOPIC[4] == 'r' && PLAYER_TOPIC[4] == 'p' && DELIVERY_TOPIC[4] == 'd';
  }

  /** In a complete run the delivery topic holds base requests plus duplicates exactly when it is neither the routing
      nor the player topic. */
  lemma DeliveryTopicTotal(cfg: Config, draws: seq<Draws>, m: Manifest)
    requires ValidInput(cfg, draws) && draws != [] && m.baseRequests == |draws|
    requires CountsOf(cfg, m, Records(cfg, draws, |draws|))
    ensures CountAt(m.recordsByTopic, TopicName(cfg)) == m.baseRequests + m.duplicateRecords <==>
            TopicName(cfg) != ROUTING_TOPIC && TopicName(cfg) != PLAYER_TOPIC
  {
    hide Records;
    hide Count;
    hide FourthRequests;
    FourthNext(|draws|);
    TopicCount(cfg, draws, |draws|);
    TopicsDistinct();
  }

  function KeyCounts(topic: string, records: seq<Record>): string -> nat {
    key => Count(records, OnTopicWithKey(topic, key))
  }

  lemma {:induction false} KeysPartition(topic: string, records: seq<Record>, keys: seq<string>)
    requires Distinct(keys)
    requires forall r :: r in records && r.topic == topic ==> r.key in keys
    ensures SumOver(keys, KeyCounts(topic, records)) == Count(records, OnTopic(topic))
    decreases |records|
  {
    hide Count;
    if records == [] {
      EmptyCounts(topic, keys);
    } else {
      var last := |records| - 1;
      var r := records[last];
      var f, g := KeyCounts(topic, records[..last]), KeyCounts(topic, records);
      assert records == records[..last] + [r];
      KeysPartition(topic, records[..last], keys);
      CountSnoc(records[..last], r, OnTopic(topic));
      forall key ensures g(key) == f(key) + (if r.topic == topic && r.key == key then 1 else 0) {
        CountSnoc(records[..last], r, OnTopicWithKey(topic, key));
      }
      if r.topic == topic {
        assert r in records;
        SumBump(keys, f, g, r.key);
      } else {
        SumSame(keys, f, g);
      }
    }
  }

  lemma EmptyCounts(topic: string, keys: seq<string>)
    ensures SumOver(keys, KeyCounts(topic, [])) == Count([], OnTopic(topic))
  {
    SumZero(keys, KeyCounts(topic, []));
  }

  function CountsIn(m: map<string, nat>): string -> nat { key => CountAt(m, key) }

  /** The per-key delivery counts add up to the delivery topic's count. */
  lemma DeliveryKeysTotal(cfg: Config, m: Manifest, emitted: seq<Record>, keys: seq<string>)
    requires CountsOf(cfg, m, emitted) && Lists(keys, m.deliveryRecordsByKey.Keys)
    ensures SumOver(keys, CountsIn(m.deliveryRecordsByKey)) == CountAt(m.recordsByTopic, TopicName(cfg))
  {
    hide Count;
    hide TopicName;
    var topic := TopicName(cfg);
    forall r | r in emitted && r.topic == topic ensures r.key in keys {
      var i :| 0 <= i < |emitted| && emitted[i] == r;
      assert CountAt(m.deliveryRecordsByKey, r.key) == Count(emitted, OnTopicWithKey(topic, r.key));
      CountPositive(emitted, OnTopicWithKey(topic, r.key), i);
    }
    SumSame(keys, CountsIn(m.deliveryRecordsByKey), KeyCounts(topic, emitted));
    KeysPartition(topic, emitted, keys);
  }

  lemma CountPositive<T>(s: seq<T>, p: T -> bool, i: nat)
    requires i < |s| && p(s[i])
    ensures Count(s, p) > 0
  {
    CountRemove(s, i, p);
  }

  /** A delivery record that the analytics job's parser dead-letters. */
  function DeadLettered(r: Record): bool {
    r.payload.Delivery? && DeadLetterCode(Readable(r.payload.event)).Some?
  }

  lemma RequestDeadLetters(cfg: Config, index: nat, d: Draws)
    requires ValidConfig(cfg) && ValidDraws(cfg, d) && NamesNotBlank(cfg)
    ensures Count(RequestRecords(cfg, index, d), DeadLettered) == Count(RequestRecords(cfg, index, d), IsSchemaInvalid)
  {
    hide ValidConfig;
    hide NamesNotBlank;
    hide DeliveryOf;
    hide DeadLetterCode;
    var records := RequestRecords(cfg, index, d);
    forall i | 0 <= i < |records| ensures DeadLettered(records[i]) <==> IsSchemaInvalid(records[i]) {
      assert records[i] in records;
      if records[i].payload.Delivery? { ParserMatchesGenerator(cfg, index, d, records[i]); }
    }
    CountAgree(records, DeadLettered, IsSchemaInvalid);
  }

  /** The manifest's schema errors are exactly the records the parser will dead-letter. */
  lemma {:induction false} SchemaErrorsAreDeadLetters(cfg: Config, draws: seq<Draws>, n: nat)
    requires ValidInput(cfg, draws) && NamesNotBlank(cfg) && n <= |draws|
    ensures Count(Records(cfg, draws, n), DeadLettered) == Count(Records(cfg, draws, n), IsSchemaInvalid)
  {
    hide RequestRecords;
    hide NamesNotBlank;
    hide ValidConfig;
    hide ValidDraws;
    if n > 0 {
      SchemaErrorsAreDeadLetters(cfg, draws, n - 1);
      RequestDeadLetters(cfg, n - 1, draws[n - 1]);
      CountConcat(Records(cfg, draws, n - 1), RequestRecords(cfg, n - 1, draws[n - 1]), DeadLettered);
      CountConcat(Records(cfg, draws, n - 1), RequestRecords(cfg, n - 1, draws[n - 1]), IsSchemaInvalid);
    }
  }
}
