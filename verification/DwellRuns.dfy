/** Runs of the recommendation service: evaluations of different scopes interleave freely, and the process may restart.

An evaluation reads the clock and passes both dwell checks (`Begin`), later hands its recommendation to the publisher
(`Publish`) or gives up (`Abandon`), and finally stores its clock reading as the scope's timer (`Record`). */
module DwellRuns {
  import opened Domain
  import opened Ordering
  import opened Scopes

  datatype Call = Call(scope: Scope, now: Instant, published: bool)

  datatype Entry = Entry(scope: Scope, createdAt: Instant)

  datatype State = State(lastGenerated: map<string, Instant>, pending: map<nat, Call>, log: seq<Entry>)

  datatype Event =
    | Begin(id: nat, scope: Scope, now: Instant, latest: Option<Instant>)
    | Publish(id: nat)
    | Abandon(id: nat)
    | Record(id: nat)
    | Restart

  /** The two dwell checks; `latest` is the creation time of the stored recommendation, if the repository has one. */
  predicate Blocked(lastGenerated: map<string, Instant>, dwell: Duration, scope: Scope, now: Instant,
                    latest: Option<Instant>)
  {
    || (scope.Key() in lastGenerated && now - lastGenerated[scope.Key()] < dwell)
    || (latest.Some? && now - latest.value < dwell)
  }

  predicate Enabled(dwell: Duration, s: State, e: Event) {
    match e
    case Begin(id, scope, now, latest) =>
      id !in s.pending && ValidScope(scope) && !Blocked(s.lastGenerated, dwell, scope, now, latest)
    case Publish(id) => id in s.pending && !s.pending[id].published
    case Abandon(id) => id in s.pending && !s.pending[id].published
    case Record(id) => id in s.pending && s.pending[id].published
    case Restart => true
  }

  function Apply(s: State, e: Event): State {
    match e
    case Begin(id, scope, now, _) => s.(pending := s.pending[id := Call(scope, now, false)])
    case Publish(id) =>
      if id in s.pending then
        var call := s.pending[id];
        s.(pending := s.pending[id := call.(published := true)], log := s.log + [Entry(call.scope, call.now)])
      else s
    case Abandon(id) => s.(pending := s.pending - {id})
    case Record(id) =>
      if id in s.pending then
        var call := s.pending[id];
        s.(pending := s.pending - {id}, lastGenerated := s.lastGenerated[call.scope.Key() := call.now])
      else s
    case Restart => s.(pending := map[], lastGenerated := map[])
  }

  /** Creation times of one scope's publications, oldest first. */
  function Times(log: seq<Entry>, scope: Scope): seq<Instant>
    decreases |log|
  {
    if log == [] then []
    else
      var last := log[|log| - 1];
      Times(log[..|log| - 1], scope) + (if last.scope == scope then [last.createdAt] else [])
  }

  function Newest(log: seq<Entry>, scope: Scope): Option<Instant> {
    var times := Times(log, scope);
    if times == [] then None else Some(times[|times| - 1])
  }

  /** Two evaluations of one scope never overlap. */
  ghost predicate Serial(s: State, e: Event) {
    e.Begin? ==> forall id :: id in s.pending ==> s.pending[id].scope != e.scope
  }

  /** Where the process has no timer for the scope (after a restart), the repository knows the newest publication. */
  predicate RepositoryKnows(s: State, e: Event) {
    e.Begin? && e.scope.Key() !in s.lastGenerated ==> e.latest == Newest(s.log, e.scope)
  }

  /** A run from the empty state. */
  ghost predicate Run(dwell: Duration, events: seq<Event>, states: seq<State>) {
    && |states| == |events| + 1
    && states[0] == State(map[], map[], [])
    && forall i :: 0 <= i < |events| ==>
         Enabled(dwell, states[i], events[i]) && states[i + 1] == Apply(states[i], events[i])
  }

  ghost predicate Disciplined(events: seq<Event>, states: seq<State>)
    requires |states| == |events| + 1
  {
    forall i :: 0 <= i < |events| ==> Serial(states[i], events[i]) && RepositoryKnows(states[i], events[i])
  }

  // ---------------------------------------------------------------- the invariant

  ghost predicate Spaced(times: seq<Instant>, dwell: Duration) {
    forall i :: 0 < i < |times| ==> times[i] - times[i - 1] >= dwell
  }

  /** What is known of one pending call. */
  ghost predicate PendingOk(dwell: Duration, s: State, call: Call) {
    var newest := Newest(s.log, call.scope);
    && ValidScope(call.scope)
    && if call.published then newest == Some(call.now)
       else newest.Some? ==> call.now - newest.value >= dwell
  }

  ghost predicate TimerOk(s: State, scope: Scope) {
    scope.Key() in s.lastGenerated ==>
      Newest(s.log, scope) == Some(s.lastGenerated[scope.Key()])
  }

  ghost predicate Published(s: State, scope: Scope) {
    exists id :: id in s.pending && s.pending[id].scope == scope && s.pending[id].published
  }

  ghost predicate Inv(dwell: Duration, s: State) {
    && (forall scope :: ValidScope(scope) ==> Spaced(Times(s.log, scope), dwell))
    && (forall id :: id in s.pending ==> PendingOk(dwell, s, s.pending[id]))
    && (forall i, j :: i in s.pending && j in s.pending && i != j ==> s.pending[i].scope != s.pending[j].scope)
    && (forall scope :: ValidScope(scope) && !Published(s, scope) ==> TimerOk(s, scope))
  }

  lemma TimesSnoc(log: seq<Entry>, e: Entry, scope: Scope)
    ensures Times(log + [e], scope) == Times(log, scope) + (if e.scope == scope then [e.createdAt] else [])
  {
    assert (log + [e])[..|log|] == log;
  }

  lemma SpacedSnoc(times: seq<Instant>, x: Instant, dwell: Duration)
    requires Spaced(times, dwell)
    requires times != [] ==> x - times[|times| - 1] >= dwell
    ensures Spaced(times + [x], dwell)
  {
  }

  lemma PublishedKept(s: State, s': State, scope: Scope)
    requires forall id :: id in s.pending && s.pending[id].scope == scope && s.pending[id].published ==>
               id in s'.pending && s'.pending[id] == s.pending[id]
    ensures Published(s, scope) ==> Published(s', scope)
  {
    if Published(s, scope) {
      var id :| id in s.pending && s.pending[id].scope == scope && s.pending[id].published;
      assert s'.pending[id] == s.pending[id];
    }
  }

  lemma BeginKeeps(dwell: Duration, s: State, e: Event)
    requires Inv(dwell, s) && e.Begin?
    requires Enabled(dwell, s, e) && Serial(s, e) && RepositoryKnows(s, e)
    ensures Inv(dwell, Apply(s, e))
  {
    hide Newest;
    hide ValidScope;
    hide Times;
    var s' := Apply(s, e);
    assert !Published(s, e.scope);
    assert TimerOk(s, e.scope);
    assert PendingOk(dwell, s', s'.pending[e.id]);
    forall scope | ValidScope(scope) && !Published(s', scope) ensures TimerOk(s', scope) {
      PublishedKept(s, s', scope);
    }
  }

  lemma NewestSnoc(log: seq<Entry>, e: Entry, scope: Scope)
    ensures Newest(log + [e], scope) == if e.scope == scope then Some(e.createdAt) else Newest(log, scope)
  {
    hide Times;
    TimesSnoc(log, e, scope);
  }

  lemma PublishSpaced(dwell: Duration, log: seq<Entry>, call: Call, scope: Scope)
    requires Spaced(Times(log, scope), dwell)
    requires Newest(log, call.scope).Some? ==> call.now - Newest(log, call.scope).value >= dwell
    ensures Spaced(Times(log + [Entry(call.scope, call.now)], scope), dwell)
  {
    hide Times;
    TimesSnoc(log, Entry(call.scope, call.now), scope);
    if scope == call.scope { SpacedSnoc(Times(log, scope), call.now, dwell); }
  }

  lemma PublishKeeps(dwell: Duration, s: State, e: Event)
    requires Inv(dwell, s) && e.Publish? && Enabled(dwell, s, e)
    ensures Inv(dwell, Apply(s, e))
  {
    hide ValidScope;
    hide Times;
    hide Newest;
    hide Spaced;
    var s', call := Apply(s, e), s.pending[e.id];
    var entry := Entry(call.scope, call.now);
    assert PendingOk(dwell, s, call);
    forall scope | ValidScope(scope) ensures Spaced(Times(s'.log, scope), dwell) {
      PublishSpaced(dwell, s.log, call, scope);
    }
    forall id | id in s'.pending ensures PendingOk(dwell, s', s'.pending[id]) {
      assert PendingOk(dwell, s, s.pending[id]);
      NewestSnoc(s.log, entry, s'.pending[id].scope);
    }
    assert s'.pending[e.id].published;
    forall scope | ValidScope(scope) && !Published(s', scope) ensures TimerOk(s', scope) {
      assert scope != call.scope;
      NewestSnoc(s.log, entry, scope);
      PublishedKept(s, s', scope);
    }
  }

  lemma RecordKeeps(dwell: Duration, s: State, e: Event)
    requires Inv(dwell, s) && e.Record? && Enabled(dwell, s, e)
    ensures Inv(dwell, Apply(s, e))
  {
    hide ValidScope;
    hide Newest;
    hide Times;
    var s', call := Apply(s, e), s.pending[e.id];
    assert PendingOk(dwell, s, call);
    forall id | id in s'.pending ensures PendingOk(dwell, s', s'.pending[id]) {
      assert PendingOk(dwell, s, s.pending[id]);
    }
    forall scope | ValidScope(scope) && !Published(s', scope) ensures TimerOk(s', scope) {
      if scope != call.scope {
        if scope.Key() == call.scope.Key() { KeyInjective(scope, call.scope); }
        PublishedKept(s, s', scope);
      }
    }
  }

  lemma AbandonKeeps(dwell: Duration, s: State, e: Event)
    requires Inv(dwell, s) && e.Abandon? && Enabled(dwell, s, e)
    ensures Inv(dwell, Apply(s, e))
  {
    hide ValidScope;
    hide Newest;
    hide Times;
    var s' := Apply(s, e);
    forall id | id in s'.pending ensures PendingOk(dwell, s', s'.pending[id]) {
      assert PendingOk(dwell, s, s.pending[id]);
    }
    forall scope | ValidScope(scope) && !Published(s', scope) ensures TimerOk(s', scope) {
      PublishedKept(s, s', scope);
      assert TimerOk(s, scope);
    }
  }

  lemma StepKeeps(dwell: Duration, s: State, e: Event)
    requires Inv(dwell, s) && Enabled(dwell, s, e) && Serial(s, e) && RepositoryKnows(s, e)
    ensures Inv(dwell, Apply(s, e))
  {
    match e {
      case Begin(_, _, _, _) => BeginKeeps(dwell, s, e);
      case Publish(_) => PublishKeeps(dwell, s, e);
      case Abandon(_) => AbandonKeeps(dwell, s, e);
      case Record(_) => RecordKeeps(dwell, s, e);
      case Restart =>
    }
  }

  lemma {:induction false} RunInv(dwell: Duration, events: seq<Event>, states: seq<State>, n: nat)
    requires Run(dwell, events, states) && Disciplined(events, states) && n <= |events|
    ensures Inv(dwell, states[n])
  {
    hide Inv;
    if n == 0 {
      InitialInv(dwell);
    } else {
      RunInv(dwell, events, states, n - 1);
      StepKeeps(dwell, states[n - 1], events[n - 1]);
    }
  }

  lemma InitialInv(dwell: Duration)
    ensures Inv(dwell, State(map[], map[], []))
  {
  }

  // ---------------------------------------------------------------- run-level guarantees

  /** In every run, with any clock, any interleaving of scopes and any restarts, consecutive publications of one scope
      are at least the dwell apart. */
  lemma DwellHolds(dwell: Duration, events: seq<Event>, states: seq<State>, n: nat, scope: Scope, i: nat)
    requires Run(dwell, events, states) && Disciplined(events, states) && n <= |events| && ValidScope(scope)
    requires 0 < i < |Times(states[n].log, scope)|
    ensures Times(states[n].log, scope)[i] - Times(states[n].log, scope)[i - 1] >= dwell
  {
    hide ValidScope;
    hide Times;
    RunInv(dwell, events, states, n);
  }

  /** A scope is never kept waiting longer than the dwell: in every disciplined run, when no call of the scope is
      pending, a fresh evaluation that sees the newest publication passes the checks exactly when there is none or it is
      at least the dwell old. */
  lemma ReadyAfterDwell(dwell: Duration, events: seq<Event>, states: seq<State>, n: nat, e: Event)
    requires Run(dwell, events, states) && Disciplined(events, states) && n <= |events|
    requires e.Begin? && e.id !in states[n].pending && ValidScope(e.scope)
    requires forall id :: id in states[n].pending ==> states[n].pending[id].scope != e.scope
    requires e.latest == Newest(states[n].log, e.scope)
    ensures Enabled(dwell, states[n], e) <==> (e.latest.Some? ==> e.now - e.latest.value >= dwell)
  {
    hide ValidScope;
    hide Newest;
    hide Spaced;
    RunInv(dwell, events, states, n);
    assert !Published(states[n], e.scope);
    assert TimerOk(states[n], e.scope);
  }

  // ---------------------------------------------------------------- failed evaluations

  function After(s: State, events: seq<Event>): State
    decreases |events|
  {
    if events == [] then s else Apply(After(s, events[..|events| - 1]), events[|events| - 1])
  }

  /** The event is no step of call `id`. */
  predicate Foreign(e: Event, id: nat) { e.Restart? || e.id != id }

  ghost predicate SameBut(s: State, t: State, id: nat) {
    && s.lastGenerated == t.lastGenerated && s.log == t.log
    && id !in t.pending
    && s.pending - {id} == t.pending
  }

  lemma ForeignStep(dwell: Duration, s: State, t: State, e: Event, id: nat)
    requires SameBut(s, t, id) && Foreign(e, id)
    ensures SameBut(Apply(s, e), Apply(t, e), id)
    ensures Enabled(dwell, s, e) <==> Enabled(dwell, t, e)
  {
    hide ValidScope;
    hide Blocked;
    if !e.Restart? {
      assert e.id in s.pending <==> e.id in t.pending;
      if e.id in t.pending { assert t.pending[e.id] == (s.pending - {id})[e.id] == s.pending[e.id]; }
      assert Apply(s, e).pending - {id} == Apply(t, e).pending;
    }
  }

  /** A failed evaluation, whatever else happens between its start and its end, leaves no trace: every other step is
      enabled exactly as if it had never begun, and the state afterwards is the same. */
  lemma {:induction false} AbandonLeavesNoTrace(dwell: Duration, s: State, begin: Event, others: seq<Event>)
    requires begin.Begin? && begin.id !in s.pending
    requires forall i :: 0 <= i < |others| ==> Foreign(others[i], begin.id)
    ensures forall i :: 0 <= i < |others| ==>
              (Enabled(dwell, After(Apply(s, begin), others[..i]), others[i]) <==>
               Enabled(dwell, After(s, others[..i]), others[i]))
    ensures Apply(After(Apply(s, begin), others), Abandon(begin.id)) == After(s, others)
  {
    hide Enabled;
    hide SameBut;
    forall i | 0 <= i < |others|
      ensures Enabled(dwell, After(Apply(s, begin), others[..i]), others[i]) <==>
              Enabled(dwell, After(s, others[..i]), others[i])
    {
      ForeignSteps(dwell, s, begin, others[..i]);
      ForeignStep(dwell, After(Apply(s, begin), others[..i]), After(s, others[..i]), others[i], begin.id);
    }
    ForeignSteps(dwell, s, begin, others);
    Dropped(After(Apply(s, begin), others), After(s, others), begin.id);
  }

  lemma Dropped(s: State, t: State, id: nat)
    requires SameBut(s, t, id)
    ensures Apply(s, Abandon(id)) == t
  {
  }

  lemma {:induction false} ForeignSteps(dwell: Duration, s: State, begin: Event, others: seq<Event>)
    requires begin.Begin? && begin.id !in s.pending
    requires forall i :: 0 <= i < |others| ==> Foreign(others[i], begin.id)
    ensures SameBut(After(Apply(s, begin), others), After(s, others), begin.id)
    decreases |others|
  {
    hide Enabled;
    if others == [] {
      assert Apply(s, begin).pending - {begin.id} == s.pending;
    } else {
      hide SameBut;
      hide Apply;
      var last := |others| - 1;
      ForeignSteps(dwell, s, begin, others[..last]);
      ForeignStep(dwell, After(Apply(s, begin), others[..last]), After(s, others[..last]), others[last], begin.id);
    }
  }

  /** A call of another scope never changes whether a scope is blocked. */
  lemma ScopesIndependent(dwell: Duration, s: State, e: Event, scope: Scope, now: Instant, latest: Option<Instant>)
    requires Enabled(dwell, s, e) && ValidScope(scope) && !e.Restart?
    requires e.Record? ==> ValidScope(s.pending[e.id].scope) && s.pending[e.id].scope != scope
    ensures Blocked(Apply(s, e).lastGenerated, dwell, scope, now, latest) <==>
            Blocked(s.lastGenerated, dwell, scope, now, latest)
  {
    hide ValidScope;
    if e.Record? && s.pending[e.id].scope.Key() == scope.Key() {
      KeyInjective(s.pending[e.id].scope, scope);
    }
  }

  predicate Unexpired(createdAt: Instant, ttl: Duration, at: Instant) { createdAt <= at < createdAt + ttl }

  function ActiveAt(ttl: Duration, at: Instant): Instant -> bool { x => Unexpired(x, ttl, at) }

  lemma {:induction false} SpacedSpan(times: seq<Instant>, dwell: Duration, i: nat, j: nat)
    requires Spaced(times, dwell) && i <= j < |times|
    ensures times[j] - times[i] >= (j - i) * dwell
    decreases j
  {
    if i < j {
      SpacedSpan(times, dwell, i, j - 1);
      assert times[j] - times[j - 1] >= dwell;
      assert (j - i) * dwell == (j - 1 - i) * dwell + dwell;
    }
  }

  lemma CountBlock<T>(s: seq<T>, p: T -> bool, i: nat, j: nat)
    requires i <= j < |s|
    requires forall k :: 0 <= k < |s| && p(s[k]) ==> i <= k <= j
    ensures Count(s, p) <= j - i + 1
  {
    assert s == s[..i] + (s[i..j + 1] + s[j + 1..]);
    CountConcat(s[..i], s[i..j + 1] + s[j + 1..], p);
    CountConcat(s[i..j + 1], s[j + 1..], p);
    CountAtMost(s[..i], p, 0);
    CountAtMost(s[j + 1..], p, 0);
    CountBounds(s[i..j + 1], p);
  }

  lemma SpacedActive(times: seq<Instant>, dwell: Duration, ttl: Duration, at: Instant)
    requires Spaced(times, dwell) && dwell > 0 && ttl > 0
    ensures (Count(times, ActiveAt(ttl, at)) - 1) * dwell < ttl
  {
    var p := ActiveAt(ttl, at);
    if exists k :: 0 <= k < |times| && p(times[k]) {
      var i :| 0 <= i < |times| && p(times[i]);
      i := FirstActive(times, p, i);
      var j := LastActive(times, p, i);
      CountBlock(times, p, i, j);
      SpacedSpan(times, dwell, i, j);
      SmallerProduct(Count(times, p) - 1, j - i, dwell);
    } else {
      CountBounds(times, p);
    }
  }

  lemma SmallerProduct(a: int, b: int, m: int)
    requires a <= b && m > 0
    ensures a * m <= b * m
  {
  }

  lemma FirstActive<T>(s: seq<T>, p: T -> bool, start: nat) returns (i: nat)
    requires start < |s| && p(s[start])
    ensures i <= start && p(s[i]) && forall k :: 0 <= k < i ==> !p(s[k])
  {
    i := 0;
    while !p(s[i])
      invariant i <= start
      invariant forall k :: 0 <= k < i ==> !p(s[k])
      decreases start - i
    {
      i := i + 1;
    }
  }

  lemma LastActive<T>(s: seq<T>, p: T -> bool, start: nat) returns (j: nat)
    requires start < |s| && p(s[start])
    ensures start <= j < |s| && p(s[j]) && forall k :: j < k < |s| ==> !p(s[k])
  {
    j := |s| - 1;
    while !p(s[j])
      invariant start <= j < |s|
      invariant forall k :: j < k < |s| ==> !p(s[k])
      decreases j
    {
      j := j - 1;
    }
  }

  function CeilDiv(a: int, b: int): int
    requires b > 0
  {
    (a + b - 1) / b
  }

  lemma AtMostCeil(count: nat, dwell: Duration, ttl: Duration)
    requires dwell > 0 && (count - 1) * dwell < ttl
    ensures count <= CeilDiv(ttl, dwell)
  {
    var q := CeilDiv(ttl, dwell);
    assert q * dwell > ttl - 1;
    if count > q { SmallerProduct(q, count - 1, dwell); }
  }

  /** At any instant at most ceil(TTL / dwell) recommendations of a scope are unexpired. */
  lemma FewUnexpired(dwell: Duration, events: seq<Event>, states: seq<State>, n: nat, scope: Scope, ttl: Duration,
                     at: Instant)
    requires Run(dwell, events, states) && Disciplined(events, states) && n <= |events| && ValidScope(scope)
    requires dwell > 0 && ttl > 0
    ensures Count(Times(states[n].log, scope), ActiveAt(ttl, at)) <= CeilDiv(ttl, dwell)
  {
    hide ValidScope;
    hide Times;
    hide Count;
    hide CeilDiv;
    RunInv(dwell, events, states, n);
    SpacedActive(Times(states[n].log, scope), dwell, ttl, at);
    AtMostCeil(Count(Times(states[n].log, scope), ActiveAt(ttl, at)), dwell, ttl);
  }

  // ---------------------------------------------------------------- where the guarantee ends

  ghost predicate LegalFrom(dwell: Duration, s: State, events: seq<Event>) {
    forall i :: 0 <= i < |events| ==> Enabled(dwell, After(s, events[..i]), events[i])
  }

  lemma AfterThree(dwell: Duration, s: State, a: Event, b: Event, c: Event)
    requires Enabled(dwell, s, a) && Enabled(dwell, Apply(s, a), b) && Enabled(dwell, Apply(Apply(s, a), b), c)
    ensures LegalFrom(dwell, s, [a, b, c]) && After(s, [a, b, c]) == Apply(Apply(Apply(s, a), b), c)
  {
    hide Enabled;
    hide Apply;
    var events := [a, b, c];
    assert events[..0] == [] && events[..1] == [a] && events[..2] == [a, b];
    assert [a][..0] == [] && [a, b][..1] == [a];
    assert After(s, [a]) == Apply(s, a) && After(s, [a, b]) == Apply(Apply(s, a), b);
  }

  /** Publishing is safe exactly when the newest publication is old enough. */
  lemma SpacedIff(times: seq<Instant>, x: Instant, dwell: Duration)
    requires Spaced(times, dwell)
    ensures Spaced(times + [x], dwell) <==> (times != [] ==> x - times[|times| - 1] >= dwell)
  {
    if times == [] || x - times[|times| - 1] >= dwell {
      SpacedSnoc(times, x, dwell);
    } else {
      assert (times + [x])[|times|] == x && (times + [x])[|times| - 1] == times[|times| - 1];
    }
  }

  /** An evaluation that passed the checks and publishes keeps its scope spaced if and only if the scope's newest
      publication at that time is at least the dwell old, whether or not the checks saw that publication. */
  lemma PublishingIsSafeIff(dwell: Duration, s: State, e: Event)
    requires e.Begin? && Enabled(dwell, s, e) && Spaced(Times(s.log, e.scope), dwell)
    ensures Enabled(dwell, Apply(s, e), Publish(e.id))
    ensures Spaced(Times(Apply(Apply(s, e), Publish(e.id)).log, e.scope), dwell) <==>
            (Newest(s.log, e.scope).Some? ==> e.now - Newest(s.log, e.scope).value >= dwell)
  {
    hide ValidScope;
    hide Times;
    hide Spaced;
    TimesSnoc(s.log, Entry(e.scope, e.now), e.scope);
    SpacedIff(Times(s.log, e.scope), e.now, dwell);
  }

  /** Every overlap can break the dwell: when an evaluation starts while another one of its scope has passed the checks
      and not yet published, both can publish, and one of the two orders leaves a gap below the dwell. */
  lemma OverlapBreaksDwell(dwell: Duration, s: State, e: Event, id: nat)
    requires dwell > 0 && e.Begin? && Enabled(dwell, s, e)
    requires id in s.pending && !s.pending[id].published && s.pending[id].scope == e.scope
    ensures LegalFrom(dwell, s, [e, Publish(id), Publish(e.id)]) && LegalFrom(dwell, s, [e, Publish(e.id), Publish(id)])
    ensures !Spaced(Times(After(s, [e, Publish(id), Publish(e.id)]).log, e.scope), dwell)
            || !Spaced(Times(After(s, [e, Publish(e.id), Publish(id)]).log, e.scope), dwell)
  {
    hide ValidScope;
    hide Times;
    hide Spaced;
    AfterThree(dwell, s, e, Publish(id), Publish(e.id));
    AfterThree(dwell, s, e, Publish(e.id), Publish(id));
    hide After;
    hide LegalFrom;
    var old', new' := s.pending[id].now, e.now;
    TwoPublications(s.log, e.scope, old', new', dwell);
    TwoPublications(s.log, e.scope, new', old', dwell);
  }

  lemma TwoPublications(log: seq<Entry>, scope: Scope, x: Instant, y: Instant, dwell: Duration)
    ensures Spaced(Times(log + [Entry(scope, x)] + [Entry(scope, y)], scope), dwell) ==> y - x >= dwell
  {
    hide Times;
    TimesSnoc(log, Entry(scope, x), scope);
    TimesSnoc(log + [Entry(scope, x)], Entry(scope, y), scope);
    var times := Times(log, scope);
    assert (times + [x] + [y])[|times| + 1] == y && (times + [x] + [y])[|times|] == x;
  }

  /** After a restart an evaluation passes the checks if and only if the repository's answer is old enough, and its
      publication then keeps the scope spaced if and only if the newest publication is. */
  lemma RestartIsSafeIff(dwell: Duration, s: State, e: Event)
    requires e.Begin? && ValidScope(e.scope) && Spaced(Times(s.log, e.scope), dwell)
    ensures Enabled(dwell, Apply(s, Restart), e) <==> (e.latest.Some? ==> e.now - e.latest.value >= dwell)
    ensures Enabled(dwell, Apply(s, Restart), e) ==>
              LegalFrom(dwell, s, [Restart, e, Publish(e.id)])
              && (Spaced(Times(After(s, [Restart, e, Publish(e.id)]).log, e.scope), dwell) <==>
                  (Newest(s.log, e.scope).Some? ==> e.now - Newest(s.log, e.scope).value >= dwell))
  {
    hide ValidScope;
    hide Times;
    hide Spaced;
    if Enabled(dwell, Apply(s, Restart), e) {
      PublishingIsSafeIff(dwell, Apply(s, Restart), e);
      AfterThree(dwell, s, Restart, e, Publish(e.id));
    }
  }

  const SYDNEY := Scope("sydney", "UNKNOWN")

  const FIRST := Entry(SYDNEY, 0)

  /** Two evaluations of one scope overlap. */
  const OVERLAP: seq<Event> := [Begin(0, SYDNEY, 0, None), Begin(1, SYDNEY, 0, None), Publish(0), Publish(1)]

  const OVERLAP_STATES: seq<State> :=
    [State(map[], map[], []),
     State(map[], map[0 := Call(SYDNEY, 0, false)], []),
     State(map[], map[0 := Call(SYDNEY, 0, false), 1 := Call(SYDNEY, 0, false)], []),
     State(map[], map[0 := Call(SYDNEY, 0, true), 1 := Call(SYDNEY, 0, false)], [FIRST]),
     State(map[], map[0 := Call(SYDNEY, 0, true), 1 := Call(SYDNEY, 0, true)], [FIRST, FIRST])]

  lemma OverlapStep(dwell: Duration, i: nat)
    requires dwell > 0 && i < 4
    ensures Enabled(dwell, OVERLAP_STATES[i], OVERLAP[i])
    ensures OVERLAP_STATES[i + 1] == Apply(OVERLAP_STATES[i], OVERLAP[i])
  {
    assert ValidScope(SYDNEY);
    hide ValidScope;
    hide Scope.Key;
    assert [] + [FIRST] == [FIRST] && [FIRST] + [FIRST] == [FIRST, FIRST];
    assert i == 0 || i == 1 || i == 2 || i == 3;
  }

  lemma TwoFirsts()
    ensures Times([FIRST, FIRST], SYDNEY) == [0, 0]
  {
    TimesSnoc([], FIRST, SYDNEY);
    TimesSnoc([FIRST], FIRST, SYDNEY);
    assert [] + [FIRST] == [FIRST] && [FIRST] + [FIRST] == [FIRST, FIRST];
  }

  /** Overlaps are reachable: from the empty state two evaluations publish at the same instant. */
  lemma OverlapWitness(dwell: Duration)
    requires dwell > 0
    ensures Run(dwell, OVERLAP, OVERLAP_STATES)
    ensures Times(OVERLAP_STATES[4].log, SYDNEY) == [0, 0]
  {
    hide Apply;
    hide Enabled;
    hide Times;
    forall i: nat | i < 4
      ensures Enabled(dwell, OVERLAP_STATES[i], OVERLAP[i])
      ensures OVERLAP_STATES[i + 1] == Apply(OVERLAP_STATES[i], OVERLAP[i])
    {
      OverlapStep(dwell, i);
    }
    TwoFirsts();
  }

  /** Publish, record, restart, publish again at once. */
  const FORGETFUL: seq<Event> :=
    [Begin(0, SYDNEY, 0, None), Publish(0), Record(0), Restart, Begin(1, SYDNEY, 0, None), Publish(1)]

  const FORGETFUL_STATES: seq<State> :=
    [State(map[], map[], []),
     State(map[], map[0 := Call(SYDNEY, 0, false)], []),
     State(map[], map[0 := Call(SYDNEY, 0, true)], [FIRST]),
     State(map[SYDNEY.Key() := 0], map[], [FIRST]),
     State(map[], map[], [FIRST]),
     State(map[], map[1 := Call(SYDNEY, 0, false)], [FIRST]),
     State(map[], map[1 := Call(SYDNEY, 0, true)], [FIRST, FIRST])]

  lemma ForgetfulStep(dwell: Duration, i: nat)
    requires dwell > 0 && i < 6
    ensures Enabled(dwell, FORGETFUL_STATES[i], FORGETFUL[i])
    ensures FORGETFUL_STATES[i + 1] == Apply(FORGETFUL_STATES[i], FORGETFUL[i])
    ensures Serial(FORGETFUL_STATES[i], FORGETFUL[i])
  {
    assert ValidScope(SYDNEY);
    hide ValidScope;
    hide Scope.Key;
    assert [] + [FIRST] == [FIRST] && [FIRST] + [FIRST] == [FIRST, FIRST];
    assert map[0 := Call(SYDNEY, 0, true)] - {0} == map[];
    if i < 3 {
      assert i == 0 || i == 1 || i == 2;
    } else {
      assert i == 3 || i == 4 || i == 5;
    }
  }

  /** Unsafe restarts are reachable: without any overlap, a repository that missed the publication lets the scope
      publish again at once. */
  lemma ForgetfulRestartWitness(dwell: Duration)
    requires dwell > 0
    ensures Run(dwell, FORGETFUL, FORGETFUL_STATES)
    ensures forall i :: 0 <= i < 6 ==> Serial(FORGETFUL_STATES[i], FORGETFUL[i])
    ensures Times(FORGETFUL_STATES[6].log, SYDNEY) == [0, 0]
  {
    hide Apply;
    hide Enabled;
    hide Serial;
    forall i: nat | i < 6
      ensures Enabled(dwell, FORGETFUL_STATES[i], FORGETFUL[i])
      ensures FORGETFUL_STATES[i + 1] == Apply(FORGETFUL_STATES[i], FORGETFUL[i])
      ensures Serial(FORGETFUL_STATES[i], FORGETFUL[i])
    {
      ForgetfulStep(dwell, i);
    }
    TwoFirsts();
  }
}
