/** In-memory sliding-window rate limiter (common/rate-limit.go).

A limiter keeps, per key, a queue of at most `max` acceptance times. A background sweep drops
queues whose newest entry is older than the limiter's expiration. The reference definition keeps
the whole history of acceptance times and never forgets anything. The main results say that the
two agree on every run, and that they agree exactly when the expiration is at least `duration - 1`.
*/
module RateLimiter {

  type Store = map<string, seq<int>>

  datatype Limits = Limits(max: int, duration: int)

  datatype Event =
    | Request(key: string, now: int)
    | Sweep(now: int)

  // ---------------------------------------------------------------- one step

  /** `Request`: the new store and the verdict. */
  function RequestStep(store: Store, key: string, l: Limits, now: int): (Store, bool) {
    if l.max <= 0 then (store, true)
    else if key !in store then (store[key := [now]], true)
    else
      var q := store[key];
      if |q| < l.max then (store[key := q + [now]], true)
      else if now - q[0] >= l.duration then (store[key := q[1..] + [now]], true)
      else (store, false)
  }

  predicate Expired(q: seq<int>, expiration: int, now: int) {
    |q| == 0 || now - q[|q| - 1] > expiration
  }

  /** One pass of `clearExpiredItems`. */
  function SweepStep(store: Store, expiration: int, now: int): Store {
    map k | k in store && !Expired(store[k], expiration, now) :: store[k]
  }

  // ---------------------------------------------------------------- the object

  class Limiter {
    var store: Store
    const expiration: int

    constructor (expiration: int)
      ensures store == map[] && this.expiration == expiration
    {
      store := map[];
      this.expiration := expiration;
    }

    /** `InMemoryRateLimiter.Request`; `now` is the clock value read under the mutex. */
    method Request(key: string, l: Limits, now: int) returns (accepted: bool)
      modifies this
      ensures (store, accepted) == RequestStep(old(store), key, l, now)
    {
      if l.max <= 0 {
        return true;
      }
      if key in store {
        var queue := store[key];
        if |queue| < l.max {
          store := store[key := queue + [now]];
          return true;
        } else if now - queue[0] >= l.duration {
          queue := queue[1..];
          store := store[key := queue + [now]];
          return true;
        } else {
          return false;
        }
      }
      store := store[key := []];
      store := store[key := store[key] + [now]];
      assert [] + [now] == [now];
      assert store == old(store)[key := [now]];
      return true;
    }

    /** The body of the loop in `clearExpiredItems`: visit the keys in any order, delete as we go. */
    method ClearExpiredItems(now: int)
      modifies this
      ensures store == SweepStep(old(store), expiration, now)
    {
      var keys := store.Keys;
      while keys != {}
        invariant keys <= store.Keys <= old(store).Keys
        invariant forall k :: k in store ==> store[k] == old(store)[k]
        invariant forall k :: k in old(store).Keys - keys ==>
                                (k in store <==> !Expired(old(store)[k], expiration, now))
        decreases |keys|
      {
        var key :| key in keys;
        keys := keys - {key};
        if Expired(store[key], expiration, now) {
          store := store - {key};
        }
      }
    }
  }

  // ---------------------------------------------------------------- runs

  /** The verdicts of a run: one per event, `true` for a sweep. */
  function Run(store: Store, limits: string -> Limits, expiration: int, events: seq<Event>): seq<bool>
    decreases events
  {
    if events == [] then []
    else match events[0]
      case Request(k, now) =>
        var (store', ok) := RequestStep(store, k, limits(k), now);
        [ok] + Run(store', limits, expiration, events[1..])
      case Sweep(now) =>
        [true] + Run(SweepStep(store, expiration, now), limits, expiration, events[1..])
  }

  // ---------------------------------------------------------------- full history

  /** Times of the accepted requests of every key, oldest first, nothing ever forgotten. */
  type History = map<string, seq<int>>

  function Times(h: History, key: string): seq<int> {
    if key in h then h[key] else []
  }

  /** How many of `times` lie in the last `duration` seconds before `now`. */
  function CountRecent(times: seq<int>, now: int, duration: int): nat {
    if times == [] then 0
    else CountRecent(times[..|times| - 1], now, duration) + (if now - times[|times| - 1] < duration then 1 else 0)
  }

  predicate Allowed(h: History, key: string, l: Limits, now: int) {
    l.max <= 0 || CountRecent(Times(h, key), now, l.duration) < l.max
  }

  function Record(h: History, key: string, l: Limits, now: int): History {
    if l.max > 0 && Allowed(h, key, l, now) then h[key := Times(h, key) + [now]] else h
  }

  /** The reference limiter: a request passes when fewer than `max` accepted ones are recent. */
  function Reference(h: History, limits: string -> Limits, events: seq<Event>): seq<bool>
    decreases events
  {
    if events == [] then []
    else match events[0]
      case Request(k, now) =>
        [Allowed(h, k, limits(k), now)] + Reference(Record(h, k, limits(k), now), limits, events[1..])
      case Sweep(now) => [true] + Reference(h, limits, events[1..])
  }

  /** The history after a whole run of the reference limiter. */
  function HistoryAfter(h: History, limits: string -> Limits, events: seq<Event>): History
    decreases events
  {
    if events == [] then h
    else match events[0]
      case Request(k, now) => HistoryAfter(Record(h, k, limits(k), now), limits, events[1..])
      case Sweep(now) => HistoryAfter(h, limits, events[1..])
  }

  function Clock(e: Event): int { e.now }

  /** The clock never goes back, and `since` is no later than the first event. */
  predicate Nondecreasing(events: seq<Event>, since: int) {
    events == [] || (since <= Clock(events[0]) && Nondecreasing(events[1..], Clock(events[0])))
  }

  // ---------------------------------------------------------------- what the queue keeps

  predicate Sorted(s: seq<int>) {
    forall i, j :: 0 <= i <= j < |s| ==> s[i] <= s[j]
  }

  /** `queue` is what is left of `times`: a suffix, and whatever is missing no longer matters. */
  predicate Summarises(queue: seq<int>, times: seq<int>, l: Limits, now: int) {
    && Sorted(times)
    && (forall i :: 0 <= i < |times| ==> times[i] <= now)
    && |queue| <= |times|
    && queue == times[|times| - |queue|..]
    && (l.max > 0 ==> |queue| <= l.max)
    && (|queue| < l.max ==> forall i :: 0 <= i < |times| - |queue| ==> now - times[i] >= l.duration)
  }

  ghost predicate Inv(store: Store, h: History, limits: string -> Limits, now: int) {
    && (forall k :: k in store ==> store[k] != [])
    && forall k {:trigger Times(h, k)} {:trigger Times(store, k)} ::
         Summarises(Times(store, k), Times(h, k), limits(k), now)
  }

  lemma {:induction false} CountBounds(times: seq<int>, now: int, duration: int, old_: nat)
    requires old_ <= |times|
    requires forall i :: 0 <= i < old_ ==> now - times[i] >= duration
    ensures CountRecent(times, now, duration) <= |times| - old_
  {
    if |times| > old_ {
      CountBounds(times[..|times| - 1], now, duration, old_);
    } else if times != [] {
      CountBounds(times[..|times| - 1], now, duration, old_ - 1);
    }
  }

  lemma {:induction false} CountAtLeast(times: seq<int>, now: int, duration: int, from: nat)
    requires from <= |times|
    requires forall i :: from <= i < |times| ==> now - times[i] < duration
    ensures CountRecent(times, now, duration) >= |times| - from
  {
    if |times| > from {
      CountAtLeast(times[..|times| - 1], now, duration, from);
    }
  }

  /** The queue decides exactly as the full history does. */
  lemma DecisionAgrees(queue: seq<int>, times: seq<int>, l: Limits, before: int, now: int)
    requires Summarises(queue, times, l, before) && before <= now && l.max > 0
    ensures CountRecent(times, now, l.duration) < l.max
            <==> (|queue| < l.max || now - queue[0] >= l.duration)
  {
    var cut := |times| - |queue|;
    if |queue| < l.max {
      CountBounds(times, now, l.duration, cut);
    } else if now - queue[0] >= l.duration {
      assert queue[0] == times[cut];
      CountBounds(times, now, l.duration, cut + 1);
    } else {
      assert queue[0] == times[cut];
      CountAtLeast(times, now, l.duration, cut);
    }
  }

  /** The queue after an accepted request. */
  function Enqueue(queue: seq<int>, l: Limits, now: int): seq<int> {
    (if 0 < |queue| && l.max <= |queue| then queue[1..] else queue) + [now]
  }

  lemma EnqueueSummarises(queue: seq<int>, times: seq<int>, l: Limits, before: int, now: int)
    requires Summarises(queue, times, l, before) && before <= now && l.max > 0
    ensures Summarises(Enqueue(queue, l, now), times + [now], l, now)
  {
    var queue' := Enqueue(queue, l, now);
    var times' := times + [now];
    assert queue' == times'[|times'| - |queue'|..];
  }

  lemma TimePasses(queue: seq<int>, times: seq<int>, l: Limits, before: int, now: int)
    requires Summarises(queue, times, l, before) && before <= now
    ensures Summarises(queue, times, l, now)
  {
  }

  lemma RequestUpdatesQueue(store: Store, key: string, l: Limits, now: int)
    requires l.max > 0
    ensures var q := Times(store, key);
            var (store', ok) := RequestStep(store, key, l, now);
            && ok == (|q| < l.max || now - q[0] >= l.duration)
            && Times(store', key) == if ok then Enqueue(q, l, now) else q
  {
    assert [] + [now] == [now];
  }

  lemma OtherKeysUntouched(store: Store, h: History, key: string, l: Limits, now: int, k: string)
    requires k != key
    ensures Times(RequestStep(store, key, l, now).0, k) == Times(store, k)
    ensures Times(Record(h, key, l, now), k) == Times(h, k)
  {
  }

  /** The verdict on `key`, and its queue and history afterwards. */
  lemma RequestOnKey(store: Store, h: History, l: Limits, before: int, key: string, now: int)
    requires Summarises(Times(store, key), Times(h, key), l, before) && before <= now
    ensures RequestStep(store, key, l, now).1 == Allowed(h, key, l, now)
    ensures Summarises(Times(RequestStep(store, key, l, now).0, key), Times(Record(h, key, l, now), key), l, now)
  {
    var q, t := Times(store, key), Times(h, key);
    TimePasses(q, t, l, before, now);
    if l.max > 0 {
      DecisionAgrees(q, t, l, before, now);
      EnqueueSummarises(q, t, l, before, now);
      RequestUpdatesQueue(store, key, l, now);
    }
  }

  lemma RequestKeepsInv(store: Store, h: History, limits: string -> Limits, before: int, key: string, now: int)
    requires Inv(store, h, limits, before) && before <= now
    ensures RequestStep(store, key, limits(key), now).1 == Allowed(h, key, limits(key), now)
    ensures Inv(RequestStep(store, key, limits(key), now).0, Record(h, key, limits(key), now), limits, now)
  {
    var l := limits(key);
    assert Summarises(Times(store, key), Times(h, key), l, before);
    RequestOnKey(store, h, l, before, key, now);
    var store', h' := RequestStep(store, key, l, now).0, Record(h, key, l, now);
    forall k
      ensures Summarises(Times(store', k), Times(h', k), limits(k), now)
    {
      if k != key {
        TimePasses(Times(store, k), Times(h, k), limits(k), before, now);
        OtherKeysUntouched(store, h, key, l, now, k);
      }
    }
  }

  lemma SweepKeepsInv(store: Store, h: History, limits: string -> Limits, before: int, expiration: int, now: int)
    requires Inv(store, h, limits, before) && before <= now
    requires forall k :: limits(k).duration - 1 <= expiration
    ensures Inv(SweepStep(store, expiration, now), h, limits, now)
  {
    var store' := SweepStep(store, expiration, now);
    forall k
      ensures Summarises(Times(store', k), Times(h, k), limits(k), now)
    {
      assert Summarises(Times(store, k), Times(h, k), limits(k), before);
    }
  }

  lemma {:induction false} RunAgreesFrom(store: Store, h: History, limits: string -> Limits, expiration: int,
                                         events: seq<Event>, since: int)
    requires Inv(store, h, limits, since) && Nondecreasing(events, since)
    requires forall k :: limits(k).duration - 1 <= expiration
    ensures Run(store, limits, expiration, events) == Reference(h, limits, events)
    decreases events
  {
    if events != [] {
      match events[0]
      case Request(k, now) =>
        RequestKeepsInv(store, h, limits, since, k, now);
        RunAgreesFrom(RequestStep(store, k, limits(k), now).0, Record(h, k, limits(k), now), limits, expiration,
                      events[1..], now);
      case Sweep(now) =>
        SweepKeepsInv(store, h, limits, since, expiration, now);
        RunAgreesFrom(SweepStep(store, expiration, now), h, limits, expiration, events[1..], now);
    }
  }

  /** Main result: with sweeps anywhere, the bounded limiter answers as the one that forgets nothing. */
  lemma LimiterRefinesFullHistory(limits: string -> Limits, expiration: int, events: seq<Event>, since: int)
    requires Nondecreasing(events, since)
    requires forall k :: limits(k).duration - 1 <= expiration
    ensures Run(map[], limits, expiration, events) == Reference(map[], limits, events)
  {
    RunAgreesFrom(map[], map[], limits, expiration, events, since);
  }

  // ---------------------------------------------------------------- sweeps cannot be observed

  function WithoutSweeps(events: seq<Event>): seq<Event> {
    if events == [] then []
    else if events[0].Sweep? then WithoutSweeps(events[1..])
    else [events[0]] + WithoutSweeps(events[1..])
  }

  /** The verdicts that belong to requests. */
  function RequestVerdicts(events: seq<Event>, verdicts: seq<bool>): seq<bool>
    requires |events| == |verdicts|
  {
    if events == [] then []
    else if events[0].Sweep? then RequestVerdicts(events[1..], verdicts[1..])
    else [verdicts[0]] + RequestVerdicts(events[1..], verdicts[1..])
  }

  lemma {:induction false} ReferenceIgnoresSweeps(h: History, limits: string -> Limits, events: seq<Event>)
    ensures |Reference(h, limits, events)| == |events|
    ensures RequestVerdicts(events, Reference(h, limits, events)) == Reference(h, limits, WithoutSweeps(events))
    decreases events
  {
    if events != [] {
      match events[0]
      case Request(k, now) => ReferenceIgnoresSweeps(Record(h, k, limits(k), now), limits, events[1..]);
      case Sweep(now) => ReferenceIgnoresSweeps(h, limits, events[1..]);
    }
  }

  lemma {:induction false} WithoutSweepsNondecreasing(events: seq<Event>, since: int, earlier: int)
    requires Nondecreasing(events, since) && earlier <= since
    ensures Nondecreasing(WithoutSweeps(events), earlier)
  {
    if events != [] {
      var now := Clock(events[0]);
      WithoutSweepsNondecreasing(events[1..], now, if events[0].Sweep? then earlier else now);
    }
  }

  /** Removing every sweep from a run leaves every request's verdict as it was. */
  lemma SweepsAreUnobservable(limits: string -> Limits, expiration: int, events: seq<Event>, since: int)
    requires Nondecreasing(events, since)
    requires forall k :: limits(k).duration - 1 <= expiration
    ensures |Run(map[], limits, expiration, events)| == |events|
    ensures RequestVerdicts(events, Run(map[], limits, expiration, events))
            == Run(map[], limits, expiration, WithoutSweeps(events))
  {
    LimiterRefinesFullHistory(limits, expiration, events, since);
    ReferenceIgnoresSweeps(map[], limits, events);
    WithoutSweepsNondecreasing(events, since, since);
    LimiterRefinesFullHistory(limits, expiration, WithoutSweeps(events), since);
  }

  // ---------------------------------------------------------------- spacing of accepted requests

  /** Any `max + 1` consecutive acceptances span at least `duration` seconds. */
  predicate Spaced(times: seq<int>, l: Limits) {
    l.max > 0 ==> forall i :: 0 <= i && i + l.max < |times| ==> times[i + l.max] - times[i] >= l.duration
  }

  predicate UpTo(times: seq<int>, now: int) {
    Sorted(times) && forall i :: 0 <= i < |times| ==> times[i] <= now
  }

  lemma RecordKeepsSpacing(times: seq<int>, l: Limits, before: int, now: int)
    requires UpTo(times, before) && before <= now && Spaced(times, l)
    requires l.max > 0 && CountRecent(times, now, l.duration) < l.max
    ensures Spaced(times + [now], l) && UpTo(times + [now], now)
  {
    var times' := times + [now];
    if |times| >= l.max {
      var i := |times| - l.max;
      if now - times[i] < l.duration {
        CountAtLeast(times, now, l.duration, i);
        assert false;
      }
    }
  }

  lemma {:induction false} AcceptedTimesAreSpaced(h: History, limits: string -> Limits, events: seq<Event>, since: int)
    requires Nondecreasing(events, since)
    requires forall k {:trigger Times(h, k)} :: UpTo(Times(h, k), since) && Spaced(Times(h, k), limits(k))
    ensures forall k {:trigger Times(HistoryAfter(h, limits, events), k)} ::
              Spaced(Times(HistoryAfter(h, limits, events), k), limits(k))
    decreases events
  {
    if events != [] {
      match events[0]
      case Request(key, now) =>
        var h' := Record(h, key, limits(key), now);
        forall k ensures UpTo(Times(h', k), now) && Spaced(Times(h', k), limits(k)) {
          assert UpTo(Times(h, k), since);
          if k == key && h' != h {
            RecordKeepsSpacing(Times(h, k), limits(k), since, now);
          }
        }
        AcceptedTimesAreSpaced(h', limits, events[1..], now);
      case Sweep(now) =>
        AcceptedTimesAreSpaced(h, limits, events[1..], now);
    }
  }

  /** The times at which a run accepted requests for `key`, read off its verdicts. */
  function AcceptedTimes(key: string, events: seq<Event>, verdicts: seq<bool>): seq<int>
    requires |events| == |verdicts|
  {
    if events == [] then []
    else (if events[0].Request? && events[0].key == key && verdicts[0] then [events[0].now] else [])
         + AcceptedTimes(key, events[1..], verdicts[1..])
  }

  /** For a limited key the history is what it was, followed by what the run accepts. */
  lemma {:induction false} HistoryIsAccepted(h: History, limits: string -> Limits, events: seq<Event>, key: string)
    requires limits(key).max > 0
    ensures |Reference(h, limits, events)| == |events|
    ensures Times(HistoryAfter(h, limits, events), key)
            == Times(h, key) + AcceptedTimes(key, events, Reference(h, limits, events))
    decreases events
  {
    if events == [] {
      assert Times(h, key) + [] == Times(h, key);
    } else {
      var h' := if events[0].Request? then Record(h, events[0].key, limits(events[0].key), events[0].now) else h;
      HistoryIsAccepted(h', limits, events[1..], key);
      var r := Reference(h', limits, events[1..]);
      FirstVerdict(h, limits, events);
      var first := if events[0].Request? && events[0].key == key && Reference(h, limits, events)[0] then [events[0].now] else [];
      RecordedTimes(h, limits, events[0], key);
      Regroup(Times(h, key), first, AcceptedTimes(key, events[1..], r));
    }
  }

  lemma FirstVerdict(h: History, limits: string -> Limits, events: seq<Event>)
    requires events != []
    ensures var e := events[0];
            var h' := if e.Request? then Record(h, e.key, limits(e.key), e.now) else h;
            Reference(h, limits, events) == [e.Request? ==> Allowed(h, e.key, limits(e.key), e.now)] + Reference(h', limits, events[1..])
  {
  }

  /** What one event adds to the history of a limited key. */
  lemma RecordedTimes(h: History, limits: string -> Limits, e: Event, key: string)
    requires limits(key).max > 0
    ensures var h' := if e.Request? then Record(h, e.key, limits(e.key), e.now) else h;
            Times(h', key) == Times(h, key)
                              + if e.Request? && e.key == key && Allowed(h, key, limits(key), e.now) then [e.now] else []
  {
  }

  lemma Regroup(a: seq<int>, b: seq<int>, c: seq<int>)
    ensures (a + b) + c == a + (b + c)
  {
  }

  /** Whatever the sweeps do, any `max + 1` consecutive requests that the limiter itself accepts for a key span at least
      `duration` seconds. */
  lemma LimiterSpacesRequests(limits: string -> Limits, expiration: int, events: seq<Event>, since: int, key: string)
    requires Nondecreasing(events, since)
    requires forall k :: limits(k).duration - 1 <= expiration
    ensures |Run(map[], limits, expiration, events)| == |events|
    ensures Spaced(AcceptedTimes(key, events, Run(map[], limits, expiration, events)), limits(key))
  {
    LimiterRefinesFullHistory(limits, expiration, events, since);
    ReferenceIgnoresSweeps(map[], limits, events);
    AcceptedTimesAreSpaced(map[], limits, events, since);
    if limits(key).max > 0 {
      HistoryIsAccepted(map[], limits, events, key);
      var accepted := AcceptedTimes(key, events, Run(map[], limits, expiration, events));
      assert Times(HistoryAfter(map[], limits, events), key) == [] + accepted == accepted;
    }
  }

  // ---------------------------------------------------------------- exactly when sweeps are harmless

  function Uniform(l: Limits): string -> Limits { k => l }

  /** `n` requests at time zero, a sweep one second after expiration, one more request. */
  function Flood(n: nat, expiration: int): seq<Event> {
    if n == 0 then [Sweep(expiration + 1), Request("k", expiration + 1)]
    else [Request("k", 0)] + Flood(n - 1, expiration)
  }

  lemma {:induction false} FloodNondecreasing(n: nat, expiration: int)
    requires expiration >= 0
    ensures Nondecreasing(Flood(n, expiration), 0)
  {
    if n == 0 {
      assert Flood(0, expiration)[1..] == [Request("k", expiration + 1)];
    } else {
      FloodNondecreasing(n - 1, expiration);
      assert Flood(n, expiration)[1..] == Flood(n - 1, expiration);
    }
  }

  lemma ZerosAreRecent(times: seq<int>, now: int, duration: int)
    requires forall i :: 0 <= i < |times| ==> times[i] == 0
    requires now < duration
    ensures CountRecent(times, now, duration) == |times|
  {
    CountBounds(times, now, duration, 0);
    CountAtLeast(times, now, duration, 0);
  }

  lemma {:induction false} FloodIsMisjudged(zeros: seq<int>, store: Store, l: Limits, expiration: int)
    requires forall i :: 0 <= i < |zeros| ==> zeros[i] == 0
    requires store == if zeros == [] then map[] else map["k" := zeros]
    requires 0 <= expiration < l.duration - 1 && 0 < l.max && |zeros| <= l.max
    ensures Run(store, Uniform(l), expiration, Flood(l.max - |zeros|, expiration))
            != Reference(store, Uniform(l), Flood(l.max - |zeros|, expiration))
    decreases l.max - |zeros|
  {
    var events := Flood(l.max - |zeros|, expiration);
    if |zeros| == l.max {
      var last := [Request("k", expiration + 1)];
      assert events[1..] == last && last[1..] == [];
      ZerosAreRecent(zeros, expiration + 1, l.duration);
      var swept := SweepStep(store, expiration, expiration + 1);
      assert "k" !in swept;
      assert Run(swept, Uniform(l), expiration, last)[0];
      assert !Reference(store, Uniform(l), last)[0];
      assert Run(store, Uniform(l), expiration, events)[1];
      assert !Reference(store, Uniform(l), events)[1];
    } else {
      assert events[1..] == Flood(l.max - |zeros| - 1, expiration);
      var zeros' := zeros + [0];
      var store' := map["k" := zeros'];
      ZerosAreRecent(zeros, 0, l.duration);
      assert store["k" := zeros'] == store' && (zeros == [] ==> zeros' == [0]);
      assert RequestStep(store, "k", l, 0) == (store', true);
      assert Record(store, "k", l, 0) == store';
      FloodIsMisjudged(zeros', store', l, expiration);
      var r, f := Run(store', Uniform(l), expiration, events[1..]), Reference(store', Uniform(l), events[1..]);
      assert Run(store, Uniform(l), expiration, events) == [true] + r;
      assert Reference(store, Uniform(l), events) == [true] + f;
      assert ([true] + r)[1..] == r && ([true] + f)[1..] == f;
    }
  }

  predicate Agrees(l: Limits, expiration: int, events: seq<Event>) {
    Run(map[], Uniform(l), expiration, events) == Reference(map[], Uniform(l), events)
  }

  ghost predicate SweepHarmless(l: Limits, expiration: int) {
    forall events, since | Nondecreasing(events, since) :: Agrees(l, expiration, events)
  }

  /** The sweep is harmless on every run exactly when it waits at least `duration - 1` seconds. */
  lemma SweepHarmlessIff(l: Limits, expiration: int)
    requires 0 < l.max && 0 <= expiration
    ensures SweepHarmless(l, expiration) <==> l.duration - 1 <= expiration
  {
    if l.duration - 1 <= expiration {
      forall events, since | Nondecreasing(events, since)
        ensures Agrees(l, expiration, events)
      {
        LimiterRefinesFullHistory(Uniform(l), expiration, events, since);
      }
    } else {
      FloodNondecreasing(l.max, expiration);
      FloodIsMisjudged([], map[], l, expiration);
      assert !Agrees(l, expiration, Flood(l.max, expiration));
    }
  }
}
