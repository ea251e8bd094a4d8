/** Whole runs of the limiter. Requests, reservations, completions and eviction ticks
    arrive in any interleaving; the window of a key is fixed, its limit may vary from
    call to call. The reference is a limiter that remembers every accepted timestamp
    for ever, never evicts, and counts the young ones.

    The clock of a run never goes back, and an eviction tick carries a time that is no
    later than the moment it is handled (it may be arbitrarily stale).
 */
module RateLimitRuns {
  import opened RateLimitModel

  /** A `RateLimitReservation` handed to a caller; `done` is its `sync.Once`. */
  datatype Handle = Handle(key: Key, done: bool)

  datatype Event =
    | RequestAt(key: Key, limit: int, now: int)
    | ReserveAt(key: Key, limit: int, now: int)
    // `handle` is the position of a reservation in hand; any other number is a nil handle
    | CompleteAt(handle: int, success: bool, now: int)
    | TickAt(tick: int, now: int)

  /** The fixed window of every key, in seconds. */
  type Window = Key -> int

  datatype World = World(limiter: Limiter, handles: seq<Handle>)

  predicate Completes(handles: seq<Handle>, h: int) {
    0 <= h < |handles| && !handles[h].done
  }

  /** One event on the limiter, and the answer the caller sees. */
  function Step(w: World, e: Event, window: Window): (World, bool) {
    match e
    case RequestAt(key, limit, now) =>
      var (l, allowed) := Request(w.limiter, key, limit, window(key), now);
      (w.(limiter := l), allowed)
    case ReserveAt(key, limit, now) =>
      var (l, admitted) := Reserve(w.limiter, key, limit, window(key), now);
      (World(l, if admitted then w.handles + [Handle(key, false)] else w.handles), admitted)
    case CompleteAt(h, success, now) =>
      if Completes(w.handles, h) then
        (World(Complete(w.limiter, w.handles[h].key, success, now), w.handles[h := w.handles[h].(done := true)]), true)
      else (w, true)
    case TickAt(tick, now) =>
      (w.(limiter := Evict(w.limiter, tick)), true)
  }

  // -------------------------------------------------------- naive reference

  datatype Naive = Naive(history: map<Key, seq<int>>, handles: seq<Handle>)

  function History(n: Naive, key: Key): seq<int> {
    if key in n.history then n.history[key] else []
  }

  /** Reservations of `key` that nobody has completed yet. */
  function Outstanding(handles: seq<Handle>, key: Key): nat {
    if handles == [] then 0
    else (if handles[0].key == key && !handles[0].done then 1 else 0) + Outstanding(handles[1..], key)
  }

  function Record(n: Naive, key: Key, now: int): Naive {
    n.(history := n.history[key := History(n, key) + [Unix(now)]])
  }

  function InWindow(n: Naive, key: Key, now: int, window: Window): nat {
    |Young(History(n, key), Unix(now), window(key))|
  }

  function NaiveStep(n: Naive, e: Event, window: Window): (Naive, bool) {
    match e
    case RequestAt(key, limit, now) =>
      if InWindow(n, key, now, window) < limit then (Record(n, key, now), true) else (n, false)
    case ReserveAt(key, limit, now) =>
      if InWindow(n, key, now, window) + Outstanding(n.handles, key) < limit
      then (n.(handles := n.handles + [Handle(key, false)]), true) else (n, false)
    case CompleteAt(h, success, now) =>
      if Completes(n.handles, h) then
        var settled := n.(handles := n.handles[h := n.handles[h].(done := true)]);
        (if success then Record(settled, n.handles[h].key, now) else settled, true)
      else (n, true)
    case TickAt(tick, now) => (n, true)
  }

  // ------------------------------------------------------------------- runs

  predicate Timely(events: seq<Event>, clock: int) {
    events == [] ||
    (&& clock <= events[0].now
     && (events[0].TickAt? ==> events[0].tick <= events[0].now)
     && Timely(events[1..], events[0].now))
  }

  function Run(w: World, events: seq<Event>, window: Window): (World, seq<bool>)
    decreases |events|
  {
    if events == [] then (w, [])
    else
      var (w1, answer) := Step(w, events[0], window);
      var (w2, answers) := Run(w1, events[1..], window);
      (w2, [answer] + answers)
  }

  function NaiveRun(n: Naive, events: seq<Event>, window: Window): (Naive, seq<bool>)
    decreases |events|
  {
    if events == [] then (n, [])
    else
      var (n1, answer) := NaiveStep(n, events[0], window);
      var (n2, answers) := NaiveRun(n1, events[1..], window);
      (n2, [answer] + answers)
  }

  function Start(expiration: int): World {
    World(Empty(expiration), [])
  }

  const NaiveStart: Naive := Naive(map[], [])

  // -------------------------------------------------------------- simulation

  function Stamps(l: Limiter, key: Key): seq<int> {
    if key in l.store then l.store[key].stamps else []
  }

  ghost predicate AllAtMost(s: seq<int>, bound: int) {
    forall i :: 0 <= i < |s| ==> s[i] <= bound
  }

  ghost predicate BucketOk(b: Bucket, clock: int) {
    Sorted(b.stamps) && AllAtMost(b.stamps, Unix(b.lastActive)) && b.lastActive <= clock
  }

  /** `kept` is the end of `full`, and what is missing has expired. */
  ghost predicate ExpiredPrefix(full: seq<int>, kept: seq<int>, now: int, duration: int) {
    && |kept| <= |full|
    && full[|full| - |kept|..] == kept
    && AllExpired(full[..|full| - |kept|], now, duration)
  }

  ghost predicate KeyRelated(l: Limiter, n: Naive, key: Key, window: Window, clock: int) {
    ExpiredPrefix(History(n, key), Stamps(l, key), Unix(clock), window(key))
  }

  ghost predicate ReservedRight(l: Limiter, handles: seq<Handle>, key: Key) {
    Reserved(l, key) == Outstanding(handles, key) && (key in l.reservations ==> l.reservations[key] != 0)
  }

  ghost predicate Related(w: World, n: Naive, window: Window, clock: int) {
    && w.handles == n.handles
    && (forall k :: ReservedRight(w.limiter, w.handles, k))
    && (forall k :: k in w.limiter.store ==> BucketOk(w.limiter.store[k], clock))
    && (forall k :: KeyRelated(w.limiter, n, k, window, clock))
  }

  /** The condition stated next to the configured windows: none is longer than the
      eviction period (or nothing is ever evicted). */
  ghost predicate WindowsFit(expiration: int, window: Window) {
    expiration <= 0 || forall k :: window(k) * NANOS_PER_SECOND <= expiration
  }

  lemma {:induction false} UnixMonotone(a: int, b: int)
    requires a <= b
    ensures Unix(a) <= Unix(b)
  {
  }

  lemma {:induction false} UnixGap(a: int, b: int, seconds: int)
    requires b - a >= seconds * NANOS_PER_SECOND
    ensures Unix(b) - Unix(a) >= seconds
  {
  }

  lemma {:induction false} ExpiredPrefixLater(full: seq<int>, kept: seq<int>, now: int, later: int, duration: int)
    requires ExpiredPrefix(full, kept, now, duration) && now <= later
    ensures ExpiredPrefix(full, kept, later, duration)
  {
  }

  lemma {:induction false} ExpiredPrefixCut(full: seq<int>, kept: seq<int>, cut: nat, now: int, duration: int)
    requires ExpiredPrefix(full, kept, now, duration)
    requires cut <= |kept| && AllExpired(kept[..cut], now, duration)
    ensures ExpiredPrefix(full, kept[cut..], now, duration)
  {
    var gone := |full| - |kept|;
    assert full[gone + cut..] == full[gone..][cut..];
    forall i | 0 <= i < gone + cut ensures now - full[i] >= duration {
      if i < gone {
        assert full[..gone][i] == full[i];
      } else {
        assert kept[..cut][i - gone] == full[gone..][i - gone] == full[i];
      }
    }
  }

  lemma {:induction false} ExpiredPrefixAppend(full: seq<int>, kept: seq<int>, x: int, now: int, duration: int)
    requires ExpiredPrefix(full, kept, now, duration)
    ensures ExpiredPrefix(full + [x], kept + [x], now, duration)
  {
    var gone := |full| - |kept|;
    assert (full + [x])[gone..] == full[gone..] + [x];
    assert (full + [x])[..gone] == full[..gone];
  }

  lemma {:induction false} YoungOfExpiredPrefix(full: seq<int>, kept: seq<int>, now: int, duration: int)
    requires ExpiredPrefix(full, kept, now, duration)
    ensures Young(full, now, duration) == Young(kept, now, duration)
  {
    var gone := |full| - |kept|;
    assert full == full[..gone] + full[gone..];
    YoungConcat(full[..gone], full[gone..], now, duration);
    YoungOfExpired(full[..gone], now, duration);
  }

  /** Time passing keeps two related states related. */
  lemma {:induction false} RelatedLater(w: World, n: Naive, window: Window, clock: int, later: int)
    requires Related(w, n, window, clock) && clock <= later
    ensures Related(w, n, window, later)
  {
    UnixMonotone(clock, later);
    forall k ensures KeyRelated(w.limiter, n, k, window, later) {
      assert KeyRelated(w.limiter, n, k, window, clock);
      ExpiredPrefixLater(History(n, k), Stamps(w.limiter, k), Unix(clock), Unix(later), window(k));
    }
  }

  lemma {:induction false} TouchRelated(w: World, n: Naive, key: Key, window: Window, now: int)
    requires Related(w, n, window, now)
    ensures Related(w.(limiter := Touch(w.limiter, key, now)), n, window, now)
  {
    var l := w.limiter;
    var t := Touch(l, key, now);
    if key in l.store {
      UnixMonotone(l.store[key].lastActive, now);
    }
    forall k ensures KeyRelated(t, n, k, window, now) {
      assert KeyRelated(l, n, k, window, now);
    }
    forall k ensures ReservedRight(t, w.handles, k) {
      assert ReservedRight(l, w.handles, k);
    }
  }

  lemma {:induction false} TrimStamps(full: seq<int>, kept: seq<int>, newest: int, now: int, duration: int)
    requires ExpiredPrefix(full, kept, now, duration) && Sorted(kept) && AllAtMost(kept, newest)
    ensures var trimmed := Trim(kept, now, duration);
            && ExpiredPrefix(full, trimmed, now, duration) && Sorted(trimmed) && AllAtMost(trimmed, newest)
            && trimmed == Young(full, now, duration)
  {
    var cut := TrimIsYoung(kept, now, duration);
    ExpiredPrefixCut(full, kept, cut, now, duration);
    YoungOfExpiredPrefix(full, kept, now, duration);
  }

  function WithStamps(l: Limiter, key: Key, stamps: seq<int>): Limiter
    requires key in l.store
  {
    l.(store := l.store[key := l.store[key].(stamps := stamps)])
  }

  lemma {:induction false} WithStampsRelated(w: World, n: Naive, key: Key, stamps: seq<int>, window: Window, now: int)
    requires Related(w, n, window, now) && key in w.limiter.store
    requires BucketOk(w.limiter.store[key].(stamps := stamps), now)
    requires ExpiredPrefix(History(n, key), stamps, Unix(now), window(key))
    ensures Related(w.(limiter := WithStamps(w.limiter, key, stamps)), n, window, now)
  {
    var l := w.limiter;
    var t := WithStamps(l, key, stamps);
    forall k ensures KeyRelated(t, n, k, window, now) {
      assert KeyRelated(l, n, k, window, now);
    }
    forall k ensures ReservedRight(t, w.handles, k) {
      assert ReservedRight(l, w.handles, k);
    }
  }

  /** Touching and trimming a bucket loses nothing that is still young, and what it
      keeps is exactly what the naive limiter counts. */
  lemma {:induction false} TouchAndTrimRelated(w: World, n: Naive, key: Key, window: Window, now: int)
    requires Related(w, n, window, now)
    ensures var t := TouchAndTrim(w.limiter, key, window(key), now);
            && Related(w.(limiter := t), n, window, now)
            && |t.store[key].stamps| == InWindow(n, key, now, window)
            && t.store[key].lastActive == now
  {
    TouchRelated(w, n, key, window, now);
    var touched := Touch(w.limiter, key, now);
    var bucket := touched.store[key];
    assert KeyRelated(touched, n, key, window, now);
    TrimStamps(History(n, key), bucket.stamps, Unix(bucket.lastActive), Unix(now), window(key));
    WithStampsRelated(w.(limiter := touched), n, key, Trim(bucket.stamps, Unix(now), window(key)), window, now);
  }

  /** Recording the current second on both sides keeps them related. */
  lemma {:induction false} AppendRelated(w: World, n: Naive, key: Key, window: Window, now: int)
    requires Related(w, n, window, now)
    requires key in w.limiter.store && w.limiter.store[key].lastActive == now
    ensures Related(w.(limiter := Append(w.limiter, key, now)), Record(n, key, now), window, now)
  {
    var l := w.limiter;
    var l1, n1 := Append(l, key, now), Record(n, key, now);
    forall k ensures KeyRelated(l1, n1, k, window, now) {
      assert KeyRelated(l, n, k, window, now);
      if k == key {
        ExpiredPrefixAppend(History(n, key), Stamps(l, key), Unix(now), Unix(now), window(key));
      }
    }
    forall k ensures ReservedRight(l1, w.handles, k) {
      assert ReservedRight(l, w.handles, k);
    }
  }

  lemma {:induction false} OutstandingAppend(handles: seq<Handle>, h: Handle, key: Key)
    ensures Outstanding(handles + [h], key) == Outstanding(handles, key) + (if h.key == key && !h.done then 1 else 0)
  {
    if handles != [] {
      assert (handles + [h])[1..] == handles[1..] + [h];
      OutstandingAppend(handles[1..], h, key);
    }
  }

  lemma {:induction false} OutstandingDone(handles: seq<Handle>, h: nat, key: Key)
    requires h < |handles| && !handles[h].done
    ensures Outstanding(handles[h := handles[h].(done := true)], key)
         == Outstanding(handles, key) - (if handles[h].key == key then 1 else 0)
  {
    var after := handles[h := handles[h].(done := true)];
    if h == 0 {
      assert after[1..] == handles[1..];
    } else {
      assert after[1..] == handles[1..][h - 1 := handles[h].(done := true)];
      OutstandingDone(handles[1..], h - 1, key);
    }
  }

  /** An idle key holds nothing that a request made at or after the tick would count. */
  lemma {:induction false} EvictRelated(w: World, n: Naive, tick: int, window: Window, now: int)
    requires Related(w, n, window, now) && tick <= now
    requires WindowsFit(w.limiter.expiration, window)
    ensures Related(w.(limiter := Evict(w.limiter, tick)), n, window, now)
  {
    var l := w.limiter;
    var l1 := Evict(l, tick);
    forall k ensures KeyRelated(l1, n, k, window, now) {
      assert KeyRelated(l, n, k, window, now);
      if k in l.store && k !in l1.store {
        var bucket := l.store[k];
        UnixGap(bucket.lastActive, now, window(k));
        ExpiredPrefixCut(History(n, k), bucket.stamps, |bucket.stamps|, Unix(now), window(k));
      }
    }
    forall k ensures ReservedRight(l1, w.handles, k) {
      assert ReservedRight(l, w.handles, k);
    }
  }

  lemma {:induction false} ReserveRelated(w: World, n: Naive, key: Key, window: Window, now: int)
    requires Related(w, n, window, now)
    ensures var l := w.limiter.(reservations := w.limiter.reservations[key := Reserved(w.limiter, key) + 1]);
            var handles := w.handles + [Handle(key, false)];
            Related(World(l, handles), n.(handles := handles), window, now)
  {
    var l := w.limiter.(reservations := w.limiter.reservations[key := Reserved(w.limiter, key) + 1]);
    var handles := w.handles + [Handle(key, false)];
    forall k ensures ReservedRight(l, handles, k) {
      assert ReservedRight(w.limiter, w.handles, k);
      OutstandingAppend(w.handles, Handle(key, false), k);
    }
    forall k ensures KeyRelated(l, n.(handles := handles), k, window, now) {
      assert KeyRelated(w.limiter, n, k, window, now);
    }
  }

  lemma {:induction false} CompleteRelated(w: World, n: Naive, h: nat, window: Window, now: int)
    requires Related(w, n, window, now) && Completes(w.handles, h)
    ensures var handles := w.handles[h := w.handles[h].(done := true)];
            Related(World(Complete(w.limiter, w.handles[h].key, false, now), handles),
                    n.(handles := handles), window, now)
  {
    var handles := w.handles[h := w.handles[h].(done := true)];
    var l := Complete(w.limiter, w.handles[h].key, false, now);
    forall k ensures ReservedRight(l, handles, k) {
      assert ReservedRight(w.limiter, w.handles, k);
      OutstandingDone(w.handles, h, k);
    }
    forall k ensures KeyRelated(l, n.(handles := handles), k, window, now) {
      assert KeyRelated(w.limiter, n, k, window, now);
    }
  }

  /** The two sides answer an event alike and stay related. */
  ghost predicate StepsAlike(w: World, n: Naive, e: Event, window: Window) {
    && Step(w, e, window).1 == NaiveStep(n, e, window).1
    && Related(Step(w, e, window).0, NaiveStep(n, e, window).0, window, e.now)
    && Step(w, e, window).0.limiter.expiration == w.limiter.expiration
  }

  lemma {:induction false} RequestAlike(w: World, n: Naive, key: Key, limit: int, window: Window, now: int)
    requires Related(w, n, window, now) && WindowsFit(w.limiter.expiration, window)
    ensures StepsAlike(w, n, RequestAt(key, limit, now), window)
  {
    if limit > 0 {
      TouchAndTrimRelated(w, n, key, window, now);
      AppendRelated(w.(limiter := TouchAndTrim(w.limiter, key, window(key), now)), n, key, window, now);
    }
  }

  lemma {:induction false} ReserveAlike(w: World, n: Naive, key: Key, limit: int, window: Window, now: int)
    requires Related(w, n, window, now) && WindowsFit(w.limiter.expiration, window)
    ensures StepsAlike(w, n, ReserveAt(key, limit, now), window)
  {
    if limit > 0 {
      TouchAndTrimRelated(w, n, key, window, now);
      var t := TouchAndTrim(w.limiter, key, window(key), now);
      assert ReservedRight(t, w.handles, key);
      ReserveRelated(w.(limiter := t), n, key, window, now);
    }
  }

  lemma {:induction false} CompleteAlike(w: World, n: Naive, h: int, success: bool, window: Window, now: int)
    requires Related(w, n, window, now) && WindowsFit(w.limiter.expiration, window)
    ensures StepsAlike(w, n, CompleteAt(h, success, now), window)
  {
    if Completes(w.handles, h) {
      CompleteRelated(w, n, h, window, now);
      if success {
        var key, handles := w.handles[h].key, w.handles[h := w.handles[h].(done := true)];
        var w1 := World(Complete(w.limiter, key, false, now), handles);
        TouchRelated(w1, n.(handles := handles), key, window, now);
        AppendRelated(w1.(limiter := Touch(w1.limiter, key, now)), n.(handles := handles), key, window, now);
      }
    }
  }

  /** One event: same answer on both sides, and the sides stay related. */
  lemma {:induction false} StepRelated(w: World, n: Naive, e: Event, window: Window, clock: int)
    requires Related(w, n, window, clock) && WindowsFit(w.limiter.expiration, window)
    requires Timely([e], clock)
    ensures Step(w, e, window).1 == NaiveStep(n, e, window).1
    ensures Related(Step(w, e, window).0, NaiveStep(n, e, window).0, window, e.now)
    ensures Step(w, e, window).0.limiter.expiration == w.limiter.expiration
  {
    RelatedLater(w, n, window, clock, e.now);
    assert StepsAlike(w, n, e, window) by {
      match e
      case RequestAt(key, limit, now) => RequestAlike(w, n, key, limit, window, now);
      case ReserveAt(key, limit, now) => ReserveAlike(w, n, key, limit, window, now);
      case CompleteAt(h, success, now) => CompleteAlike(w, n, h, success, window, now);
      case TickAt(tick, now) => EvictRelated(w, n, tick, window, now);
    }
  }

  lemma {:induction false} RunRelated(w: World, n: Naive, events: seq<Event>, window: Window, clock: int)
    requires Related(w, n, window, clock) && WindowsFit(w.limiter.expiration, window)
    requires Timely(events, clock)
    ensures Run(w, events, window).1 == NaiveRun(n, events, window).1
    ensures Related(Run(w, events, window).0, NaiveRun(n, events, window).0, window,
                    if events == [] then clock else events[|events| - 1].now)
    decreases |events|
  {
    if events != [] {
      StepRelated(w, n, events[0], window, clock);
      RunRelated(Step(w, events[0], window).0, NaiveStep(n, events[0], window).0, events[1..], window, events[0].now);
    }
  }

  /** The main result: whatever the schedule of evictions, trimming and eviction are
      invisible. Every answer of every run is the answer of the limiter that forgets
      nothing. */
  lemma {:induction false} EvictionUnobservable(expiration: int, events: seq<Event>, window: Window, clock: int)
    requires WindowsFit(expiration, window) && Timely(events, clock)
    ensures Run(Start(expiration), events, window).1 == NaiveRun(NaiveStart, events, window).1
  {
    RunRelated(Start(expiration), NaiveStart, events, window, clock);
  }

  // ----------------------------------------------------- the exact condition

  ghost predicate Indistinguishable(expiration: int, window: Window) {
    forall events, clock :: Timely(events, clock) ==>
      Run(Start(expiration), events, window).1 == NaiveRun(NaiveStart, events, window).1
  }

  /** One request, an eviction after exactly the eviction period, and a second request:
      with a longer window the second request gets in although the first still counts. */
  function LateRequest(expiration: int, key: Key): seq<Event> {
    [RequestAt(key, 1, 0), TickAt(expiration, expiration), RequestAt(key, 1, expiration)]
  }

  lemma {:induction false} LongWindowIsVisible(expiration: int, window: Window, key: Key)
    requires 0 < expiration < window(key) * NANOS_PER_SECOND
    ensures Timely(LateRequest(expiration, key), 0)
    ensures Run(Start(expiration), LateRequest(expiration, key), window).1 == [true, true, true]
    ensures NaiveRun(NaiveStart, LateRequest(expiration, key), window).1 == [true, true, false]
  {
    var events := LateRequest(expiration, key);
    assert events[1..][1..] == [events[2]];
    assert Timely([events[2]], expiration);
    assert Timely(events[1..], 0);
    var w0 := Start(expiration);
    var w1 := Step(w0, events[0], window).0;
    assert events[0] == RequestAt(key, 1, 0) && Unix(0) == 0;
    var t := TouchAndTrim(w0.limiter, key, window(key), 0);
    assert t.store == map[key := Bucket(0, [])];
    assert [] + [0] == [0];
    assert w1.limiter == Append(t, key, 0);
    assert w1.limiter.store == map[key := Bucket(0, [0])];
    var w2 := Step(w1, events[1], window).0;
    assert w2.limiter.store == map[];
    assert Step(w2, events[2], window).1;
    assert Run(w2, [events[2]], window).1 == [true];
    assert Run(w1, events[1..], window).1 == [true, true];
    var n1 := NaiveStep(NaiveStart, events[0], window).0;
    assert History(n1, key) == [0];
    assert Unix(expiration) < window(key);
    assert Young([0], Unix(expiration), window(key)) == [0];
    assert NaiveRun(n1, [events[2]], window).1 == [false];
    assert NaiveRun(n1, events[1..], window).1 == [true, false];
  }

  /** Eviction is invisible to every run if and only if no window is longer than the
      eviction period. */
  lemma {:induction false} EvictionUnobservableExactly(expiration: int, window: Window)
    ensures Indistinguishable(expiration, window) <==> WindowsFit(expiration, window)
  {
    if WindowsFit(expiration, window) {
      forall events, clock | Timely(events, clock)
        ensures Run(Start(expiration), events, window).1 == NaiveRun(NaiveStart, events, window).1
      {
        EvictionUnobservable(expiration, events, window, clock);
      }
    } else {
      var key :| window(key) * NANOS_PER_SECOND > expiration;
      LongWindowIsVisible(expiration, window, key);
      assert Timely(LateRequest(expiration, key), 0);
    }
  }
}
