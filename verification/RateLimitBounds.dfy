/** Bounds that hold on every run for a key used in one way with one limit: the
    reservation budget, and the promise of the sliding window itself.
 */
module RateLimitBounds {
  import opened Options
  import opened RateLimitModel
  import opened RateLimitRuns

  /** `key` is used with one limit, and either only through Request or only through
      Reserve and Complete. Other keys are unconstrained. */
  ghost predicate Disciplined(events: seq<Event>, key: Key, limit: int, viaReserve: bool) {
    forall i :: 0 <= i < |events| ==>
      match events[i]
      case RequestAt(k, n, _) => k == key ==> !viaReserve && n == limit
      case ReserveAt(k, n, _) => k == key ==> viaReserve && n == limit
      case CompleteAt(_, _, _) => true
      case TickAt(_, _) => true
  }

  lemma {:induction false} TrimShortens(s: seq<int>, now: int, duration: int)
    ensures |Trim(s, now, duration)| <= |s|
  {
    var cut := DropExpiredPrefixSplits(s, now, duration);
  }

  ghost predicate Within(w: World, key: Key, limit: int) {
    && (forall k :: ReservedRight(w.limiter, w.handles, k))
    && |Stamps(w.limiter, key)| + Outstanding(w.handles, key) <= AtLeastZero(limit)
  }

  lemma {:induction false} StepReserved(w: World, e: Event, window: Window, k: Key)
    requires ReservedRight(w.limiter, w.handles, k)
    ensures ReservedRight(Step(w, e, window).0.limiter, Step(w, e, window).0.handles, k)
  {
    match e
    case ReserveAt(r, _, _) => OutstandingAppend(w.handles, Handle(r, false), k);
    case CompleteAt(h, _, _) => if Completes(w.handles, h) { OutstandingDone(w.handles, h, k); }
    case _ =>
  }

  lemma {:induction false} StepBudget(w: World, e: Event, window: Window, key: Key, limit: int)
    requires Within(w, key, limit) && Disciplined([e], key, limit, true)
    ensures var w1 := Step(w, e, window).0;
            |Stamps(w1.limiter, key)| + Outstanding(w1.handles, key) <= AtLeastZero(limit)
  {
    assert e == [e][0];
    match e
    case ReserveAt(k, _, now) =>
      TrimShortens(Stamps(w.limiter, k), Unix(now), window(k));
      OutstandingAppend(w.handles, Handle(k, false), key);
      assert ReservedRight(w.limiter, w.handles, k);
    case CompleteAt(h, _, _) => if Completes(w.handles, h) { OutstandingDone(w.handles, h, key); }
    case _ =>
  }

  lemma {:induction false} StepWithin(w: World, e: Event, window: Window, key: Key, limit: int)
    requires Within(w, key, limit) && Disciplined([e], key, limit, true)
    ensures Within(Step(w, e, window).0, key, limit)
  {
    var w1 := Step(w, e, window).0;
    forall k ensures ReservedRight(w1.limiter, w1.handles, k) {
      StepReserved(w, e, window, k);
    }
    StepBudget(w, e, window, key, limit);
  }

  lemma {:induction false} RunWithin(w: World, events: seq<Event>, window: Window, key: Key, limit: int)
    requires Within(w, key, limit) && Disciplined(events, key, limit, true)
    ensures Within(Run(w, events, window).0, key, limit)
    decreases |events|
  {
    if events != [] {
      assert events[0] == [events[0]][0];
      StepWithin(w, events[0], window, key, limit);
      assert Disciplined(events[1..], key, limit, true) by {
        forall i | 0 <= i < |events[1..]| ensures events[1..][i] == events[i + 1] {}
      }
      RunWithin(Step(w, events[0], window).0, events[1..], window, key, limit);
    }
  }

  /** In every reachable state the timestamps queued for a key that is only used through
      reservations, together with its reservations in flight, stay within the limit; the
      counter of the key is the number of its uncompleted reservations and is absent when
      there are none. Eviction is unrestricted: any tick, any window, even while requests
      are running. */
  lemma {:induction false} ReservationsStayWithinLimit(
    expiration: int, events: seq<Event>, window: Window, key: Key, limit: int)
    requires Disciplined(events, key, limit, true)
    ensures var last := Run(Start(expiration), events, window).0;
            && |Stamps(last.limiter, key)| + Reserved(last.limiter, key) <= AtLeastZero(limit)
            && Reserved(last.limiter, key) == Outstanding(last.handles, key)
            && (Outstanding(last.handles, key) == 0 <==> key !in last.limiter.reservations)
  {
    RunWithin(Start(expiration), events, window, key, limit);
    var last := Run(Start(expiration), events, window).0;
    assert ReservedRight(last.limiter, last.handles, key);
  }

  /** The timestamps that one answered event commits for `key`: an accepted request or a
      successfully completed reservation. */
  function Commits(e: Event, answer: bool, handles: seq<Handle>, key: Key): seq<int> {
    match e
    case RequestAt(k, _, now) => if k == key && answer then [Unix(now)] else []
    case CompleteAt(h, success, now) =>
      if Completes(handles, h) && success && handles[h].key == key then [Unix(now)] else []
    case _ => []
  }

  function HandlesAfter(e: Event, answer: bool, handles: seq<Handle>): seq<Handle> {
    match e
    case ReserveAt(k, _, _) => if answer then handles + [Handle(k, false)] else handles
    case CompleteAt(h, _, _) => if Completes(handles, h) then handles[h := handles[h].(done := true)] else handles
    case _ => handles
  }

  /** The timestamps that a run with the given answers commits for `key`. */
  function Recorded(events: seq<Event>, answers: seq<bool>, handles: seq<Handle>, key: Key): seq<int>
    requires |events| == |answers|
  {
    if events == [] then []
    else Commits(events[0], answers[0], handles, key)
         + Recorded(events[1..], answers[1..], HandlesAfter(events[0], answers[0], handles), key)
  }

  lemma {:induction false} NaiveStepRecords(n: Naive, e: Event, window: Window, key: Key)
    ensures var (n1, answer) := NaiveStep(n, e, window);
            && History(n1, key) == History(n, key) + Commits(e, answer, n.handles, key)
            && n1.handles == HandlesAfter(e, answer, n.handles)
  {
    assert History(n, key) + [] == History(n, key);
  }

  lemma {:induction false} NaiveRunRecords(n: Naive, events: seq<Event>, window: Window, key: Key)
    ensures |NaiveRun(n, events, window).1| == |events|
    ensures History(NaiveRun(n, events, window).0, key)
         == History(n, key) + Recorded(events, NaiveRun(n, events, window).1, n.handles, key)
    decreases |events|
  {
    if events == [] {
      assert History(n, key) + [] == History(n, key);
    } else {
      var step := NaiveStep(n, events[0], window);
      var rest := NaiveRun(step.0, events[1..], window);
      NaiveStepRecords(n, events[0], window, key);
      NaiveRunRecords(step.0, events[1..], window, key);
      var all := [step.1] + rest.1;
      assert all[1..] == rest.1;
      assert NaiveRun(n, events, window) == (rest.0, all);
      ConcatAssociates(History(n, key), Commits(events[0], step.1, n.handles, key),
                       Recorded(events[1..], rest.1, step.0.handles, key));
    }
  }

  lemma {:induction false} ConcatAssociates<T>(a: seq<T>, b: seq<T>, c: seq<T>)
    ensures (a + b) + c == a + (b + c)
  {
  }

  function CountIn(s: seq<int>, lo: int, hi: int): nat {
    if s == [] then 0 else (if lo <= s[0] < hi then 1 else 0) + CountIn(s[1..], lo, hi)
  }

  lemma {:induction false} CountInConcat(a: seq<int>, b: seq<int>, lo: int, hi: int)
    ensures CountIn(a + b, lo, hi) == CountIn(a, lo, hi) + CountIn(b, lo, hi)
  {
    if a == [] {
      assert a + b == b;
    } else {
      assert (a + b)[1..] == a[1..] + b;
      CountInConcat(a[1..], b, lo, hi);
    }
  }

  lemma {:induction false} CountInBounds(s: seq<int>, lo: int, hi: int)
    ensures CountIn(s, lo, hi) <= |s|
    ensures (forall i :: 0 <= i < |s| ==> !(lo <= s[i] < hi)) ==> CountIn(s, lo, hi) == 0
  {
    if s != [] {
      CountInBounds(s[1..], lo, hi);
    }
  }

  /** Any `limit + 1` successive timestamps span at least `duration`. */
  ghost predicate Spread(s: seq<int>, limit: nat, duration: int) {
    forall i, j :: 0 <= i <= j < |s| && j - i == limit ==> s[j] - s[i] >= duration
  }

  lemma {:induction false} CountInTail(s: seq<int>, cut: nat, lo: int, hi: int)
    requires cut <= |s| && forall i :: 0 <= i < cut ==> s[i] < lo
    ensures CountIn(s, lo, hi) <= |s| - cut
  {
    assert s == s[..cut] + s[cut..];
    CountInConcat(s[..cut], s[cut..], lo, hi);
    CountInBounds(s[..cut], lo, hi);
    CountInBounds(s[cut..], lo, hi);
  }

  lemma {:induction false} CountInFront(s: seq<int>, lo: int, hi: int)
    requires s != [] && s[|s| - 1] >= hi
    ensures CountIn(s, lo, hi) == CountIn(s[..|s| - 1], lo, hi)
  {
    assert s == s[..|s| - 1] + [s[|s| - 1]];
    CountInConcat(s[..|s| - 1], [s[|s| - 1]], lo, hi);
  }

  lemma {:induction false} SpreadBoundsWindow(s: seq<int>, limit: nat, duration: int, lo: int)
    requires Sorted(s) && Spread(s, limit, duration)
    ensures CountIn(s, lo, lo + duration) <= limit
    decreases |s|
  {
    if |s| <= limit {
      CountInBounds(s, lo, lo + duration);
    } else if s[|s| - 1] >= lo + duration {
      CountInFront(s, lo, lo + duration);
      SpreadBoundsWindow(s[..|s| - 1], limit, duration, lo);
    } else {
      assert s[|s| - 1] - s[|s| - 1 - limit] >= duration;
      CountInTail(s, |s| - limit, lo, lo + duration);
    }
  }

  lemma {:induction false} YoungShrinks(s: seq<int>, now: int, later: int, duration: int)
    requires now <= later
    ensures |Young(s, later, duration)| <= |Young(s, now, duration)|
  {
    if s != [] {
      YoungShrinks(s[1..], now, later, duration);
    }
  }

  /** In a sorted history, if fewer than `limit` are young then the one `limit` places
      from the end has expired. */
  lemma {:induction false} FewYoung(s: seq<int>, limit: nat, now: int, duration: int)
    requires Sorted(s) && |Young(s, now, duration)| < limit <= |s|
    ensures now - s[|s| - limit] >= duration
  {
    var cut := TrimIsYoung(s, now, duration);
    if |s| - limit < cut {
      assert s[..cut][|s| - limit] == s[|s| - limit];
    }
  }

  ghost predicate Paced(n: Naive, window: Window, clock: int, key: Key, limit: nat, viaReserve: bool) {
    var h := History(n, key);
    && Sorted(h) && AllAtMost(h, Unix(clock)) && Spread(h, limit, window(key))
    && InWindow(n, key, clock, window) + Outstanding(n.handles, key) <= limit
    && (!viaReserve ==> Outstanding(n.handles, key) == 0)
  }

  lemma {:induction false} PacedLater(n: Naive, window: Window, clock: int, now: int,
                                       key: Key, limit: nat, viaReserve: bool)
    requires Paced(n, window, clock, key, limit, viaReserve) && clock <= now
    ensures Paced(n, window, now, key, limit, viaReserve)
  {
    UnixMonotone(clock, now);
    YoungShrinks(History(n, key), Unix(clock), Unix(now), window(key));
  }

  lemma {:induction false} AppendSpread(h: seq<int>, now: int, limit: nat, duration: int)
    requires Sorted(h) && AllAtMost(h, now) && Spread(h, limit, duration)
    requires |Young(h, now, duration)| < limit
    ensures Sorted(h + [now]) && AllAtMost(h + [now], now) && Spread(h + [now], limit, duration)
    ensures |Young(h + [now], now, duration)| <= |Young(h, now, duration)| + 1
  {
    YoungConcat(h, [now], now, duration);
    if limit <= |h| {
      FewYoung(h, limit, now, duration);
    }
  }

  lemma {:induction false} RecordPaced(n: Naive, window: Window, now: int, key: Key, limit: nat, viaReserve: bool)
    requires Paced(n, window, now, key, limit, viaReserve)
    requires InWindow(n, key, now, window) + Outstanding(n.handles, key) < limit
    ensures Paced(Record(n, key, now), window, now, key, limit, viaReserve)
  {
    AppendSpread(History(n, key), Unix(now), limit, window(key));
  }

  lemma {:induction false} NoneOutstanding(handles: seq<Handle>, h: nat, key: Key)
    requires h < |handles| && handles[h] == Handle(key, false)
    ensures Outstanding(handles, key) > 0
  {
    if h > 0 {
      NoneOutstanding(handles[1..], h - 1, key);
    }
  }

  lemma {:induction false} NaiveStepPaced(n: Naive, e: Event, window: Window, clock: int,
                                           key: Key, limit: int, viaReserve: bool)
    requires Paced(n, window, clock, key, AtLeastZero(limit), viaReserve)
    requires Disciplined([e], key, limit, viaReserve) && clock <= e.now
    ensures Paced(NaiveStep(n, e, window).0, window, e.now, key, AtLeastZero(limit), viaReserve)
  {
    assert e == [e][0];
    PacedLater(n, window, clock, e.now, key, AtLeastZero(limit), viaReserve);
    match e
    case RequestAt(k, _, now) =>
      if k == key && NaiveStep(n, e, window).1 {
        RecordPaced(n, window, now, key, AtLeastZero(limit), viaReserve);
      }
    case ReserveAt(k, _, now) =>
      OutstandingAppend(n.handles, Handle(k, false), key);
    case CompleteAt(h, success, now) =>
      if Completes(n.handles, h) {
        OutstandingDone(n.handles, h, key);
        var settled := n.(handles := n.handles[h := n.handles[h].(done := true)]);
        assert History(settled, key) == History(n, key);
        if success && n.handles[h].key == key {
          NoneOutstanding(n.handles, h, key);
          RecordPaced(settled, window, now, key, AtLeastZero(limit), viaReserve);
        }
      }
    case TickAt(_, _) =>
  }

  lemma {:induction false} NaiveRunPaced(
    n: Naive, events: seq<Event>, window: Window, clock: int, key: Key, limit: int, viaReserve: bool)
    requires Paced(n, window, clock, key, AtLeastZero(limit), viaReserve)
    requires Disciplined(events, key, limit, viaReserve) && Timely(events, clock)
    ensures Paced(NaiveRun(n, events, window).0, window, if events == [] then clock else events[|events| - 1].now,
                  key, AtLeastZero(limit), viaReserve)
    decreases |events|
  {
    if events != [] {
      assert events[0] == [events[0]][0];
      NaiveStepPaced(n, events[0], window, clock, key, limit, viaReserve);
      assert Disciplined(events[1..], key, limit, viaReserve) by {
        forall i | 0 <= i < |events[1..]| ensures events[1..][i] == events[i + 1] {}
      }
      NaiveRunPaced(NaiveStep(n, events[0], window).0, events[1..], window, events[0].now, key, limit, viaReserve);
    }
  }

  /** The promise of a sliding-window limiter, for the limiter itself: on every run, for
      every key used in one way with one limit, no window of the key's duration holds
      more than `limit` committed timestamps. */
  lemma {:induction false} NoWindowExceedsLimit(
    expiration: int, events: seq<Event>, window: Window, clock: int, key: Key, limit: int, viaReserve: bool, lo: int)
    requires WindowsFit(expiration, window) && Timely(events, clock)
    requires Disciplined(events, key, limit, viaReserve)
    ensures var answers := Run(Start(expiration), events, window).1;
            && |answers| == |events|
            && CountIn(Recorded(events, answers, [], key), lo, lo + window(key)) <= AtLeastZero(limit)
  {
    EvictionUnobservable(expiration, events, window, clock);
    NaiveWindowBound(events, window, clock, key, limit, viaReserve, lo);
  }

  lemma {:induction false} NaiveWindowBound(
    events: seq<Event>, window: Window, clock: int, key: Key, limit: int, viaReserve: bool, lo: int)
    requires Timely(events, clock) && Disciplined(events, key, limit, viaReserve)
    ensures var answers := NaiveRun(NaiveStart, events, window).1;
            && |answers| == |events|
            && CountIn(Recorded(events, answers, [], key), lo, lo + window(key)) <= AtLeastZero(limit)
  {
    NaiveRunRecords(NaiveStart, events, window, key);
    NaiveRunPaced(NaiveStart, events, window, clock, key, limit, viaReserve);
    var recorded := Recorded(events, NaiveRun(NaiveStart, events, window).1, [], key);
    var last := NaiveRun(NaiveStart, events, window).0;
    assert History(last, key) == recorded;
    PacedBounds(last, window, if events == [] then clock else events[|events| - 1].now,
                key, AtLeastZero(limit), viaReserve, lo);
  }

  lemma {:induction false} PacedBounds(
    n: Naive, window: Window, clock: int, key: Key, limit: nat, viaReserve: bool, lo: int)
    requires Paced(n, window, clock, key, limit, viaReserve)
    ensures CountIn(History(n, key), lo, lo + window(key)) <= limit
  {
    SpreadBoundsWindow(History(n, key), limit, window(key), lo);
  }
}
