/** The in-memory sliding-window limiter as a value: what each operation of
    `InMemoryRateLimiter` does to the buckets, the LRU order and the reservation
    counters. Class `RateLimiter.InMemoryRateLimiter` is proved against these
    functions, and module `RateLimitRuns` reasons about whole runs of them.

    Instants are nanoseconds since the epoch; the window is measured in whole
    seconds, exactly as the mix of `time.Time` and `Unix()` does.
 */
module RateLimitModel {
  import opened Options

  const NANOS_PER_SECOND: int := 1_000_000_000

  /** `time.Time.Unix`: whole seconds, rounded down. */
  function Unix(instant: int): int {
    instant / NANOS_PER_SECOND
  }

  /** What is limited, such as a client address or a user; compared as a whole. */
  datatype Key = Key(text: string)

  /** One key: when it was last used and the timestamps still queued, oldest first. */
  datatype Bucket = Bucket(lastActive: int, stamps: seq<int>)

  /** `lru` lists the keys of `store`, most recently active first. */
  datatype Limiter = Limiter(
    store: map<Key, Bucket>,
    lru: seq<Key>,
    reservations: map<Key, int>,
    expiration: int)

  function Empty(expiration: int): Limiter {
    Limiter(map[], [], map[], expiration)
  }

  // ---------------------------------------------------------------- queues

  function DropExpiredPrefix(stamps: seq<int>, now: int, duration: int): seq<int> {
    if stamps == [] || now - stamps[0] < duration then stamps
    else DropExpiredPrefix(stamps[1..], now, duration)
  }

  /** What `removeExpired` leaves: nothing when both ends have expired, otherwise the
      queue without its expired prefix. No order of the timestamps is assumed. */
  function Trim(stamps: seq<int>, now: int, duration: int): seq<int> {
    if stamps == [] || now - stamps[0] < duration then stamps
    else if now - stamps[|stamps| - 1] >= duration then []
    else DropExpiredPrefix(stamps, now, duration)
  }

  ghost predicate Sorted(s: seq<int>) {
    forall i, j :: 0 <= i <= j < |s| ==> s[i] <= s[j]
  }

  ghost predicate AllExpired(s: seq<int>, now: int, duration: int) {
    forall i :: 0 <= i < |s| ==> now - s[i] >= duration
  }

  ghost predicate AllYoung(s: seq<int>, now: int, duration: int) {
    forall i :: 0 <= i < |s| ==> now - s[i] < duration
  }

  /** The timestamps that are younger than `duration` at `now`, in order. */
  function Young(stamps: seq<int>, now: int, duration: int): seq<int> {
    if stamps == [] then []
    else (if now - stamps[0] < duration then [stamps[0]] else []) + Young(stamps[1..], now, duration)
  }

  lemma {:induction false} YoungConcat(a: seq<int>, b: seq<int>, now: int, duration: int)
    ensures Young(a + b, now, duration) == Young(a, now, duration) + Young(b, now, duration)
  {
    if a == [] {
      assert a + b == b;
    } else {
      assert (a + b)[1..] == a[1..] + b;
      YoungConcat(a[1..], b, now, duration);
    }
  }

  lemma {:induction false} YoungOfExpired(s: seq<int>, now: int, duration: int)
    requires AllExpired(s, now, duration)
    ensures Young(s, now, duration) == []
  {
    if s != [] {
      YoungOfExpired(s[1..], now, duration);
    }
  }

  lemma {:induction false} YoungOfYoung(s: seq<int>, now: int, duration: int)
    requires AllYoung(s, now, duration)
    ensures Young(s, now, duration) == s
  {
    if s != [] {
      YoungOfYoung(s[1..], now, duration);
    }
  }

  lemma {:induction false} DropExpiredPrefixSplits(s: seq<int>, now: int, duration: int) returns (cut: nat)
    ensures cut <= |s| && DropExpiredPrefix(s, now, duration) == s[cut..]
    ensures AllExpired(s[..cut], now, duration)
    ensures cut < |s| ==> now - s[cut] < duration
  {
    if s == [] || now - s[0] < duration {
      cut := 0;
    } else {
      var c := DropExpiredPrefixSplits(s[1..], now, duration);
      cut := c + 1;
      assert s[..cut] == [s[0]] + s[1..][..c];
      assert s[1..][c..] == s[cut..];
    }
  }

  /** On a time-ordered queue `removeExpired` cuts the queue in two: everything before the
      cut has expired and everything after it is young. */
  lemma {:induction false} TrimCuts(s: seq<int>, now: int, duration: int) returns (cut: nat)
    requires Sorted(s)
    ensures cut <= |s| && Trim(s, now, duration) == s[cut..]
    ensures AllExpired(s[..cut], now, duration) && AllYoung(s[cut..], now, duration)
  {
    cut := DropExpiredPrefixSplits(s, now, duration);
    if s != [] && now - s[0] >= duration && now - s[|s| - 1] >= duration {
      cut := |s|;
      assert s[..cut] == s;
    }
  }

  lemma {:induction false} YoungOfCut(s: seq<int>, cut: nat, now: int, duration: int)
    requires cut <= |s| && AllExpired(s[..cut], now, duration) && AllYoung(s[cut..], now, duration)
    ensures Young(s, now, duration) == s[cut..]
  {
    assert s == s[..cut] + s[cut..];
    YoungConcat(s[..cut], s[cut..], now, duration);
    YoungOfExpired(s[..cut], now, duration);
    YoungOfYoung(s[cut..], now, duration);
  }

  /** On a time-ordered queue `removeExpired` is filtering by age. */
  lemma {:induction false} TrimIsYoung(s: seq<int>, now: int, duration: int) returns (cut: nat)
    requires Sorted(s)
    ensures cut <= |s| && Trim(s, now, duration) == s[cut..] == Young(s, now, duration)
    ensures AllExpired(s[..cut], now, duration) && AllYoung(s[cut..], now, duration)
  {
    cut := TrimCuts(s, now, duration);
    YoungOfCut(s, cut, now, duration);
  }

  // ------------------------------------------------------------- operations

  function Remove<T(==)>(s: seq<T>, x: T): seq<T> {
    if s == [] then []
    else if s[0] == x then s[1..]
    else [s[0]] + Remove(s[1..], x)
  }

  /** `touchEntry`: the bucket of `key`, created on demand, becomes the most recent. */
  function Touch(l: Limiter, key: Key, now: int): Limiter {
    if key !in l.store then
      l.(store := l.store[key := Bucket(now, [])], lru := [key] + l.lru)
    else
      l.(store := l.store[key := l.store[key].(lastActive := now)], lru := [key] + Remove(l.lru, key))
  }

  /** `touchEntry` followed by `removeExpired`, which opens both Request and Reserve. */
  function TouchAndTrim(l: Limiter, key: Key, duration: int, now: int): (r: Limiter)
    ensures key in r.store
  {
    var touched := Touch(l, key, now);
    var bucket := touched.store[key];
    touched.(store := touched.store[key := bucket.(stamps := Trim(bucket.stamps, Unix(now), duration))])
  }

  function Append(l: Limiter, key: Key, now: int): Limiter
    requires key in l.store
  {
    var bucket := l.store[key];
    l.(store := l.store[key := bucket.(stamps := bucket.stamps + [Unix(now)])])
  }

  function Request(l: Limiter, key: Key, limit: int, duration: int, now: int): (Limiter, bool) {
    if limit <= 0 then (l, false)
    else
      var trimmed := TouchAndTrim(l, key, duration, now);
      if |trimmed.store[key].stamps| < limit then (Append(trimmed, key, now), true) else (trimmed, false)
  }

  function Reserved(l: Limiter, key: Key): int {
    if key in l.reservations then l.reservations[key] else 0
  }

  function Reserve(l: Limiter, key: Key, limit: int, duration: int, now: int): (Limiter, bool) {
    if limit <= 0 then (l, false)
    else
      var trimmed := TouchAndTrim(l, key, duration, now);
      if |trimmed.store[key].stamps| + Reserved(trimmed, key) >= limit then (trimmed, false)
      else (trimmed.(reservations := trimmed.reservations[key := Reserved(trimmed, key) + 1]), true)
  }

  /** The body that `once` guards in `Complete`. A missing counter reads as zero. */
  function Complete(l: Limiter, key: Key, success: bool, now: int): Limiter {
    var count := Reserved(l, key) - 1;
    var freed := l.(reservations := if count == 0 then l.reservations - {key} else l.reservations[key := count]);
    if success then Append(Touch(freed, key, now), key, now) else freed
  }

  predicate Idle(l: Limiter, key: Key, tick: int)
    requires key in l.store
  {
    tick - l.store[key].lastActive >= l.expiration
  }

  /** The keys of `lru` that are not idle, in order. */
  function Survivors(l: Limiter, lru: seq<Key>, tick: int): seq<Key> {
    if lru == [] then []
    else (if lru[0] in l.store && Idle(l, lru[0], tick) then [] else [lru[0]]) + Survivors(l, lru[1..], tick)
  }

  /** What `deleteExpiredEntries` is meant to do: drop exactly the idle keys. */
  function Evict(l: Limiter, tick: int): Limiter {
    if l.expiration <= 0 then l
    else l.(store := map k | k in l.store && !Idle(l, k, tick) :: l.store[k],
            lru := Survivors(l, l.lru, tick))
  }

  // ------------------------------------------------- shape of the LRU order

  /** The LRU list holds every key of the store exactly once, most recently active first,
      and no key was active in the future. */
  ghost predicate WellFormed(l: Limiter, clock: int) {
    && Distinct(l.lru)
    && (forall k :: k in l.store <==> k in l.lru)
    && (forall i, j :: 0 <= i < j < |l.lru| ==> l.store[l.lru[i]].lastActive >= l.store[l.lru[j]].lastActive)
    && (forall k :: k in l.store ==> l.store[k].lastActive <= clock)
  }

  lemma {:induction false} RemoveCuts<T(!new)>(s: seq<T>, x: T) returns (at: nat)
    requires x in s && Distinct(s)
    ensures at < |s| && s[at] == x && Remove(s, x) == s[..at] + s[at + 1..]
  {
    if s[0] == x {
      at := 0;
      assert s[1..] == [] + s[1..];
    } else {
      at := RemoveCuts(s[1..], x);
      at := at + 1;
      assert s[..at] + s[at + 1..] == [s[0]] + (s[1..][..at - 1] + s[1..][at..]);
    }
  }

  function DropAt(l: Limiter, at: nat): Limiter
    requires at < |l.lru|
  {
    l.(store := l.store - {l.lru[at]}, lru := l.lru[..at] + l.lru[at + 1..])
  }

  lemma {:induction false} DropAtKeys(l: Limiter, at: nat)
    requires Distinct(l.lru) && at < |l.lru|
    ensures forall k :: k in DropAt(l, at).lru <==> k in l.lru && k != l.lru[at]
  {
    var rest := DropAt(l, at).lru;
    forall k | k in l.lru && k != l.lru[at] ensures k in rest {
      var i :| 0 <= i < |l.lru| && l.lru[i] == k;
      assert rest[if i < at then i else i - 1] == k;
    }
  }

  lemma {:induction false} DropAtIndex(l: Limiter, at: nat, i: nat) returns (i0: nat)
    requires at < |l.lru| && i < |l.lru| - 1
    ensures i0 == (if i < at then i else i + 1) && DropAt(l, at).lru[i] == l.lru[i0] && i0 != at
  {
    i0 := if i < at then i else i + 1;
  }

  /** The first key differs from the second and was active no earlier. */
  ghost predicate Newer(l: Limiter, a: Key, b: Key) {
    a != b && a in l.store && b in l.store && l.store[a].lastActive >= l.store[b].lastActive
  }

  lemma {:induction false} DropAtNewer(l: Limiter, at: nat, clock: int, i: nat, j: nat)
    requires WellFormed(l, clock) && at < |l.lru| && i < j < |l.lru| - 1
    ensures Newer(DropAt(l, at), DropAt(l, at).lru[i], DropAt(l, at).lru[j])
  {
    var i0 := DropAtIndex(l, at, i);
    var j0 := DropAtIndex(l, at, j);
    assert l.lru[i0] in l.lru && l.lru[j0] in l.lru;
  }

  lemma {:induction false} DropAtWellFormed(l: Limiter, at: nat, clock: int)
    requires WellFormed(l, clock) && at < |l.lru|
    ensures WellFormed(DropAt(l, at), clock)
  {
    var l1 := DropAt(l, at);
    forall i, j | 0 <= i < j < |l1.lru| ensures Newer(l1, l1.lru[i], l1.lru[j]) {
      DropAtNewer(l, at, clock, i, j);
    }
    DropAtKeys(l, at);
  }

  function PushFront(l: Limiter, key: Key, bucket: Bucket): Limiter {
    l.(store := l.store[key := bucket], lru := [key] + l.lru)
  }

  lemma {:induction false} PushFrontWellFormed(l: Limiter, key: Key, bucket: Bucket, clock: int)
    requires WellFormed(l, clock) && key !in l.store && clock <= bucket.lastActive
    ensures WellFormed(PushFront(l, key, bucket), bucket.lastActive)
  {
  }

  lemma {:induction false} TouchMoves(l: Limiter, key: Key, now: int) returns (at: nat)
    requires key in l.store && key in l.lru && Distinct(l.lru)
    ensures at < |l.lru| && l.lru[at] == key
    ensures Touch(l, key, now) == PushFront(DropAt(l, at), key, l.store[key].(lastActive := now))
  {
    at := RemoveCuts(l.lru, key);
  }

  lemma {:induction false} TouchWellFormed(l: Limiter, key: Key, clock: int, now: int)
    requires WellFormed(l, clock) && clock <= now
    ensures WellFormed(Touch(l, key, now), now)
  {
    if key !in l.store {
      PushFrontWellFormed(l, key, Bucket(now, []), clock);
    } else {
      var at := TouchMoves(l, key, now);
      DropAtWellFormed(l, at, clock);
      PushFrontWellFormed(DropAt(l, at), key, l.store[key].(lastActive := now), clock);
    }
  }

  lemma {:induction false} SameShape(l: Limiter, l1: Limiter, clock: int)
    requires WellFormed(l, clock)
    requires l1.lru == l.lru && l1.store.Keys == l.store.Keys
    requires forall k :: k in l.store ==> l1.store[k].lastActive == l.store[k].lastActive
    ensures WellFormed(l1, clock)
  {
  }

  // ------------------------------------------------------- eviction in order

  function WithoutOldest(l: Limiter): Limiter
    requires l.lru != []
  {
    DropAt(l, |l.lru| - 1)
  }

  lemma {:induction false} SurvivorsConcat(l: Limiter, a: seq<Key>, b: seq<Key>, tick: int)
    ensures Survivors(l, a + b, tick) == Survivors(l, a, tick) + Survivors(l, b, tick)
  {
    if a == [] {
      assert a + b == b;
    } else {
      assert (a + b)[1..] == a[1..] + b;
      SurvivorsConcat(l, a[1..], b, tick);
    }
  }

  lemma {:induction false} SurvivorsAgree(l: Limiter, l1: Limiter, keys: seq<Key>, tick: int)
    requires l.expiration == l1.expiration
    requires forall k :: k in keys && k in l.store ==> k in l1.store && l1.store[k] == l.store[k]
    requires forall k :: k in keys && k in l1.store ==> k in l.store
    ensures Survivors(l, keys, tick) == Survivors(l1, keys, tick)
  {
    if keys != [] {
      assert keys[0] in keys;
      SurvivorsAgree(l, l1, keys[1..], tick);
    }
  }

  lemma {:induction false} SurvivorsAll(l: Limiter, keys: seq<Key>, tick: int)
    requires forall k :: k in keys ==> k in l.store && !Idle(l, k, tick)
    ensures Survivors(l, keys, tick) == keys
  {
    if keys != [] {
      assert keys[0] in keys;
      SurvivorsAll(l, keys[1..], tick);
    }
  }

  lemma {:induction false} SurvivorsWithoutOldest(l: Limiter, tick: int)
    requires Distinct(l.lru) && l.lru != []
    requires l.lru[|l.lru| - 1] in l.store && Idle(l, l.lru[|l.lru| - 1], tick)
    ensures Survivors(WithoutOldest(l), WithoutOldest(l).lru, tick) == Survivors(l, l.lru, tick)
  {
    var n := |l.lru| - 1;
    DropAtKeys(l, n);
    var front := WithoutOldest(l).lru;
    calc {
      Survivors(l, l.lru, tick);
      { assert l.lru == front + [l.lru[n]]; }
      Survivors(l, front + [l.lru[n]], tick);
      { SurvivorsConcat(l, front, [l.lru[n]], tick); }
      Survivors(l, front, tick) + Survivors(l, [l.lru[n]], tick);
      { assert Survivors(l, [l.lru[n]], tick) == []; }
      Survivors(l, front, tick);
      { SurvivorsAgree(l, WithoutOldest(l), front, tick); }
      Survivors(WithoutOldest(l), front, tick);
    }
  }

  lemma {:induction false} EvictWithoutOldest(l: Limiter, tick: int)
    requires Distinct(l.lru) && l.lru != [] && l.expiration > 0
    requires l.lru[|l.lru| - 1] in l.store && Idle(l, l.lru[|l.lru| - 1], tick)
    ensures Evict(WithoutOldest(l), tick) == Evict(l, tick)
  {
    SurvivorsWithoutOldest(l, tick);
    assert Evict(WithoutOldest(l), tick).store == Evict(l, tick).store;
  }

  /** Deleting an idle oldest key is a step towards the eviction of all idle keys. */
  lemma {:induction false} EvictOldest(l: Limiter, tick: int, clock: int)
    requires WellFormed(l, clock) && l.lru != [] && l.expiration > 0
    requires Idle(l, l.lru[|l.lru| - 1], tick)
    ensures WellFormed(WithoutOldest(l), clock)
    ensures Evict(WithoutOldest(l), tick) == Evict(l, tick)
  {
    DropAtWellFormed(l, |l.lru| - 1, clock);
    EvictWithoutOldest(l, tick);
  }

  /** The LRU order justifies stopping at the first active key: if the oldest is not
      idle, no key is. */
  lemma {:induction false} StopAtActive(l: Limiter, tick: int, clock: int)
    requires WellFormed(l, clock)
    requires l.lru == [] || !Idle(l, l.lru[|l.lru| - 1], tick)
    ensures Evict(l, tick) == l
  {
    forall k | k in l.lru ensures k in l.store && !Idle(l, k, tick) {
      var i :| 0 <= i < |l.lru| && l.lru[i] == k;
      assert l.store[l.lru[i]].lastActive >= l.store[l.lru[|l.lru| - 1]].lastActive;
    }
    SurvivorsAll(l, l.lru, tick);
  }
}
