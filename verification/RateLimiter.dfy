/** The limiter as the program keeps it: hand-linked request queues, a map of entries, an
    LRU list whose elements and entries point at each other, and reservation counters.
    Every method is proved against the value-level operation in `RateLimitModel`.
 */
module RateLimiter {
  import opened Options
  import opened RateLimitModel

  /** `rateLimitRequest`. The ghost owner is the queue the node was appended to. */
  class RequestNode {
    var next: RequestNode?
    const timestamp: int
    ghost const owner: RequestQueue

    constructor (timestamp: int, ghost owner: RequestQueue)
      ensures this.timestamp == timestamp && this.owner == owner && next == null
    {
      this.timestamp := timestamp;
      this.owner := owner;
      next := null;
    }
  }

  ghost function StampsOf(nodes: seq<RequestNode>): (s: seq<int>)
    ensures |s| == |nodes| && forall i :: 0 <= i < |nodes| ==> s[i] == nodes[i].timestamp
  {
    seq(|nodes|, i requires 0 <= i < |nodes| => nodes[i].timestamp)
  }

  lemma StampsOfTail(nodes: seq<RequestNode>)
    requires nodes != []
    ensures StampsOf(nodes[1..]) == StampsOf(nodes)[1..]
  {
  }

  /** `rateLimitQueue`: a singly linked chain with head, tail and length. */
  class RequestQueue {
    var head: RequestNode?
    var tail: RequestNode?
    var length: int
    ghost var nodes: seq<RequestNode>
    /** The key whose bucket this queue is. */
    ghost const home: Key

    /** `nodes` is the chain from head to tail: acyclic, linked in order, ended by null. */
    ghost predicate Valid()
      reads this, nodes
    {
      && length == |nodes|
      && (nodes == [] ==> head == null && tail == null)
      && (nodes != [] ==> head == nodes[0] && tail == nodes[|nodes| - 1] && nodes[|nodes| - 1].next == null)
      && (forall i :: 0 <= i < |nodes| - 1 ==> nodes[i].next == nodes[i + 1])
      && (forall i, j :: 0 <= i < j < |nodes| ==> nodes[i] != nodes[j])
      && (forall i :: 0 <= i < |nodes| ==> nodes[i].owner == this)
    }

    ghost function Stamps(): seq<int>
      reads this
    {
      StampsOf(nodes)
    }

    constructor (ghost home: Key)
      ensures Valid() && nodes == [] && this.home == home
    {
      head, tail, length, nodes := null, null, 0, [];
      this.home := home;
    }

    method Append(timestamp: int)
      requires Valid()
      modifies this, nodes
      ensures Valid() && Stamps() == old(Stamps()) + [timestamp]
      ensures |nodes| == |old(nodes)| + 1 && nodes[..|nodes| - 1] == old(nodes) && fresh(nodes[|nodes| - 1])
    {
      var request := new RequestNode(timestamp, this);
      if tail == null {
        head := request;
        tail := request;
      } else {
        tail.next := request;
        tail := request;
      }
      length := length + 1;
      nodes := nodes + [request];
    }

    /** No order of the timestamps is needed for the loop to be safe: it stops at the
        tail at the latest, because the tail has not expired. */
    method RemoveExpired(now: int, duration: int)
      requires Valid()
      modifies this, nodes
      ensures Valid() && Stamps() == Trim(old(Stamps()), now, duration)
      ensures forall n :: n in nodes ==> n in old(nodes)
    {
      if head == null || now - head.timestamp < duration {
        return;
      }
      if now - tail.timestamp >= duration {
        Clear();
        return;
      }
      ghost var kept := DropExpiredPrefix(Stamps(), now, duration);
      ghost var all, cut := nodes, 0;
      while now - head.timestamp >= duration
        invariant 0 <= cut < |all| && nodes == all[cut..] && Valid()
        invariant kept == DropExpiredPrefix(StampsOf(nodes), now, duration)
        invariant now - tail.timestamp < duration
        decreases |all| - cut
      {
        StampsOfTail(nodes);
        UnlinkHead();
        cut := cut + 1;
      }
    }

    /** One turn of the loop in `removeExpired`. */
    method UnlinkHead()
      requires Valid() && |nodes| > 1
      modifies this, nodes[0]
      ensures Valid() && nodes == old(nodes)[1..] && tail == old(tail)
    {
      assert head.next == nodes[1];
      var expired := head;
      head := expired.next;
      expired.next := null;
      length := length - 1;
      nodes := nodes[1..];
    }

    method Clear()
      modifies this
      ensures Valid() && nodes == [] && Stamps() == []
    {
      head := null;
      tail := null;
      length := 0;
      nodes := [];
    }
  }

  /** An element of the LRU list (`list.Element`) and the entry stored in it. */
  class LruElement {
    const value: RateLimitEntry

    constructor (value: RateLimitEntry)
      ensures this.value == value
    {
      this.value := value;
    }
  }

  /** `rateLimitEntry`: a bucket that knows its place in the LRU list. */
  class RateLimitEntry {
    var lastActive: int
    var element: LruElement?
    const requests: RequestQueue
    const key: Key

    constructor (key: Key, lastActive: int)
      ensures this.key == key && this.lastActive == lastActive && element == null
      ensures fresh(requests) && requests.Valid() && requests.nodes == [] && requests.home == key
    {
      this.key := key;
      this.lastActive := lastActive;
      this.element := null;
      this.requests := new RequestQueue(key);
    }
  }

  /** A new entry together with the list element that holds it. */
  method NewEntry(key: Key, now: int) returns (entry: RateLimitEntry)
    ensures fresh(entry) && fresh(entry.requests)
    ensures entry.key == key && entry.lastActive == now
    ensures entry.requests.Valid() && entry.requests.nodes == [] && entry.requests.home == key
    ensures entry.element != null && entry.element.value == entry
  {
    entry := new RateLimitEntry(key, now);
    var element := new LruElement(entry);
    entry.element := element;
  }

  /** The list `lru` holds, in order, the elements that belong to `keys`. */
  ghost predicate Lists(lru: seq<LruElement>, keys: seq<Key>, elements: map<Key, LruElement>) {
    |lru| == |keys| && forall i :: 0 <= i < |keys| ==> keys[i] in elements && lru[i] == elements[keys[i]]
  }

  lemma {:induction false} RemoveElement(lru: seq<LruElement>, at: nat)
    requires at < |lru| && forall i :: 0 <= i < at ==> lru[i] != lru[at]
    ensures Remove(lru, lru[at]) == lru[..at] + lru[at + 1..]
  {
    if at > 0 {
      RemoveElement(lru[1..], at - 1);
      assert lru[..at] + lru[at + 1..] == [lru[0]] + (lru[1..][..at - 1] + lru[1..][at..]);
    }
  }

  lemma ListsPush(lru: seq<LruElement>, keys: seq<Key>, elements: map<Key, LruElement>, key: Key, element: LruElement)
    requires Lists(lru, keys, elements) && key !in elements
    ensures Lists([element] + lru, [key] + keys, elements[key := element])
  {
  }

  lemma ListsCut(lru: seq<LruElement>, keys: seq<Key>, elements: map<Key, LruElement>, at: nat)
    requires Lists(lru, keys, elements) && at < |keys|
    ensures Lists(lru[..at] + lru[at + 1..], keys[..at] + keys[at + 1..], elements)
  {
    var lru1, keys1 := lru[..at] + lru[at + 1..], keys[..at] + keys[at + 1..];
    forall i | 0 <= i < |keys1| ensures keys1[i] in elements && lru1[i] == elements[keys1[i]] {
      var j := if i < at then i else i + 1;
      assert lru1[i] == lru[j] && keys1[i] == keys[j];
    }
  }

  lemma ListsDropLast(lru: seq<LruElement>, keys: seq<Key>, elements: map<Key, LruElement>)
    requires Lists(lru, keys, elements) && Distinct(keys) && keys != []
    ensures var n := |keys| - 1; Lists(lru[..n], keys[..n] + keys[n + 1..], elements - {keys[n]})
  {
  }

  lemma ListsMove(lru: seq<LruElement>, keys: seq<Key>, elements: map<Key, LruElement>, key: Key)
    requires Lists(lru, keys, elements) && Distinct(keys) && key in keys
    requires forall k :: k in elements ==> elements[k].value.key == k
    ensures key in elements && Lists([elements[key]] + Remove(lru, elements[key]), [key] + Remove(keys, key), elements)
  {
    var at := RemoveCuts(keys, key);
    RemoveElement(lru, at);
    ListsCut(lru, keys, elements, at);
  }

  class InMemoryRateLimiter {
    var store: map<Key, RateLimitEntry>
    var lru: seq<LruElement>
    var reservations: map<Key, int>
    const expirationDuration: int

    /** The limiter as a value of `RateLimitModel`. */
    ghost var view: Limiter
    ghost var clock: int
    ghost var elements: map<Key, LruElement>
    // the objects that make up the limiter
    ghost var entries: set<RateLimitEntry>
    ghost var queues: set<RequestQueue>
    ghost var nodes: set<RequestNode>

    /** The entry of `key` knows its key and points at the list element that points back. */
    ghost predicate EntryOk(key: Key)
      reads `store, `view, `elements, `entries, entries
    {
      && (key in store <==> key in view.store) && (key in store <==> key in elements)
      && (key in store ==>
        && store[key] in entries && store[key].key == key && store[key].lastActive == view.store[key].lastActive
        && store[key].element == elements[key] && elements[key].value == store[key])
    }

    /** The queue of `key` is well linked, shared with no other key, and holds its timestamps. */
    ghost predicate QueueOk(key: Key)
      reads `store, `view, `queues, `nodes, queues, nodes
    {
      key in store ==>
        var queue := store[key].requests;
        && queue in queues && queue.home == key
        && (forall n :: n in queue.nodes ==> n in nodes)
        && queue.Valid() && key in view.store && queue.Stamps() == view.store[key].stamps
    }

    ghost predicate Linked()
      reads this, entries, queues, nodes
    {
      && (forall k :: EntryOk(k)) && (forall k :: QueueOk(k))
      && Lists(lru, view.lru, elements)
      && view.reservations == reservations && view.expiration == expirationDuration
    }

    /** From the time of the last call on, the LRU list is in order. */
    ghost predicate OrderedAt(time: int)
      reads `view, `clock
    {
      clock <= time ==> WellFormed(view, time)
    }

    ghost predicate Valid()
      reads this, entries, queues, nodes
    {
      Linked() && (forall t :: OrderedAt(t))
    }

    /** `Init` on a limiter that was not initialised before. */
    constructor (expirationDuration: int, ghost now: int)
      ensures Valid() && view == Empty(expirationDuration) && clock == now
      ensures entries == {} && queues == {} && nodes == {}
    {
      store, lru, reservations := map[], [], map[];
      this.expirationDuration := expirationDuration;
      view, elements := Empty(expirationDuration), map[];
      entries, queues, nodes, clock := {}, {}, {}, now;
    }

    /** A queue that was not written stays in order. */
    twostate lemma QueueKept(key: Key)
      requires old(QueueOk(key)) && old(queues) <= queues && old(nodes) <= nodes
      requires key in store ==>
        && key in old(store) && store[key] == old(store[key])
        && key in view.store && view.store[key].stamps == old(view.store[key].stamps)
        && unchanged(store[key].requests) && (forall n :: n in store[key].requests.nodes ==> unchanged(n))
      ensures QueueOk(key)
    {
      if key in store {
        var queue := store[key].requests;
        forall i | 0 <= i < |queue.nodes| ensures queue.nodes[i].next == old(queue.nodes[i].next) {
          assert queue.nodes[i] in queue.nodes;
        }
      }
    }

    /** Changing timestamps or reservations does not disturb the order. */
    lemma KeepShape(before: Limiter)
      requires WellFormed(before, clock)
      requires view.lru == before.lru && view.store.Keys == before.store.Keys
      requires forall k :: k in before.store ==> view.store[k].lastActive == before.store[k].lastActive
      ensures forall t :: OrderedAt(t)
    {
      SameShape(before, view, clock);
      StaysOrdered();
    }

    lemma StaysOrdered()
      requires WellFormed(view, clock)
      ensures forall t :: OrderedAt(t)
    {
    }

    method TouchEntry(key: Key, now: int) returns (entry: RateLimitEntry)
      requires Valid() && clock <= now
      modifies this, entries
      ensures Valid() && view == Touch(old(view), key, now) && clock == now
      ensures fresh(entries - old(entries)) && fresh(queues - old(queues)) && nodes == old(nodes)
      ensures key in store && entry == store[key]
    {
      assert OrderedAt(clock) && EntryOk(key);
      TouchWellFormed(view, key, clock, now);
      if key !in store {
        entry := NewEntry(key, now);
        InsertFront(entry);
      } else {
        entry := store[key];
        MoveToFront(entry, now);
      }
      StaysOrdered();
    }

    method InsertFront(entry: RateLimitEntry)
      requires Linked() && entry.key !in store && entry.element != null && entry.element.value == entry
      requires entry.requests.Valid() && entry.requests.nodes == [] && entry.requests.home == entry.key
      modifies this
      ensures Linked() && clock == entry.lastActive
      ensures view == PushFront(old(view), entry.key, Bucket(entry.lastActive, []))
      ensures entries == old(entries) + {entry} && queues == old(queues) + {entry.requests} && nodes == old(nodes)
      ensures entry.key in store && entry == store[entry.key]
    {
      assert EntryOk(entry.key);
      ListsPush(lru, view.lru, elements, entry.key, entry.element);
      lru := [entry.element] + lru;
      store := store[entry.key := entry];
      elements := elements[entry.key := entry.element];
      entries, queues := entries + {entry}, queues + {entry.requests};
      view, clock := PushFront(view, entry.key, Bucket(entry.lastActive, [])), entry.lastActive;
      forall k ensures EntryOk(k) {
        assert old(EntryOk(k));
      }
      forall k ensures QueueOk(k) {
        assert old(QueueOk(k) && EntryOk(k));
        if k != entry.key {
          QueueKept(k);
        }
      }
    }

    method MoveToFront(entry: RateLimitEntry, now: int)
      requires Linked() && entry.key in store && store[entry.key] == entry
      requires entry.key in view.lru && Distinct(view.lru)
      modifies this`lru, this`view, this`clock, entry`lastActive
      ensures Linked() && view == Touch(old(view), entry.key, now) && clock == now
    {
      forall k | k in elements ensures elements[k].value.key == k {
        assert EntryOk(k);
      }
      assert EntryOk(entry.key);
      ListsMove(lru, view.lru, elements, entry.key);
      entry.lastActive := now;
      var element: LruElement := entry.element;
      lru := [element] + Remove(lru, element);
      view, clock := Touch(view, entry.key, now), now;
      forall k ensures EntryOk(k) {
        assert old(EntryOk(k));
      }
      forall k ensures QueueOk(k) {
        assert old(QueueOk(k));
      }
    }

    /** `removeExpired` on the queue of one entry. */
    method TrimEntry(entry: RateLimitEntry, now: int, duration: int)
      requires Linked() && entry.key in store && store[entry.key] == entry
      modifies this`view, entry.requests, entry.requests.nodes
      ensures Linked() && entry.key in old(view.store)
      ensures view == old(view).(store := old(view.store)[entry.key := old(view.store)[entry.key].(stamps :=
                        Trim(old(view.store)[entry.key].stamps, now, duration))])
    {
      assert EntryOk(entry.key) && QueueOk(entry.key);
      entry.requests.RemoveExpired(now, duration);
      view := view.(store := view.store[entry.key := view.store[entry.key].(stamps := entry.requests.Stamps())]);
      forall k ensures EntryOk(k) {
        assert old(EntryOk(k));
      }
      forall k ensures QueueOk(k) {
        assert old(QueueOk(k));
      }
    }

    /** Recording an accepted request in the queue of one entry. */
    method AppendTo(entry: RateLimitEntry, timestamp: int)
      requires Linked() && entry.key in store && store[entry.key] == entry
      modifies this`view, this`nodes, entry.requests, entry.requests.nodes
      ensures Linked() && entry.key in old(view.store) && fresh(nodes - old(nodes))
      ensures view == old(view).(store := old(view.store)[entry.key := old(view.store)[entry.key].(stamps :=
                        old(view.store)[entry.key].stamps + [timestamp])])
    {
      assert EntryOk(entry.key) && QueueOk(entry.key);
      entry.requests.Append(timestamp);
      nodes := nodes + {entry.requests.nodes[|entry.requests.nodes| - 1]};
      view := view.(store := view.store[entry.key := view.store[entry.key].(stamps := entry.requests.Stamps())]);
      forall k ensures EntryOk(k) {
        assert old(EntryOk(k));
      }
      forall k ensures QueueOk(k) {
        assert old(QueueOk(k));
      }
    }

    method TrimTouched(entry: RateLimitEntry, now: int, duration: int)
      requires Valid() && entry.key in store && store[entry.key] == entry
      modifies this`view, entry.requests, entry.requests.nodes
      ensures Valid() && entry.key in old(view.store)
      ensures view == old(view).(store := old(view.store)[entry.key := old(view.store)[entry.key].(stamps :=
                        Trim(old(view.store)[entry.key].stamps, now, duration))])
    {
      assert OrderedAt(clock);
      TrimEntry(entry, now, duration);
      KeepShape(old(view));
    }

    method Record(entry: RateLimitEntry, now: int)
      requires Valid() && entry.key in store && store[entry.key] == entry
      modifies this`view, this`nodes, entry.requests, entry.requests.nodes
      ensures Valid() && fresh(nodes - old(nodes))
      ensures entry.key in old(view.store) && view == Append(old(view), entry.key, now)
    {
      assert OrderedAt(clock);
      AppendTo(entry, Unix(now));
      KeepShape(old(view));
    }

    method TouchAndRecord(key: Key, now: int)
      requires Valid() && clock <= now
      modifies this, entries, queues, nodes
      ensures Valid() && clock == now && view == Append(Touch(old(view), key, now), key, now)
      ensures fresh(entries - old(entries)) && fresh(queues - old(queues)) && fresh(nodes - old(nodes))
    {
      var entry := TouchEntry(key, now);
      assert EntryOk(key) && QueueOk(key);
      Record(entry, now);
    }

    /** `touchEntry` and `removeExpired`, which open both Request and Reserve. */
    method TouchAndTrimEntry(key: Key, duration: int, now: int) returns (entry: RateLimitEntry)
      requires Valid() && clock <= now
      modifies this, entries, queues, nodes
      ensures Valid() && view == TouchAndTrim(old(view), key, duration, now) && clock == now
      ensures fresh(entries - old(entries)) && fresh(queues - old(queues)) && nodes == old(nodes)
      ensures key in store && entry == store[key] && entry.requests.length == |view.store[key].stamps|
    {
      entry := TouchEntry(key, now);
      assert EntryOk(key) && QueueOk(key);
      TrimTouched(entry, Unix(now), duration);
      assert QueueOk(key);
    }

    method Request(key: Key, maxRequestNum: int, duration: int, now: int) returns (allowed: bool)
      requires Valid() && clock <= now
      modifies this, entries, queues, nodes
      ensures Valid() && clock <= now
      ensures (view, allowed) == RateLimitModel.Request(old(view), key, maxRequestNum, duration, now)
      ensures fresh(entries - old(entries)) && fresh(queues - old(queues)) && fresh(nodes - old(nodes))
    {
      if maxRequestNum <= 0 {
        return false;
      }
      var entry := TouchAndTrimEntry(key, duration, now);
      allowed := entry.requests.length < maxRequestNum;
      if allowed {
        assert EntryOk(key) && QueueOk(key);
        Record(entry, now);
      }
    }

    /** Everything of a reservation but the object that stands for it. */
    method TryReserve(key: Key, maxRequests: int, duration: int, now: int) returns (reserved: bool)
      requires Valid() && clock <= now
      modifies this, entries, queues, nodes
      ensures Valid() && clock <= now
      ensures (view, reserved) == RateLimitModel.Reserve(old(view), key, maxRequests, duration, now)
      ensures fresh(entries - old(entries)) && fresh(queues - old(queues)) && fresh(nodes - old(nodes))
    {
      if maxRequests <= 0 {
        return false;
      }
      var entry := TouchAndTrimEntry(key, duration, now);
      var inFlight := if key in reservations then reservations[key] else 0;
      reserved := entry.requests.length + inFlight < maxRequests;
      if reserved {
        SetReservations(reservations[key := inFlight + 1]);
      }
    }

    method Reserve(key: Key, maxRequests: int, duration: int, now: int) returns (reservation: RateLimitReservation?)
      requires Valid() && clock <= now
      modifies this, entries, queues, nodes
      ensures Valid() && clock <= now
      ensures (view, reservation != null) == RateLimitModel.Reserve(old(view), key, maxRequests, duration, now)
      ensures reservation != null ==>
        fresh(reservation) && reservation.limiter == this && reservation.key == key && !reservation.done
      ensures fresh(entries - old(entries)) && fresh(queues - old(queues)) && fresh(nodes - old(nodes))
    {
      reservation := null;
      var reserved := TryReserve(key, maxRequests, duration, now);
      if reserved {
        reservation := new RateLimitReservation(this, key);
      }
    }

    method SetReservations(counters: map<Key, int>)
      requires Valid()
      modifies this`reservations, this`view
      ensures Valid() && view == old(view).(reservations := counters)
    {
      ghost var before := view;
      assert OrderedAt(clock);
      reservations, view := counters, view.(reservations := counters);
      KeepShape(before);
      forall k ensures EntryOk(k) {
        assert old(EntryOk(k));
      }
      forall k ensures QueueOk(k) {
        assert old(QueueOk(k));
      }
    }

    /** The loop walks the LRU list from its back and stops at the first active key; by
        the order of the list that removes exactly the idle keys. */
    method DeleteExpiredEntries(tick: int)
      requires Valid()
      modifies this, entries, queues
      ensures Valid() && view == Evict(old(view), tick)
      ensures entries == old(entries) && queues == old(queues) && nodes == old(nodes) && clock == old(clock)
    {
      if expirationDuration <= 0 {
        return;
      }
      while lru != []
        invariant Valid() && Evict(view, tick) == Evict(old(view), tick)
        invariant entries == old(entries) && queues == old(queues) && nodes == old(nodes) && clock == old(clock)
        decreases |lru|
      {
        var oldest := lru[|lru| - 1];
        var entry := oldest.value;
        assert EntryOk(view.lru[|lru| - 1]) && QueueOk(view.lru[|lru| - 1]);
        if tick - entry.lastActive < expirationDuration {
          break;
        }
        DropIdle(entry, tick);
      }
      assert OrderedAt(clock);
      StopAtActive(view, tick, clock);
    }

    /** One turn of the eviction loop on an idle entry. */
    method DropIdle(entry: RateLimitEntry, tick: int)
      requires Valid() && expirationDuration > 0 && lru != [] && entry == lru[|lru| - 1].value
      requires view.lru[|lru| - 1] == entry.key && entry.key in store && store[entry.key] == entry
      requires entry.key in view.store && Idle(view, entry.key, tick)
      modifies this`store, this`lru, this`view, this`elements, entry`element, entry.requests
      ensures Valid() && Evict(view, tick) == Evict(old(view), tick) && |lru| == |old(lru)| - 1
    {
      ghost var rest := WithoutOldest(view);
      assert WellFormed(rest, clock) && Evict(rest, tick) == Evict(view, tick) by {
        assert OrderedAt(clock);
        EvictOldest(view, tick, clock);
      }
      DeleteOldest(entry);
      StaysOrdered();
    }

    method DeleteOldest(entry: RateLimitEntry)
      requires Linked() && Distinct(view.lru) && lru != [] && entry == lru[|lru| - 1].value
      requires view.lru[|lru| - 1] == entry.key && entry.key in store && store[entry.key] == entry
      modifies this`store, this`lru, this`view, this`elements, entry`element, entry.requests
      ensures Linked() && view == WithoutOldest(old(view)) && |lru| == |old(lru)| - 1
    {
      ListsDropLast(lru, view.lru, elements);
      assert QueueOk(entry.key);
      store := store - {entry.key};
      lru := lru[..|lru| - 1];
      entry.element := null;
      entry.requests.Clear();
      view, elements := WithoutOldest(view), elements - {entry.key};
      forall k ensures EntryOk(k) {
        assert old(EntryOk(k));
      }
      forall k ensures QueueOk(k) {
        assert old(QueueOk(k) && EntryOk(k));
        if k != entry.key {
          QueueKept(k);
        }
      }
    }
  }

  /** `RateLimitReservation`; `done` stands for its `sync.Once`. */
  class RateLimitReservation {
    const limiter: InMemoryRateLimiter
    const key: Key
    var done: bool

    constructor (limiter: InMemoryRateLimiter, key: Key)
      ensures this.limiter == limiter && this.key == key && !done
    {
      this.limiter := limiter;
      this.key := key;
      done := false;
    }

    /** Only the first call has an effect. */
    method Complete(success: bool, now: int)
      requires limiter.Valid() && limiter.clock <= now
      modifies this, limiter, limiter.entries, limiter.queues, limiter.nodes
      ensures done && limiter.Valid() && limiter.clock <= now
      ensures limiter.view ==
        if old(done) then old(limiter.view) else RateLimitModel.Complete(old(limiter.view), key, success, now)
      ensures fresh(limiter.entries - old(limiter.entries)) && fresh(limiter.queues - old(limiter.queues))
      ensures fresh(limiter.nodes - old(limiter.nodes))
    {
      if done {
        return;
      }
      done := true;
      var count := (if key in limiter.reservations then limiter.reservations[key] else 0) - 1;
      limiter.SetReservations(if count == 0 then limiter.reservations - {key} else limiter.reservations[key := count]);
      if success {
        limiter.TouchAndRecord(key, now);
      }
    }
  }
}
