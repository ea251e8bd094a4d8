/** The memory counters under concurrency. Each storage is created and closed by goroutines
    whose atomic operations interleave freely: creation adds to the count and then to the
    bytes; of all calls of Close the one that flips the flag subtracts from the count and
    then from the bytes.
 */
module BodyAccounting {
  import opened Int64

  /** How far the life of a storage has come; each phase is one atomic operation later. */
  datatype Phase = Unborn | Counted | Open | Closing | Uncounted | Closed

  datatype Buffer = Buffer(size: nat, phase: Phase)

  datatype Counters = Counters(buffers: int, bytes: int)

  datatype World = World(storages: seq<Buffer>, counters: Counters)

  datatype Event =
    | Create(size: nat)     // A body of this size is about to be stored
    | Advance(id: nat)      // The next atomic operation of a creation or of the winning Close
    | CallClose(id: nat)    // A call of Close reaches its compare-and-swap

  function CountOf(b: Buffer): int {
    if b.phase.Counted? || b.phase.Open? || b.phase.Closing? then 1 else 0
  }

  function BytesOf(b: Buffer): int {
    if b.phase.Open? || b.phase.Closing? || b.phase.Uncounted? then b.size else 0
  }

  /** The counter updates of the operation that leads out of a phase. */
  function AdvanceBuffer(b: Buffer, c: Counters): (Buffer, Counters) {
    match b.phase
    case Unborn => (b.(phase := Counted), c.(buffers := Wrap(c.buffers + 1)))
    case Counted => (b.(phase := Open), c.(bytes := Wrap(c.bytes + b.size)))
    case Open => (b, c)
    case Closing => (b.(phase := Uncounted), c.(buffers := Wrap(c.buffers - 1)))
    case Uncounted => (b.(phase := Closed), c.(bytes := Wrap(c.bytes - b.size)))
    case Closed => (b, c)
  }

  /** Only the call that finds the storage open goes on to subtract. */
  function CloseBuffer(b: Buffer): Buffer {
    if b.phase.Open? then b.(phase := Closing) else b
  }

  function Step(w: World, e: Event): World {
    match e
    case Create(size) => World(w.storages + [Buffer(size, Unborn)], w.counters)
    case Advance(id) =>
      if id >= |w.storages| then w
      else
        var (b, c) := AdvanceBuffer(w.storages[id], w.counters);
        World(w.storages[id := b], c)
    case CallClose(id) =>
      if id >= |w.storages| then w else w.(storages := w.storages[id := CloseBuffer(w.storages[id])])
  }

  function Run(w: World, events: seq<Event>): World {
    if events == [] then w else Step(Run(w, events[..|events| - 1]), events[|events| - 1])
  }

  function TotalCount(s: seq<Buffer>): int {
    if s == [] then 0 else TotalCount(s[..|s| - 1]) + CountOf(s[|s| - 1])
  }

  function TotalBytes(s: seq<Buffer>): int {
    if s == [] then 0 else TotalBytes(s[..|s| - 1]) + BytesOf(s[|s| - 1])
  }

  lemma {:induction false} TotalsUpdate(s: seq<Buffer>, i: nat, b: Buffer)
    requires i < |s|
    ensures TotalCount(s[i := b]) == TotalCount(s) - CountOf(s[i]) + CountOf(b)
    ensures TotalBytes(s[i := b]) == TotalBytes(s) - BytesOf(s[i]) + BytesOf(b)
  {
    var u := s[i := b];
    if i == |s| - 1 {
      assert u[..|u| - 1] == s[..|s| - 1];
    } else {
      TotalsUpdate(s[..|s| - 1], i, b);
      assert u[..|u| - 1] == s[..|s| - 1][i := b];
    }
  }

  /** The counters are the totals of what is counted, in 64 bits, from where they started. */
  predicate Balanced(w: World, start: Counters) {
    && w.counters.buffers == Wrap(start.buffers + TotalCount(w.storages))
    && w.counters.bytes == Wrap(start.bytes + TotalBytes(w.storages))
  }

  /** A counter that was Wrap(total) and moves by d is Wrap(total + d). */
  predicate Moves(x: int, y: int, d: int) {
    (d == 0 && y == x) || y == Wrap(x + d)
  }

  lemma MovesTotal(total: int, x: int, y: int, d: int)
    requires x == Wrap(total) && Moves(x, y, d)
    ensures y == Wrap(total + d)
  {
    WrapAdd(total, d);
  }

  lemma AdvanceMoves(b: Buffer, c: Counters)
    ensures Moves(c.buffers, AdvanceBuffer(b, c).1.buffers, CountOf(AdvanceBuffer(b, c).0) - CountOf(b))
    ensures Moves(c.bytes, AdvanceBuffer(b, c).1.bytes, BytesOf(AdvanceBuffer(b, c).0) - BytesOf(b))
  {
  }

  lemma AdvanceBalanced(w: World, start: Counters, id: nat)
    requires Balanced(w, start) && id < |w.storages|
    ensures Balanced(Step(w, Advance(id)), start)
  {
    var s, b := w.storages, w.storages[id];
    var (b', c') := AdvanceBuffer(b, w.counters);
    AdvanceMoves(b, w.counters);
    TotalsUpdate(s, id, b');
    MovesTotal(start.buffers + TotalCount(s), w.counters.buffers, c'.buffers, CountOf(b') - CountOf(b));
    MovesTotal(start.bytes + TotalBytes(s), w.counters.bytes, c'.bytes, BytesOf(b') - BytesOf(b));
  }

  lemma StepBalanced(w: World, start: Counters, e: Event)
    requires Balanced(w, start)
    ensures Balanced(Step(w, e), start)
  {
    var s := w.storages;
    match e
    case Create(size) =>
      assert Step(w, e).storages[..|s|] == s;
    case Advance(id) =>
      if id < |s| {
        AdvanceBalanced(w, start, id);
      }
    case CallClose(id) =>
      if id < |s| {
        TotalsUpdate(s, id, CloseBuffer(s[id]));
      }
  }

  lemma {:induction false} RunBalanced(w: World, start: Counters, events: seq<Event>)
    requires Balanced(w, start)
    ensures Balanced(Run(w, events), start)
  {
    if events != [] {
      RunBalanced(w, start, events[..|events| - 1]);
      StepBalanced(Run(w, events[..|events| - 1]), start, events[|events| - 1]);
    }
  }

  // ------------------------------------------------------------- quiet states

  /** No operation is under way: every storage is open or closed for good. */
  predicate Quiet(s: seq<Buffer>) {
    forall i :: 0 <= i < |s| ==> s[i].phase.Open? || s[i].phase.Closed?
  }

  function OpenSizes(s: seq<Buffer>): seq<nat> {
    if s == [] then []
    else OpenSizes(s[..|s| - 1]) + if s[|s| - 1].phase.Open? then [s[|s| - 1].size] else []
  }

  function Sum(s: seq<nat>): nat {
    if s == [] then 0 else Sum(s[..|s| - 1]) + s[|s| - 1]
  }

  lemma {:induction false} QuietTotals(s: seq<Buffer>)
    requires Quiet(s)
    ensures TotalCount(s) == |OpenSizes(s)| && TotalBytes(s) == Sum(OpenSizes(s))
  {
    if s != [] {
      var front, b := s[..|s| - 1], s[|s| - 1];
      QuietTotals(front);
      assert b.phase.Open? || b.phase.Closed?;
      if b.phase.Open? {
        assert OpenSizes(s)[..|OpenSizes(s)| - 1] == OpenSizes(front);
      } else {
        assert OpenSizes(s) == OpenSizes(front);
      }
    }
  }

  lemma StartBalanced(start: Counters)
    requires Is64(start.buffers) && Is64(start.bytes)
    ensures Balanced(World([], start), start)
  {
  }

  /** The counters have grown by the number and the total size of these storages. */
  predicate GrownBy(c: Counters, start: Counters, sizes: seq<nat>) {
    c.buffers == Wrap(start.buffers + |sizes|) && c.bytes == Wrap(start.bytes + Sum(sizes))
  }

  lemma QuietCounters(w: World, start: Counters)
    requires Balanced(w, start) && Quiet(w.storages)
    ensures GrownBy(w.counters, start, OpenSizes(w.storages))
  {
    QuietTotals(w.storages);
  }

  /** After every interleaving of creations and calls of Close, repeated ones included, the
      counters have grown by the number and the total size of the open storages once nothing
      is under way.
   */
  lemma CountersMatchOpenStorages(start: Counters, events: seq<Event>)
    requires Is64(start.buffers) && Is64(start.bytes)
    requires Quiet(Run(World([], start), events).storages)
    ensures var w := Run(World([], start), events);
            GrownBy(w.counters, start, OpenSizes(w.storages))
  {
    var w := World([], start);
    StartBalanced(start);
    RunBalanced(w, start, events);
    QuietCounters(Run(w, events), start);
  }

  /** When every storage is closed the counters are back where they started. */
  lemma AllClosedRestores(start: Counters, events: seq<Event>)
    requires Is64(start.buffers) && Is64(start.bytes)
    requires var s := Run(World([], start), events).storages;
             forall i :: 0 <= i < |s| ==> s[i].phase.Closed?
    ensures Run(World([], start), events).counters == start
  {
    var w := Run(World([], start), events);
    CountersMatchOpenStorages(start, events);
    NoneOpen(w.storages);
    WrapIs64(start.buffers);
    WrapIs64(start.bytes);
  }

  lemma {:induction false} NoneOpen(s: seq<Buffer>)
    requires forall i :: 0 <= i < |s| ==> s[i].phase.Closed?
    ensures OpenSizes(s) == []
  {
    if s != [] {
      NoneOpen(s[..|s| - 1]);
    }
  }

  predicate Settled(b: Buffer) {
    b.phase.Closing? || b.phase.Uncounted? || b.phase.Closed?
  }

  /** However often Close is called, the storage is given back once: after the first
      successful call, further calls change nothing. */
  lemma CloseIsIdempotent(w: World, id: nat)
    ensures Step(Step(w, CallClose(id)), CallClose(id)) == Step(w, CallClose(id))
    ensures id < |w.storages| && Settled(w.storages[id]) ==> Step(w, CallClose(id)) == w
  {
    if id < |w.storages| {
      var c := Step(w, CallClose(id));
      assert c.storages[id := CloseBuffer(c.storages[id])] == c.storages;
    }
  }
}
