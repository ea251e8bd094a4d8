/** Observation requests that run at the same time. Taking a lease and giving it back are
    atomic, under the mutex of the limiter; everything else of a request may interleave
    with every other request. A request that was admitted returns from wherever it is, and
    its deferred call gives the lease back; the call may be repeated.
 */
module ObservationRequests {
  import opened ObservationLimiter
  import opened Options
  import opened Text

  datatype Stage =
    | Arrived
    | TurnedAway
    | Submitting
    | Streaming
    | Waiting
    | Returning      // the deferred call is still to come
    | Left

  /** A request; `released` is the `sync.Once` of its release closure. */
  datatype Request = Request(plugin: string, user: int, token: int, stage: Stage, released: bool)

  datatype World = World(counters: Counters, requests: seq<Request>)

  datatype Event =
    | Arrive(plugin: string, user: int, token: int)
    | Acquire(id: nat)
    | Observe(id: nat, stream: bool)
    | Return(id: nat)
    | Release(id: nat)

  const Idle := World(NoCounts, [])

  predicate Active(stage: Stage) {
    stage.Submitting? || stage.Streaming? || stage.Waiting?
  }

  /** The request has a lease that was not given back. */
  predicate Holds(r: Request) {
    Active(r.stage) || r.stage.Returning?
  }

  predicate Admissible(w: World, limits: Limits, r: Request) {
    r.plugin != "" && r.user > 0 && r.token > 0 && RoomFor(w.counters, limits, r.plugin, r.user, r.token)
  }

  function Put(w: World, id: nat, r: Request): World
    requires id < |w.requests|
  {
    w.(requests := w.requests[id := r])
  }

  function Step(limits: Limits, w: World, e: Event): World {
    match e
    case Arrive(plugin, user, token) =>
      w.(requests := w.requests + [Request(TrimSpace(plugin), user, token, Arrived, false)])
    case Acquire(id) =>
      if id >= |w.requests| || !w.requests[id].stage.Arrived? then w
      else
        var r := w.requests[id];
        if Admissible(w, limits, r)
        then Put(w, id, r.(stage := Submitting)).(counters := Charged(w.counters, r.plugin, r.user, r.token))
        else Put(w, id, r.(stage := TurnedAway))
    case Observe(id, stream) =>
      if id >= |w.requests| || !w.requests[id].stage.Submitting? then w
      else Put(w, id, w.requests[id].(stage := if stream then Streaming else Waiting))
    case Return(id) =>
      if id >= |w.requests| || !Active(w.requests[id].stage) then w
      else Put(w, id, w.requests[id].(stage := Returning))
    case Release(id) =>
      if id >= |w.requests| || !(w.requests[id].stage.Returning? || w.requests[id].stage.Left?) then w
      else
        var r := w.requests[id];
        if r.released then w
        else Put(w, id, r.(stage := Left, released := true))
             .(counters := Discharged(w.counters, r.plugin, r.user, r.token))
  }

  function Run(limits: Limits, w: World, events: seq<Event>): World {
    if events == [] then w else Step(limits, Run(limits, w, events[..|events| - 1]), events[|events| - 1])
  }

  // ---------------------------------------------------------------- counting

  predicate Charges(r: Request, party: Party) {
    Holds(r) && Names(r.plugin, r.user, r.token, party)
  }

  /** The leases in flight, all and those of one party. */
  function Held(s: seq<Request>): nat {
    if s == [] then 0 else Held(s[..|s| - 1]) + One(Holds(s[|s| - 1]))
  }

  function HeldBy(s: seq<Request>, party: Party): nat {
    if s == [] then 0 else HeldBy(s[..|s| - 1], party) + One(Charges(s[|s| - 1], party))
  }

  lemma {:induction false} HeldUpdate(s: seq<Request>, i: nat, r: Request)
    requires i < |s|
    ensures Held(s[i := r]) == Held(s) - One(Holds(s[i])) + One(Holds(r))
  {
    var u := s[i := r];
    if i == |s| - 1 {
      assert u[..|u| - 1] == s[..|s| - 1];
    } else {
      HeldUpdate(s[..|s| - 1], i, r);
      assert u[..|u| - 1] == s[..|s| - 1][i := r];
    }
  }

  lemma {:induction false} HeldByUpdate(s: seq<Request>, i: nat, r: Request, party: Party)
    requires i < |s|
    ensures HeldBy(s[i := r], party) == HeldBy(s, party) - One(Charges(s[i], party)) + One(Charges(r, party))
  {
    var u := s[i := r];
    if i == |s| - 1 {
      assert u[..|u| - 1] == s[..|s| - 1];
    } else {
      HeldByUpdate(s[..|s| - 1], i, r, party);
      assert u[..|u| - 1] == s[..|s| - 1][i := r];
    }
  }

  /** A party's counter is the number of its leases in flight, within its limit, and not
      kept at zero. */
  predicate CounterOk(limits: Limits, w: World, party: Party) {
    && CounterOf(w.counters, party) == HeldBy(w.requests, party) <= AtLeastZero(LimitFor(limits, party))
    && (ListedIn(w.counters, party) ==> CounterOf(w.counters, party) != 0)
  }

  predicate OnceOk(r: Request) {
    r.released <==> r.stage.Left?
  }

  ghost predicate Invariant(limits: Limits, w: World) {
    && w.counters.global == Held(w.requests) <= AtLeastZero(limits.global)
    && (forall party :: CounterOk(limits, w, party))
    && (forall i :: 0 <= i < |w.requests| ==> OnceOk(w.requests[i]))
  }

  // --------------------------------------------------------------- every step

  lemma ArriveInvariant(limits: Limits, w: World, e: Event)
    requires Invariant(limits, w) && e.Arrive?
    ensures Invariant(limits, Step(limits, w, e))
  {
    var u := Step(limits, w, e);
    assert u.requests[..|w.requests|] == w.requests;
    forall party
      ensures CounterOk(limits, u, party)
    {
      assert CounterOk(limits, w, party);
    }
  }

  /** A change of stage that neither takes nor gives back a lease. */
  lemma SameHolder(limits: Limits, w: World, id: nat, r: Request)
    requires Invariant(limits, w) && id < |w.requests| && OnceOk(r)
    requires r == w.requests[id].(stage := r.stage) && Holds(r) == Holds(w.requests[id])
    ensures Invariant(limits, Put(w, id, r))
  {
    HeldUpdate(w.requests, id, r);
    forall party
      ensures CounterOk(limits, Put(w, id, r), party)
    {
      assert CounterOk(limits, w, party);
      HeldByUpdate(w.requests, id, r, party);
    }
  }

  lemma ChargeInvariant(limits: Limits, w: World, id: nat)
    requires Invariant(limits, w) && id < |w.requests| && w.requests[id].stage.Arrived?
    requires Admissible(w, limits, w.requests[id])
    ensures Invariant(limits, Step(limits, w, Acquire(id)))
  {
    var r := w.requests[id];
    var u := Step(limits, w, Acquire(id));
    HeldUpdate(w.requests, id, r.(stage := Submitting));
    forall party
      ensures CounterOk(limits, u, party)
    {
      assert CounterOk(limits, w, party);
      ChargedCounter(w.counters, r.plugin, r.user, r.token, party);
      if Names(r.plugin, r.user, r.token, party) {
        RoomForParty(limits, w.counters, r.plugin, r.user, r.token, party);
      }
      HeldByUpdate(w.requests, id, r.(stage := Submitting), party);
    }
  }

  lemma DischargeInvariant(limits: Limits, w: World, id: nat)
    requires Invariant(limits, w) && id < |w.requests| && w.requests[id].stage.Returning?
    ensures Invariant(limits, Step(limits, w, Release(id)))
  {
    var r := w.requests[id];
    var gone := r.(stage := Left, released := true);
    var u := Step(limits, w, Release(id));
    assert OnceOk(r);
    HeldUpdate(w.requests, id, gone);
    forall party
      ensures CounterOk(limits, u, party)
    {
      assert CounterOk(limits, w, party);
      DischargedCounter(w.counters, r.plugin, r.user, r.token, party);
      HeldByUpdate(w.requests, id, gone, party);
    }
  }

  lemma StepInvariant(limits: Limits, w: World, e: Event)
    requires Invariant(limits, w)
    ensures Invariant(limits, Step(limits, w, e))
  {
    match e
    case Arrive(_, _, _) => ArriveInvariant(limits, w, e);
    case Acquire(id) =>
      if id < |w.requests| && w.requests[id].stage.Arrived? {
        assert OnceOk(w.requests[id]);
        if Admissible(w, limits, w.requests[id]) {
          ChargeInvariant(limits, w, id);
        } else {
          SameHolder(limits, w, id, w.requests[id].(stage := TurnedAway));
        }
      }
    case Observe(id, stream) =>
      if id < |w.requests| && w.requests[id].stage.Submitting? {
        assert OnceOk(w.requests[id]);
        SameHolder(limits, w, id, w.requests[id].(stage := if stream then Streaming else Waiting));
      }
    case Return(id) =>
      if id < |w.requests| && Active(w.requests[id].stage) {
        assert OnceOk(w.requests[id]);
        SameHolder(limits, w, id, w.requests[id].(stage := Returning));
      }
    case Release(id) =>
      if id < |w.requests| && w.requests[id].stage.Returning? {
        DischargeInvariant(limits, w, id);
      } else if id < |w.requests| && w.requests[id].stage.Left? {
        assert OnceOk(w.requests[id]);
      }
  }

  lemma {:induction false} RunInvariant(limits: Limits, events: seq<Event>)
    ensures Invariant(limits, Run(limits, Idle, events))
  {
    if events != [] {
      RunInvariant(limits, events[..|events| - 1]);
      StepInvariant(limits, Run(limits, Idle, events[..|events| - 1]), events[|events| - 1]);
    }
  }

  // ---------------------------------------------------------------- every run

  /** In every state of every interleaving all four limits hold, every counter is the number
      of leases in flight, and no counter is kept at zero. */
  lemma CountersMatchLeases(limits: Limits, events: seq<Event>)
    ensures var w := Run(limits, Idle, events);
            && w.counters.global == Held(w.requests) <= AtLeastZero(limits.global)
            && (forall key :: HeldBy(w.requests, OfPlugin(key)) <= AtLeastZero(limits.perPlugin))
            && (forall id :: HeldBy(w.requests, OfUser(id)) <= AtLeastZero(limits.perUser))
            && (forall id :: HeldBy(w.requests, OfToken(id)) <= AtLeastZero(limits.perToken))
            && (forall party :: CounterOf(w.counters, party) == HeldBy(w.requests, party))
            && (forall party :: ListedIn(w.counters, party) <==> HeldBy(w.requests, party) > 0)
  {
    RunInvariant(limits, events);
    var w := Run(limits, Idle, events);
    forall party
      ensures CounterOf(w.counters, party) == HeldBy(w.requests, party) <= AtLeastZero(LimitFor(limits, party))
      ensures ListedIn(w.counters, party) <==> HeldBy(w.requests, party) > 0
    {
      assert CounterOk(limits, w, party);
    }
    forall key ensures HeldBy(w.requests, OfPlugin(key)) <= AtLeastZero(limits.perPlugin) {
      assert CounterOf(w.counters, OfPlugin(key)) == HeldBy(w.requests, OfPlugin(key));
    }
    forall id ensures HeldBy(w.requests, OfUser(id)) <= AtLeastZero(limits.perUser) {
      assert CounterOf(w.counters, OfUser(id)) == HeldBy(w.requests, OfUser(id));
    }
    forall id ensures HeldBy(w.requests, OfToken(id)) <= AtLeastZero(limits.perToken) {
      assert CounterOf(w.counters, OfToken(id)) == HeldBy(w.requests, OfToken(id));
    }
  }

  /** There is room for one more lease besides those in flight. */
  predicate Spare(limits: Limits, s: seq<Request>, r: Request) {
    && Held(s) < limits.global && HeldBy(s, OfPlugin(r.plugin)) < limits.perPlugin
    && HeldBy(s, OfUser(r.user)) < limits.perUser && HeldBy(s, OfToken(r.token)) < limits.perToken
  }

  /** In every interleaving a request that asks for a lease gets it exactly if it says who it
      is and the leases in flight leave room for it in all four scopes; it never gets one in
      another way. */
  lemma AdmittedExactly(limits: Limits, events: seq<Event>, e: Event, id: nat)
    requires id < |Run(limits, Idle, events).requests|
    ensures var w := Run(limits, Idle, events);
            var r := w.requests[id];
            && id < |Step(limits, w, e).requests|
            && (!Holds(r) && Holds(Step(limits, w, e).requests[id]) <==>
                  && e == Acquire(id) && r.stage.Arrived?
                  && r.plugin != "" && r.user > 0 && r.token > 0 && Spare(limits, w.requests, r))
            && (e == Acquire(id) && r.stage.Arrived? ==>
                  var after := Step(limits, w, e).requests[id]; after.stage.Submitting? || after.stage.TurnedAway?)
  {
    var w := Run(limits, Idle, events);
    var r := w.requests[id];
    RunInvariant(limits, events);
    assert CounterOk(limits, w, OfPlugin(r.plugin)) && CounterOk(limits, w, OfUser(r.user));
    assert CounterOk(limits, w, OfToken(r.token));
  }

  predicate HasLease(w: World, id: nat) {
    id < |w.requests| && Holds(w.requests[id])
  }

  /** How often a lease of the request was taken, and how often one was removed. */
  function Taken(limits: Limits, events: seq<Event>, id: nat): nat {
    if events == [] then 0
    else
      var before := events[..|events| - 1];
      Taken(limits, before, id)
      + One(!HasLease(Run(limits, Idle, before), id) && HasLease(Run(limits, Idle, events), id))
  }

  function Removed(limits: Limits, events: seq<Event>, id: nat): nat {
    if events == [] then 0
    else
      var before := events[..|events| - 1];
      Removed(limits, before, id)
      + One(Run(limits, Idle, before).counters != Run(limits, Idle, events).counters
            && events[|events| - 1] == Release(id))
  }

  predicate HasLeft(w: World, id: nat) {
    id < |w.requests| && w.requests[id].stage.Left?
  }

  lemma StepLease(limits: Limits, w: World, e: Event, id: nat)
    requires id < |w.requests| ==> OnceOk(w.requests[id])
    ensures var u := Step(limits, w, e);
            && (HasLeft(w, id) ==> HasLeft(u, id))
            && (HasLease(w, id) && !HasLease(u, id) <==> HasLeft(u, id) && !HasLeft(w, id))
            && (w.counters != u.counters && e == Release(id) <==> HasLeft(u, id) && !HasLeft(w, id))
  {
    var u := Step(limits, w, e);
    if e == Release(id) && id < |w.requests| && w.requests[id].stage.Returning? {
      assert u.counters.global == w.counters.global - 1;
    }
  }

  /** In every run a request takes at most one lease. The counters go down for it at most
      once, and exactly once when it was admitted and has left, however often and from
      wherever it calls release. */
  lemma {:induction false} RemovedOnce(limits: Limits, events: seq<Event>, id: nat)
    ensures var w := Run(limits, Idle, events);
            && Taken(limits, events, id) == One(HasLease(w, id) || HasLeft(w, id))
            && Removed(limits, events, id) == One(HasLeft(w, id))
  {
    if events != [] {
      var before := events[..|events| - 1];
      var w := Run(limits, Idle, before);
      RemovedOnce(limits, before, id);
      RunInvariant(limits, before);
      StepLease(limits, w, events[|events| - 1], id);
    }
  }

  /** When every request was turned away or has left, nothing is counted any more. */
  lemma DrainedIsIdle(limits: Limits, events: seq<Event>)
    requires var s := Run(limits, Idle, events).requests;
             forall i :: 0 <= i < |s| ==> !Holds(s[i])
    ensures Run(limits, Idle, events).counters == NoCounts
  {
    var w := Run(limits, Idle, events);
    CountersMatchLeases(limits, events);
    NobodyHolds(w.requests);
    forall k
      ensures k !in w.counters.plugin
    {
      assert !ListedIn(w.counters, OfPlugin(k));
    }
    forall k
      ensures k !in w.counters.user
    {
      assert !ListedIn(w.counters, OfUser(k));
    }
    forall k
      ensures k !in w.counters.token
    {
      assert !ListedIn(w.counters, OfToken(k));
    }
  }

  lemma {:induction false} NobodyHolds(s: seq<Request>)
    requires forall i :: 0 <= i < |s| ==> !Holds(s[i])
    ensures Held(s) == 0 && forall party :: HeldBy(s, party) == 0
  {
    if s != [] {
      NobodyHolds(s[..|s| - 1]);
    }
  }
}
