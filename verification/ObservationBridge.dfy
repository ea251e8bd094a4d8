/** Observing a durable task on behalf of a client: the streaming loop, the waiting loop,
    and the admission slot around them. What the database, the plugin hook, the client and
    the timers do is the environment, given tick by tick; the facts hold for every
    environment.

    Timers are ideal: a wait that would end after the observation deadline is ended by the
    deadline.
 */
module ObservationBridge {
  import opened ObservationTiming
  import opened Options
  import opened ResponsesClient
  import opened ResponsesMachine
  import ObservationLimiter
  import Text

  /** What reaches the client: an event or a heartbeat comment. */
  datatype Wire = Sent(event: Event) | Ping

  /** The state a plugin carries from tick to tick; omitted is not the same as null. */
  datatype ProtocolState = Omitted | Carried(value: seq<char>)

  datatype Load =
    | LoadOverloaded                // its own deadline passed, everything else is alive
    | LoadFailed
    | Loaded(status: TaskStatus)

  datatype Hook =
    | Unprepared                    // view, context or previous state could not be built
    | HookOverloaded                // refused admission
    | HookFailed
    | Undecodable
    | Rendered(semantics: seq<Semantic>, done: bool, state: ProtocolState)

  /** How a wait ends when the deadline does not cut it short. */
  datatype WaitEnd = TimerFires | ContextEnds | PingFails

  /** The environment of one tick. The flags say what `Err()` of the observation and the
      client's context report when the loop looks. */
  datatype Tick = Tick(
    load: Load,
    hook: Hook,
    deadline: bool,
    clientGone: bool,
    elapsed: nat,                   // time spent loading and rendering
    slow: bool,                     // the hook took longer than the interval
    accepted: Option<nat>,          // events the client takes before a write fails, if one does
    pings: nat,
    waitEnd: WaitEnd,
    deadlineAfterWait: bool,
    lastWritten: bool)              // the write of a concluding event succeeds

  datatype Ending = Refused | ClientLost | Concluded

  /** What the loop did with hooks: called with a state, or applied a result. */
  datatype Trace = Called(previous: ProtocolState) | Applied(state: ProtocolState)

  function LastApplied(log: seq<Trace>): ProtocolState {
    if log == [] then Omitted
    else if log[|log| - 1].Applied? then log[|log| - 1].state
    else LastApplied(log[..|log| - 1])
  }

  /** Every hook was called with the state of the last applied tick before it. */
  ghost predicate HookStatesOk(log: seq<Trace>) {
    forall i :: 0 <= i < |log| && log[i].Called? ==> log[i].previous == LastApplied(log[..i])
  }

  // ------------------------------------------------------------- wire traces

  /** The events among the first `n` that reached the client, and how many they are. */
  function SentFirst(wire: seq<Wire>, n: nat): seq<Event>
    requires n <= |wire|
  {
    if n == 0 then []
    else if wire[n - 1].Sent? then SentFirst(wire, n - 1) + [wire[n - 1].event]
    else SentFirst(wire, n - 1)
  }

  function SentEvents(wire: seq<Wire>): seq<Event> {
    SentFirst(wire, |wire|)
  }

  function SentCount(wire: seq<Wire>, n: nat): nat
    requires n <= |wire|
  {
    if n == 0 then 0 else SentCount(wire, n - 1) + (if wire[n - 1].Sent? then 1 else 0)
  }

  /** What the client has made of the first `n`. */
  function SeenFirst(wire: seq<Wire>, n: nat): Client
    requires n <= |wire|
  {
    if n == 0 then Between([])
    else if wire[n - 1].Sent? then Receive(SeenFirst(wire, n - 1), wire[n - 1].event)
    else SeenFirst(wire, n - 1)
  }

  function Seen(wire: seq<Wire>): Client {
    SeenFirst(wire, |wire|)
  }

  /** Nothing on the wire ends the stream. */
  ghost predicate Open(wire: seq<Wire>) {
    forall i :: 0 <= i < |wire| && wire[i].Sent? ==> !IsTerminal(wire[i].event.kind)
  }

  predicate Closed(wire: seq<Wire>) {
    wire != [] && wire[|wire| - 1].Sent? && IsTerminal(wire[|wire| - 1].event.kind)
  }

  /** The protocol: created first and once, nothing after a terminal event, and events
      numbered from zero without a gap. */
  ghost predicate WellFormed(wire: seq<Wire>) {
    && (wire != [] ==> wire[0] == Sent(Event(Created, 0, -1, [])))
    && (forall i :: 0 < i < |wire| && wire[i].Sent? ==> !wire[i].event.kind.Created?)
    && (forall i :: 0 <= i < |wire| - 1 && wire[i].Sent? ==> !IsTerminal(wire[i].event.kind))
    && (forall i :: 0 <= i < |wire| && wire[i].Sent? ==> wire[i].event.sequence == SentCount(wire, i))
  }

  lemma {:induction false} SameStart(a: seq<Wire>, b: seq<Wire>, n: nat)
    requires n <= |a| && n <= |b| && forall i :: 0 <= i < n ==> a[i] == b[i]
    ensures SentCount(a, n) == SentCount(b, n) && SeenFirst(a, n) == SeenFirst(b, n)
  {
    if n > 0 {
      SameStart(a, b, n - 1);
    }
  }

  lemma {:induction false} SendOne(wire: seq<Wire>, w: Wire)
    requires WellFormed(wire) && Open(wire) && wire != []
    requires w.Sent? ==> !w.event.kind.Created? && w.event.sequence == SentCount(wire, |wire|)
    ensures WellFormed(wire + [w])
    ensures SentCount(wire + [w], |wire| + 1) == SentCount(wire, |wire|) + (if w.Sent? then 1 else 0)
    ensures Open(wire + [w]) <==> !Closed(wire + [w])
    ensures Seen(wire + [w]) == if w.Sent? then Receive(Seen(wire), w.event) else Seen(wire)
  {
    var after := wire + [w];
    SameStart(after, wire, |wire|);
    forall i | 0 <= i < |after| && after[i].Sent? ensures after[i].event.sequence == SentCount(after, i) {
      SameStart(after, wire, i);
    }
  }

  /** The client reads exactly the events that were sent. */
  lemma {:induction false} SeenIsRead(wire: seq<Wire>, n: nat)
    requires n <= |wire|
    ensures SeenFirst(wire, n) == Read(Between([]), SentFirst(wire, n)) && |SentFirst(wire, n)| == SentCount(wire, n)
  {
    if n > 0 {
      SeenIsRead(wire, n - 1);
      if wire[n - 1].Sent? {
        ReadSnoc(Between([]), SentFirst(wire, n - 1), wire[n - 1].event);
      }
    }
  }

  // ---------------------------------------------------------------- streaming

  /** Between ticks: the stream has begun, is not over, and the machine will number the
      next event after the last one sent. */
  ghost predicate Streaming(machine: PluginResponsesMachine, wire: seq<Wire>)
    reads machine
  {
    && machine.Valid() && machine.started && !machine.terminal
    && WellFormed(wire) && Open(wire) && wire != [] && machine.nextSequence == SentCount(wire, |wire|)
    && Seen(wire) == Between(machine.outputs)
  }

  /** A stream that is over: with a terminal event last, or because the client is lost. */
  ghost predicate Over(wire: seq<Wire>, ending: Ending) {
    && WellFormed(wire) && wire != [] && !ending.Refused?
    && (ending.Concluded? ==> Closed(wire)) && (ending.ClientLost? ==> Open(wire))
  }

  /** A client that was not lost has assembled all outputs, and one that was lost some of
      the first. */
  ghost predicate Delivered(wire: seq<Wire>, outputs: seq<Text.Bytes>, ending: Ending) {
    && (ending.Concluded? ==> Seen(wire) == Between(outputs))
    && (ending.ClientLost? ==> !Seen(wire).Confused? && Seen(wire).items <= outputs)
  }

  datatype Next = Continue(slow: bool) | Stop(ending: Ending)

  /** The client disconnects or a write to it fails during the tick. */
  predicate LosesClient(t: Tick) {
    t.clientGone || t.accepted.Some? || !t.lastWritten
    || t.waitEnd.PingFails? || (t.waitEnd.ContextEnds? && !t.deadlineAfterWait)
  }

  /** What the tick rendered fits into the limits after these outputs. */
  predicate FitsLimits(limits: ProtocolLimits, outputs: seq<Text.Bytes>, t: Tick) {
    t.hook.Rendered? && FitsAfter(limits, outputs, t.hook.semantics)
  }

  /** The outputs after a tick: what it rendered is added, up to an error, if it fits and the
      task has not failed. */
  function PutOut(outputs: seq<Text.Bytes>, t: Tick, fits: bool): seq<Text.Bytes> {
    if fits && t.load.Loaded? && t.hook.Rendered? && !t.load.status.Failure?
    then outputs + TextsBeforeError(t.hook.semantics)
    else outputs
  }

  /** The task or the hook had no capacity, or the hook took long. */
  predicate IsSlow(t: Tick) {
    t.load.LoadOverloaded? || t.hook.HookOverloaded? || t.slow
  }

  predicate CallsHook(t: Tick) {
    t.load.Loaded? && !t.hook.Unprepared?
  }

  /** The trace after a tick: its hook is called with the last state applied, and what it
      renders is applied or not. */
  function Logged(log: seq<Trace>, t: Tick, applied: bool): seq<Trace> {
    if !CallsHook(t) then log
    else if applied && t.hook.Rendered? then log + [Called(LastApplied(log))] + [Applied(t.hook.state)]
    else log + [Called(LastApplied(log))]
  }

  /** The wait after a tick: one interval, or two after a slow tick, and at most the jitter. */
  predicate WaitsFor(d: Durations, slow: bool, elapsed: nat, now: int, wakeUp: int) {
    var least := if slow then 2 * d.tickInterval else d.tickInterval;
    Sane(d) ==> least <= wakeUp - now - elapsed <= least + d.tickJitter
  }

  /** When a tick begins, what was put out before it, and what was done with hooks. */
  datatype Moment = Moment(time: int, outputs: seq<Text.Bytes>, log: seq<Trace>)

  /** From one tick to the next: what was rendered fits and is put out, the hook is called
      with the last state applied, and the wait has its length. */
  predicate Passes(limits: ProtocolLimits, d: Durations, t: Tick, m: Moment, next: Moment) {
    && GoesOn(t) && t.waitEnd.TimerFires?
    && (t.load.Loaded? && t.hook.Rendered? ==> FitsLimits(limits, m.outputs, t))
    && next.outputs == PutOut(m.outputs, t, FitsLimits(limits, m.outputs, t))
    && next.log == Logged(m.log, t, true)
    && WaitsFor(d, IsSlow(t), t.elapsed, m.time, next.time)
  }

  /** The moments of a stream: it begins with nothing, and every tick but the last passes. */
  ghost predicate History(limits: ProtocolLimits, d: Durations, env: nat -> Tick, history: seq<Moment>) {
    && history != [] && history[0] == Moment(0, [], [])
    && forall n :: 0 <= n < |history| - 1 ==> Passes(limits, d, env(n), history[n], history[n + 1])
  }

  lemma {:induction false} HistoryMore(
    limits: ProtocolLimits, d: Durations, env: nat -> Tick, history: seq<Moment>, next: Moment)
    requires History(limits, d, env, history)
    requires Passes(limits, d, env(|history| - 1), history[|history| - 1], next)
    ensures History(limits, d, env, history + [next])
  {
  }

  /** What allows a tick to end the stream with an event of this kind before its wait. */
  predicate Justifies(t: Tick, fits: bool, kind: Kind) {
    match kind
    case Completed => t.load == Loaded(Success) && t.hook.Rendered? && fits && !HasError(t.hook.semantics)
    case Incomplete =>
      if t.load.Loaded? && t.hook.Rendered?
      then t.hook.done && fits && !t.load.status.Success? && !t.load.status.Failure? && !HasError(t.hook.semantics)
      else t.deadline && (t.load.LoadFailed? || t.hook.HookOverloaded? || t.hook.HookFailed?)
    case Failed =>
      || (t.load.LoadFailed? && !t.deadline && !t.clientGone)
      || (t.load.Loaded? && (t.hook.Unprepared? || t.hook.Undecodable?))
      || (t.load.Loaded? && t.hook.Rendered? && (t.load.status.Failure? || HasError(t.hook.semantics) || !fits))
      || (t.load.Loaded? && t.hook.HookFailed? && !t.deadline && !t.clientGone)
    case _ => false
  }

  /** What lets the observation go on: nothing was learnt, or the tick did not end it. */
  predicate GoesOn(t: Tick) {
    || t.load.LoadOverloaded?
    || (t.load.Loaded? && t.hook.HookOverloaded? && !t.deadline && !t.clientGone)
    || (t.load.Loaded? && t.hook.Rendered? && !t.hook.done && !HasError(t.hook.semantics)
        && !t.load.status.Success? && !t.load.status.Failure?)
  }

  /** How far a tick may take the stream. */
  ghost predicate Follows(t: Tick, fits: bool, after: seq<Wire>, next: Next) {
    && (next.Continue? ==> GoesOn(t) && next.slow == IsSlow(t) && (t.load.Loaded? && t.hook.Rendered? ==> fits))
    && (next.Stop? && next.ending.ClientLost? ==> LosesClient(t))
    && (next.Stop? && next.ending.Concluded? && Closed(after) ==> Justifies(t, fits, after[|after| - 1].event.kind))
  }

  /** writeTaskPluginProtocolFailure and writeTaskPluginProtocolTimeout: while streaming the
      machine never refuses the concluding event. */
  method Conclude(machine: PluginResponsesMachine, wire: seq<Wire>, kind: Kind, written: bool)
    returns (after: seq<Wire>, ending: Ending)
    requires Streaming(machine, wire) && IsTerminal(kind)
    modifies machine
    ensures Over(after, ending) && (ending.Concluded? <==> written)
    ensures machine.outputs == old(machine.outputs) && Delivered(after, machine.outputs, ending)
    ensures written ==> after == wire + [Sent(Event(kind, old(machine.nextSequence), -1, machine.outputs))]
  {
    var r := machine.Conclude(kind);
    after, ending := wire, ClientLost;
    if written {
      SendOne(wire, Sent(r.events[0]));
      after, ending := wire + [Sent(r.events[0])], Concluded;
    }
  }

  /** The first `i` events are written, and the client has read them. */
  ghost predicate Written(
    wire: seq<Wire>, events: seq<Event>, i: nat, before: seq<Text.Bytes>, after: seq<Wire>)
    requires i <= |events|
  {
    && WellFormed(after) && after != [] && SentCount(after, |after|) == SentCount(wire, |wire|) + i
    && Seen(after) == ReadFirst(Between(before), events, i)
    && (i > 0 ==> after[|after| - 1] == Sent(events[i - 1]))
    && (if i == |events| && EndsTerminal(events) then Closed(after) else Open(after))
  }

  lemma {:induction false} WriteOne(
    wire: seq<Wire>, events: seq<Event>, i: nat, before: seq<Text.Bytes>, after: seq<Wire>)
    requires Numbered(events, SentCount(wire, |wire|)) && NoneCreated(events) && TerminalOnlyLast(events)
    requires i < |events| && Written(wire, events, i, before, after)
    ensures Written(wire, events, i + 1, before, after + [Sent(events[i])])
  {
    SendOne(after, Sent(events[i]));
  }

  /** Writes the events of an accepted tick until one fails. */
  method Write(
    wire: seq<Wire>, events: seq<Event>, t: Tick, ghost before: seq<Text.Bytes>, ghost outputs: seq<Text.Bytes>)
    returns (after: seq<Wire>, next: Next)
    requires WellFormed(wire) && Open(wire) && wire != []
    requires Numbered(events, SentCount(wire, |wire|)) && NoneCreated(events) && TerminalOnlyLast(events)
    requires Seen(wire) == Between(before) && Read(Between(before), events) == Between(outputs)
    ensures next.Continue? ==>
      && WellFormed(after) && Open(after) && after != [] && Seen(after) == Between(outputs)
      && SentCount(after, |after|) == SentCount(wire, |wire|) + |events|
      && !EndsTerminal(events) && next.slow == t.slow
    ensures next.Stop? ==> Over(after, next.ending) && (next.ending.ClientLost? ==> LosesClient(t))
    ensures next.Stop? ==> Delivered(after, outputs, next.ending)
    ensures next.Stop? && next.ending.Concluded? ==>
      EndsTerminal(events) && after[|after| - 1] == Sent(events[|events| - 1])
  {
    after := wire;
    for i := 0 to |events|
      invariant Written(wire, events, i, before, after)
    {
      if t.accepted == Some(i) {
        ReadPart(Between(before), events, i);
        return after, Stop(ClientLost);
      }
      WriteOne(wire, events, i, before, after);
      after := after + [Sent(events[i])];
    }
    next := if EndsTerminal(events) then Stop(Concluded) else Continue(t.slow);
  }

  /** What was written of an accepted tick tells how far it takes the stream. */
  lemma {:induction false} WrittenFollows(t: Tick, fits: bool, events: seq<Event>, after: seq<Wire>, next: Next)
    requires t.load.Loaded? && t.hook.Rendered? && (fits || t.load.status.Failure?)
    requires EndsTerminal(events) <==> Verdict(t.hook.semantics, t.hook.done, t.load.status).Some?
    requires EndsTerminal(events) ==>
      events[|events| - 1].kind == Verdict(t.hook.semantics, t.hook.done, t.load.status).value
    requires next.Continue? ==> !EndsTerminal(events) && next.slow == t.slow
    requires next.Stop? && next.ending.ClientLost? ==> LosesClient(t)
    requires next.Stop? && next.ending.Concluded? ==>
      EndsTerminal(events) && after != [] && after[|after| - 1] == Sent(events[|events| - 1])
    ensures Follows(t, fits, after, next)
  {
  }

  lemma {:induction false} RejectedFollows(t: Tick, after: seq<Wire>, ending: Ending)
    requires t.load.Loaded? && t.hook.Rendered? && (ending.Concluded? <==> t.lastWritten)
    requires Closed(after) ==> after[|after| - 1].event.kind == Failed
    ensures Follows(t, false, after, Stop(ending))
  {
  }

  /** The result of a hook: apply it and write its events. */
  method Apply(machine: PluginResponsesMachine, wire: seq<Wire>, t: Tick)
    returns (after: seq<Wire>, next: Next)
    requires Streaming(machine, wire) && t.load.Loaded? && t.hook.Rendered?
    modifies machine
    ensures next.Continue? ==> Streaming(machine, after)
    ensures next.Stop? ==> Over(after, next.ending) && Delivered(after, machine.outputs, next.ending)
    ensures machine.outputs == PutOut(old(machine.outputs), t, FitsLimits(machine.limits, old(machine.outputs), t))
    ensures Follows(t, FitsLimits(machine.limits, old(machine.outputs), t), after, next)
  {
    ghost var fits := FitsLimits(machine.limits, machine.outputs, t);
    var r := machine.ApplyTick(t.hook.semantics, t.hook.done, t.load.status);
    if r.Rejected? {
      var ending;
      after, ending := Conclude(machine, wire, Failed, t.lastWritten);
      next := Stop(ending);
      RejectedFollows(t, after, ending);
    } else {
      after, next := Write(wire, r.events, t, old(machine.outputs), machine.outputs);
      WrittenFollows(t, fits, r.events, after, next);
    }
  }

  /** One turn of the streaming loop up to the wait. */
  method Observe(machine: PluginResponsesMachine, wire: seq<Wire>, log: seq<Trace>, previous: ProtocolState, t: Tick)
    returns (after: seq<Wire>, log': seq<Trace>, previous': ProtocolState, next: Next)
    requires Streaming(machine, wire) && HookStatesOk(log) && previous == LastApplied(log)
    modifies machine
    ensures HookStatesOk(log') && previous' == LastApplied(log')
    ensures log' == Logged(log, t, next.Continue?)
    ensures next.Continue? ==> Streaming(machine, after)
    ensures next.Stop? ==> Over(after, next.ending) && Delivered(after, machine.outputs, next.ending)
    ensures machine.outputs == PutOut(old(machine.outputs), t, FitsLimits(machine.limits, old(machine.outputs), t))
    ensures Follows(t, FitsLimits(machine.limits, old(machine.outputs), t), after, next)
  {
    after, log', previous' := wire, log, previous;
    if t.load.LoadOverloaded? {
      return after, log', previous', Continue(true);
    }
    var ending := ClientLost;
    if t.load.LoadFailed? {
      if t.deadline {
        after, ending := Conclude(machine, wire, Incomplete, t.lastWritten);
      } else if !t.clientGone {
        after, ending := Conclude(machine, wire, Failed, t.lastWritten);
      }
      return after, log', previous', Stop(ending);
    }
    if t.hook.Unprepared? {
      after, ending := Conclude(machine, wire, Failed, t.lastWritten);
      return after, log', previous', Stop(ending);
    }
    log' := log + [Called(previous)];
    LogCall(log, previous);
    if t.hook.HookOverloaded? || t.hook.HookFailed? {
      if t.deadline {
        after, ending := Conclude(machine, wire, Incomplete, t.lastWritten);
        next := Stop(ending);
      } else if t.clientGone {
        next := Stop(ClientLost);
      } else if t.hook.HookOverloaded? {
        next := Continue(true);
      } else {
        after, ending := Conclude(machine, wire, Failed, t.lastWritten);
        next := Stop(ending);
      }
      return;
    }
    if t.hook.Undecodable? {
      after, ending := Conclude(machine, wire, Failed, t.lastWritten);
      return after, log', previous', Stop(ending);
    }
    after, next := Apply(machine, wire, t);
    if next.Continue? {
      LogApplied(log', t.hook.state);
      log', previous' := log' + [Applied(t.hook.state)], t.hook.state;
    }
  }

  lemma {:induction false} LogCall(log: seq<Trace>, previous: ProtocolState)
    requires HookStatesOk(log) && previous == LastApplied(log)
    ensures HookStatesOk(log + [Called(previous)]) && LastApplied(log + [Called(previous)]) == previous
  {
    var log1 := log + [Called(previous)];
    assert log1[..|log|] == log;
    forall i | 0 <= i < |log1| && log1[i].Called? ensures log1[i].previous == LastApplied(log1[..i]) {
      assert log1[..i] == if i < |log| then log[..i] else log;
    }
  }

  lemma {:induction false} LogApplied(log: seq<Trace>, state: ProtocolState)
    requires HookStatesOk(log)
    ensures HookStatesOk(log + [Applied(state)]) && LastApplied(log + [Applied(state)]) == state
  {
    var log1 := log + [Applied(state)];
    forall i | 0 <= i < |log1| && log1[i].Called? ensures log1[i].previous == LastApplied(log1[..i]) {
      assert log1[..i] == log[..i];
    }
  }

  /** The tick comes: the timer fires, and not after the deadline. */
  predicate TickComes(t: Tick, wakeUp: int, deadline: int) {
    t.waitEnd.TimerFires? && wakeUp <= deadline
  }

  /** How the last tick ended the stream: in the observation, or in the wait after it. */
  ghost predicate EndsStream(t: Tick, fits: bool, wire: seq<Wire>, ending: Ending) {
    && Over(wire, ending)
    && (ending.ClientLost? ==> LosesClient(t))
    && (ending.Concluded? ==>
          var kind := wire[|wire| - 1].event.kind;
          Justifies(t, fits, kind) || (kind.Incomplete? && GoesOn(t) && (t.deadlineAfterWait || t.waitEnd.TimerFires?)))
  }

  /** waitForTaskPluginProtocolTick and what follows when it returns false. */
  method AwaitTick(
    machine: PluginResponsesMachine, wire: seq<Wire>, t: Tick, ghost fits: bool, wakeUp: int, deadline: int)
    returns (after: seq<Wire>, comes: bool, ending: Ending)
    requires Streaming(machine, wire) && GoesOn(t)
    modifies machine
    ensures comes <==> TickComes(t, wakeUp, deadline)
    ensures machine.outputs == old(machine.outputs) && (comes ==> Streaming(machine, after))
    ensures !comes ==> Delivered(after, machine.outputs, ending)
    ensures !comes ==> EndsStream(t, fits, after, ending)
  {
    after, ending := wire, ClientLost;
    for i := 0 to t.pings
      invariant Streaming(machine, after) && machine.outputs == old(machine.outputs)
    {
      SendOne(after, Ping);
      after := after + [Ping];
    }
    comes := TickComes(t, wakeUp, deadline);
    if !comes && (t.deadlineAfterWait || t.waitEnd.TimerFires?) {
      after, ending := Conclude(machine, after, Incomplete, t.lastWritten);
    }
  }

  /** One turn of the streaming loop: the observation and the wait. */
  method Turn(
    machine: PluginResponsesMachine, wire: seq<Wire>, log: seq<Trace>, previous: ProtocolState, t: Tick,
    ghost fits: bool, d: Durations, hash: nat, now: int, deadline: int)
    returns (after: seq<Wire>, log': seq<Trace>, previous': ProtocolState, again: bool, wakeUp: int, ending: Ending)
    requires Streaming(machine, wire) && HookStatesOk(log) && previous == LastApplied(log)
    requires fits == FitsLimits(machine.limits, machine.outputs, t) && (Sane(d) || t.elapsed > 0)
    modifies machine
    ensures HookStatesOk(log') && previous' == LastApplied(log')
    ensures machine.outputs == PutOut(old(machine.outputs), t, fits)
    ensures again ==>
      && Streaming(machine, after) && now + Pace(d) <= wakeUp <= deadline
      && Passes(machine.limits, d, t, Moment(now, old(machine.outputs), log), Moment(wakeUp, machine.outputs, log'))
    ensures !again ==> EndsStream(t, fits, after, ending) && Delivered(after, machine.outputs, ending)
    ensures !again ==> log' == Logged(log, t, true) || log' == Logged(log, t, false)
  {
    var next;
    after, log', previous', next := Observe(machine, wire, log, previous, t);
    if next.Stop? {
      again, wakeUp, ending := false, now, next.ending;
      return;
    }
    wakeUp := now + t.elapsed + Delay(hash, d, next.slow);
    AtPace(hash, d, next.slow, t.elapsed, now);
    after, again, ending := AwaitTick(machine, after, t, fits, wakeUp, deadline);
  }

  /** The last tick of a stream: the event it ends with is the one that this tick calls for,
      the outputs are those before it and its own, and so is the trace. */
  ghost predicate Ends(
    limits: ProtocolLimits, t: Tick, m: Moment, wire: seq<Wire>, outputs: seq<Text.Bytes>, log: seq<Trace>,
    ending: Ending)
  {
    var fits := FitsLimits(limits, m.outputs, t);
    && EndsStream(t, fits, wire, ending) && Delivered(wire, outputs, ending)
    && outputs == PutOut(m.outputs, t, fits)
    && (log == Logged(m.log, t, true) || log == Logged(m.log, t, false))
  }

  /** The streaming loop. Whatever the environment does, the client sees a well-formed
      stream; it ends with a terminal event unless the client is lost first; hooks see the
      state of the last applied tick; the event it ends with is the one that the last tick
      calls for, after the outputs of the ticks before it; and a client that is not lost has
      assembled exactly the outputs of all ticks, each announced by its six events. In a
      sane configuration there are at most as many ticks as intervals fit into the
      observation timeout, plus one. In any other a wait can be too short (`DelayBounds` says
      that this is exact), and the loop ends because time passes. */
  method Stream(machine: PluginResponsesMachine, d: Durations, env: nat -> Tick, hash: nat -> nat, createdWritten: bool)
    returns (wire: seq<Wire>, log: seq<Trace>, ticks: nat, ending: Ending, ghost history: seq<Moment>)
    requires machine.Valid() && Positive(d)
    requires Sane(d) || forall n: nat :: env(n).elapsed > 0
    modifies machine
    ensures WellFormed(wire) && HookStatesOk(log)
    ensures ending.Refused? <==> old(machine.started) || old(machine.terminal)
    ensures ending.Refused? ==> wire == []
    ensures ending.Concluded? ==> Closed(wire)
    ensures ending.ClientLost? ==> Open(wire)
    ensures ticks == 0 <==> ending.Refused? || !createdWritten
    ensures ticks == 0 <==> wire == []
    ensures ticks > 0 ==>
      && |history| == ticks && History(machine.limits, d, env, history)
      && history[ticks - 1].time <= d.observationTimeout
      && Ends(machine.limits, env(ticks - 1), history[ticks - 1], wire, machine.outputs, log, ending)
    ensures ending.Concluded? ==>
      forall i :: 0 <= i < |machine.outputs| ==> Announced(SentEvents(wire), i, machine.outputs[i])
    ensures Sane(d) && ticks > 0 ==> (ticks - 1) * d.tickInterval <= d.observationTimeout
    ensures !Sane(d) && ticks > 0 ==> ticks - 1 <= d.observationTimeout
  {
    wire, log, ticks, history := [], [], 0, [];
    var created := machine.CreatedEvent();
    if created.Rejected? {
      return wire, log, ticks, Refused, history;
    }
    if !createdWritten {
      return wire, log, ticks, ClientLost, history;
    }
    wire := [Sent(created.events[0])];
    Begun(wire, created.events[0]);
    wire, log, ticks, ending, history := StreamTicks(machine, wire, d, env, hash);
    if ending.Concluded? {
      SeenIsRead(wire, |wire|);
      ItemsAreAnnounced(SentEvents(wire));
    }
  }

  lemma {:induction false} Begun(wire: seq<Wire>, e: Event)
    requires wire == [Sent(e)] && e == Event(Created, 0, -1, [])
    ensures SentCount(wire, |wire|) == 1 && WellFormed(wire) && Open(wire) && Seen(wire) == Between([])
  {
    assert SentCount(wire, 0) == 0 && SeenFirst(wire, 0) == Between([]);
  }

  /** The loop of a stream that has begun. */
  method StreamTicks(
    machine: PluginResponsesMachine, begun: seq<Wire>, d: Durations, env: nat -> Tick, hash: nat -> nat)
    returns (wire: seq<Wire>, log: seq<Trace>, ticks: nat, ending: Ending, ghost history: seq<Moment>)
    requires Streaming(machine, begun) && Positive(d) && machine.outputs == []
    requires Sane(d) || forall n: nat :: env(n).elapsed > 0
    modifies machine
    ensures HookStatesOk(log) && ticks > 0 && (ticks - 1) * Pace(d) <= d.observationTimeout
    ensures |history| == ticks && History(machine.limits, d, env, history)
    ensures history[ticks - 1].time <= d.observationTimeout
    ensures Ends(machine.limits, env(ticks - 1), history[ticks - 1], wire, machine.outputs, log, ending)
  {
    wire, log, ticks, history := begun, [], 0, [Moment(0, [], [])];
    var now, deadline := 0, d.observationTimeout;
    var previous := Omitted;
    while true
      invariant Streaming(machine, wire) && HookStatesOk(log) && previous == LastApplied(log)
      invariant |history| == ticks + 1 && History(machine.limits, d, env, history)
      invariant history[ticks] == Moment(now, machine.outputs, log)
      invariant ticks * Pace(d) <= now <= deadline
      decreases deadline - now
    {
      ghost var fits := FitsLimits(machine.limits, machine.outputs, env(ticks));
      var again, wakeUp;
      wire, log, previous, again, wakeUp, ending :=
        Turn(machine, wire, log, previous, env(ticks), fits, d, hash(ticks + 1), now, deadline);
      ticks := ticks + 1;
      if !again {
        return;
      }
      HistoryMore(machine.limits, d, env, history, Moment(wakeUp, machine.outputs, log));
      history := history + [Moment(wakeUp, machine.outputs, log)];
      NextTick(ticks, Pace(d), now, wakeUp);
      now := wakeUp;
    }
  }

  /** The least time from tick to tick. */
  function Pace(d: Durations): int {
    if Sane(d) then d.tickInterval else 1
  }

  lemma {:induction false} AtPace(hash: nat, d: Durations, slow: bool, elapsed: nat, now: int)
    requires Sane(d) || elapsed > 0
    ensures elapsed + Delay(hash, d, slow) >= Pace(d)
    ensures WaitsFor(d, slow, elapsed, now, now + elapsed + Delay(hash, d, slow))
  {
    if Sane(d) {
      SaneDelay(hash, d, slow);
    }
  }

  lemma {:induction false} NextTick(ticks: nat, interval: int, now: int, wakeUp: int)
    requires ticks > 0 && (ticks - 1) * interval <= now && now + interval <= wakeUp
    ensures ticks * interval <= wakeUp
  {
  }

  // ------------------------------------------------------------------ waiting

  /** The one JSON answer of a request that does not stream. */
  datatype Answer = FinalAnswer | FailureAnswer | TimeoutAnswer | InternalError

  datatype FinalHook = FinalRendered | FinalOverloaded | FinalFailed

  datatype WaitingTick = WaitingTick(
    load: Load,
    hook: FinalHook,
    payloadOk: bool,                // the rendered payload passes the machine's checks
    deadline: bool,
    clientGone: bool,
    elapsed: nat,
    timerFires: bool,               // otherwise one of the contexts ends the wait
    deadlineAfterWait: bool)

  /** writeTaskPluginProtocolFailureResponse */
  method AnswerFailure(machine: PluginResponsesMachine, status: TaskStatus) returns (a: Answer)
    requires machine.Valid()
    modifies machine
    ensures a == if !old(machine.started) && !old(machine.terminal) then FailureAnswer else InternalError
  {
    var ok;
    if status.Failure? {
      ok := machine.FinalAnswer(false, status);
    } else {
      ok := machine.Answer();
    }
    a := if ok then FailureAnswer else InternalError;
  }

  /** writeTaskPluginProtocolTimeoutResponse */
  method AnswerTimeout(machine: PluginResponsesMachine) returns (a: Answer)
    requires machine.Valid()
    modifies machine
    ensures a == if !old(machine.started) && !old(machine.terminal) then TimeoutAnswer else InternalError
  {
    var ok := machine.Answer();
    a := if ok then TimeoutAnswer else InternalError;
  }

  datatype Settled = Settled(answers: seq<Answer>) | Unsettled(slow: bool)

  /** The answer that a tick of the waiting loop is expected to give, if it gives one. */
  function Expected(t: WaitingTick): Settled {
    match t.load
    case LoadOverloaded => Unsettled(true)
    case LoadFailed =>
      Settled(if t.deadline then [TimeoutAnswer] else if t.clientGone then [] else [FailureAnswer])
    case Loaded(status) =>
      if status.Failure? then Settled([FailureAnswer])
      else if !status.Success? then Unsettled(false)
      else if t.hook.FinalRendered? && t.payloadOk then Settled([FinalAnswer])
      else if t.deadline then Settled([TimeoutAnswer])
      else if t.clientGone then Settled([])
      else if t.hook.FinalOverloaded? then Unsettled(true)
      else Settled([FailureAnswer])
  }

  /** The task succeeded, and what its hook rendered passes. */
  predicate Answers(t: WaitingTick) {
    t.load == Loaded(Success) && t.hook.FinalRendered? && t.payloadOk
  }

  /** The task succeeded, but there is no answer from its hook. */
  predicate Unanswered(t: WaitingTick) {
    t.load == Loaded(Success) && !(t.hook.FinalRendered? && t.payloadOk)
  }

  /** What a tick is good for. The final answer is given exactly for a success whose payload
      was rendered and passes, whatever the clocks say. A failed task is answered with the
      failure, and with nothing else. Where there is neither, the deadline makes it a
      timeout, else a lost client gets nothing, and else only overload goes on. */
  lemma ExpectedExactly(t: WaitingTick)
    ensures Expected(t) == Settled([FinalAnswer]) <==> Answers(t)
    ensures Expected(t) == Settled([FailureAnswer]) <==>
      || t.load == Loaded(Failure)
      || (!t.deadline && !t.clientGone && (t.load.LoadFailed? || (Unanswered(t) && !t.hook.FinalOverloaded?)))
    ensures Expected(t) == Settled([TimeoutAnswer]) <==> t.deadline && (t.load.LoadFailed? || Unanswered(t))
    ensures Expected(t) == Settled([]) <==> t.clientGone && !t.deadline && (t.load.LoadFailed? || Unanswered(t))
    ensures Expected(t) == Unsettled(true) <==>
      t.load.LoadOverloaded? || (Unanswered(t) && t.hook.FinalOverloaded? && !t.deadline && !t.clientGone)
    ensures Expected(t) == Unsettled(false) <==> t.load == Loaded(Running) || t.load == Loaded(Waiting)
  {
  }

  /** One turn of the waiting loop up to the wait. */
  method Poll(machine: PluginResponsesMachine, t: WaitingTick) returns (s: Settled)
    requires machine.Valid() && !machine.started && !machine.terminal
    modifies machine
    ensures s == Expected(t)
    ensures s.Unsettled? ==> machine.Valid() && !machine.started && !machine.terminal
  {
    if t.load.LoadOverloaded? {
      return Unsettled(true);
    }
    if t.load.LoadFailed? {
      if t.deadline {
        var a := AnswerTimeout(machine);
        return Settled([a]);
      }
      if t.clientGone {
        return Settled([]);
      }
      var a := AnswerFailure(machine, Waiting);
      return Settled([a]);
    }
    var status := t.load.status;
    if status.Failure? {
      var a := AnswerFailure(machine, status);
      return Settled([a]);
    }
    if !status.Success? {
      return Unsettled(false);
    }
    var rendered := false;
    if t.hook.FinalRendered? {
      rendered := machine.FinalAnswer(t.payloadOk, status);
    }
    if rendered {
      return Settled([FinalAnswer]);
    }
    if t.deadline {
      var a := AnswerTimeout(machine);
      return Settled([a]);
    }
    if t.clientGone {
      return Settled([]);
    }
    if t.hook.FinalOverloaded? {
      return Unsettled(true);
    }
    var a := AnswerFailure(machine, status);
    return Settled([a]);
  }

  /** From one tick of the waiting loop to the next. */
  predicate Polls(d: Durations, t: WaitingTick, now: int, wakeUp: int) {
    Expected(t).Unsettled? && t.timerFires && WaitsFor(d, Expected(t).slow, t.elapsed, now, wakeUp)
  }

  /** The times at which ticks begin. */
  ghost predicate Schedule(d: Durations, env: nat -> WaitingTick, times: seq<int>) {
    && times != [] && times[0] == 0
    && forall n :: 0 <= n < |times| - 1 ==> Polls(d, env(n), times[n], times[n + 1])
  }

  lemma {:induction false} ScheduleMore(d: Durations, env: nat -> WaitingTick, times: seq<int>, next: int)
    requires Schedule(d, env, times) && Polls(d, env(|times| - 1), times[|times| - 1], next)
    ensures Schedule(d, env, times + [next])
  {
  }

  /** The waiting loop: the client gets exactly the answer that the last tick calls for, at
      most one, and never an internal error; only a lost client gets none. The number of
      ticks is bounded like that of a stream. */
  method Wait(machine: PluginResponsesMachine, d: Durations, env: nat -> WaitingTick, hash: nat -> nat)
    returns (answers: seq<Answer>, ticks: nat, ghost times: seq<int>)
    requires machine.Valid() && !machine.started && !machine.terminal && Positive(d)
    requires Sane(d) || forall n: nat :: env(n).elapsed > 0
    modifies machine
    ensures ticks > 0
    ensures (ticks - 1) * (if Sane(d) then d.tickInterval else 1) <= d.observationTimeout
    ensures |times| == ticks && Schedule(d, env, times) && times[ticks - 1] <= d.observationTimeout
    ensures var t := env(ticks - 1);
            if Expected(t).Settled? then answers == Expected(t).answers
            else answers == if t.timerFires || t.deadlineAfterWait then [TimeoutAnswer] else []
    ensures answers == [FinalAnswer] <==> Answers(env(ticks - 1))
    ensures env(ticks - 1).load == Loaded(Failure) ==> answers == [FailureAnswer]
  {
    ticks, times := 0, [0];
    var now, deadline := 0, d.observationTimeout;
    while true
      invariant machine.Valid() && !machine.started && !machine.terminal
      invariant ticks * Pace(d) <= now <= deadline
      invariant |times| == ticks + 1 && Schedule(d, env, times) && times[ticks] == now
      decreases deadline - now
    {
      var t := env(ticks);
      ticks := ticks + 1;
      assert (ticks - 1) * Pace(d) <= deadline;
      ExpectedExactly(t);
      var s := Poll(machine, t);
      if s.Settled? {
        return s.answers, ticks, times;
      }
      var wakeUp := now + t.elapsed + Delay(hash(ticks), d, s.slow);
      AtPace(hash(ticks), d, s.slow, t.elapsed, now);
      if !t.timerFires || wakeUp > deadline {
        answers := [];
        if t.deadlineAfterWait || t.timerFires {
          var a := AnswerTimeout(machine);
          answers := [a];
        }
        return;
      }
      ScheduleMore(d, env, times, wakeUp);
      times := times + [wakeUp];
      NextTick(ticks, Pace(d), now, wakeUp);
      now := wakeUp;
    }
  }

  // ---------------------------------------------------------------- admission

  /** What an admitted request goes through. */
  datatype Request =
    | ClientGone                    // found out after the submission
    | RelayInfoFails
    | OriginTaskFails
    | SubmissionFails
    | OutcomeInvalid
    | Background                    // answered at once with a pending response
    | Streams(env: nat -> Tick, createdWritten: bool)
    | Waits(waitingEnv: nat -> WaitingTick)

  datatype Response =
    | TooManyRequests
    | Unauthorized
    | NoResponse
    | ServerError
    | SubmissionError
    | PendingResponse
    | StreamResponse(wire: seq<Wire>)
    | JsonResponse(answers: seq<Answer>)

  /** Time passes in every tick of the request. */
  ghost predicate TimePasses(request: Request) {
    match request
    case Streams(env, _) => forall n: nat :: env(n).elapsed > 0
    case Waits(env) => forall n: nat :: env(n).elapsed > 0
    case _ => true
  }

  /** The response that a request calls for. */
  ghost predicate Responds(request: Request, response: Response) {
    match request
    case ClientGone => response.NoResponse?
    case RelayInfoFails => response.ServerError?
    case OriginTaskFails => response.SubmissionError?
    case SubmissionFails => response.SubmissionError?
    case OutcomeInvalid => response.ServerError?
    case Background => response.PendingResponse?
    case Streams(_, createdWritten) =>
      response.StreamResponse? && WellFormed(response.wire) && (response.wire == [] <==> !createdWritten)
    case Waits(_) => response.JsonResponse? && |response.answers| <= 1 && InternalError !in response.answers
  }

  /** serveTaskPluginProtocol from the submission on, with all its places to return. */
  method Handle(d: Durations, limits: ProtocolLimits, request: Request, hash: nat -> nat) returns (response: Response)
    requires Positive(d) && (Sane(d) || TimePasses(request))
    ensures Responds(request, response)
  {
    match request {
      case ClientGone => return NoResponse;
      case RelayInfoFails => return ServerError;
      case OriginTaskFails => return SubmissionError;
      case SubmissionFails => return SubmissionError;
      case OutcomeInvalid => return ServerError;
      case Background => return PendingResponse;
      case Streams(env, createdWritten) =>
        var machine := new PluginResponsesMachine(limits);
        var wire, log, ticks, ending, _ := Stream(machine, d, env, hash, createdWritten);
        return StreamResponse(wire);
      case Waits(env) =>
        var machine := new PluginResponsesMachine(limits);
        var answers, ticks, _ := Wait(machine, d, env, hash);
        return JsonResponse(answers);
    }
  }

  /** serveTaskPluginProtocol around its admission, when no other request runs meanwhile: an
      admitted request takes one lease and has it removed once, wherever it returns.
      `ObservationRequests` has the requests that run at the same time. */
  method Serve(
    limiter: ObservationLimiter.Limiter, pluginKey: string, userID: int, tokenID: int,
    d: Durations, limits: ProtocolLimits, request: Request, hash: nat -> nat)
    returns (response: Response)
    requires limiter.Valid() && Positive(d) && (Sane(d) || TimePasses(request))
    modifies limiter
    ensures limiter.Valid() && limiter.leases == old(limiter.leases)
    ensures var identified := ObservationLimiter.Identified(pluginKey, userID, tokenID);
            var room := old(limiter.HasRoom(Text.TrimSpace(pluginKey), userID, tokenID));
            && (!identified ==> response.Unauthorized?)
            && (identified && !room ==> response.TooManyRequests?)
            && (identified && room ==> Responds(request, response))
            && limiter.removals == old(limiter.removals) + if identified && room then 1 else 0
  {
    var lease, refusal := limiter.Acquire(pluginKey, userID, tokenID);
    if lease == null {
      return if refusal.LimitExceeded? then TooManyRequests else Unauthorized;
    }
    response := Handle(d, limits, request, hash);
    lease.Release();
  }
}
