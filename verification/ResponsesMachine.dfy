/** The host-owned state machine behind a streamed task: it turns what a plugin reports at
    each tick into numbered wire events and decides when the stream is over.
 */
module ResponsesMachine {
  import opened Options
  import opened ResponsesClient
  import opened Text

  datatype ProtocolLimits = ProtocolLimits(
    maxEventBytes: int, maxOutputs: int, maxTotalOutputBytes: int, maxMetadataValueBytes: int)

  const DefaultLimits := ProtocolLimits(32768, 64, 1048576, 512)

  /** `withDefaults`: a limit that is not positive is replaced. */
  function WithDefaults(l: ProtocolLimits): ProtocolLimits {
    ProtocolLimits(
      if l.maxEventBytes <= 0 then DefaultLimits.maxEventBytes else l.maxEventBytes,
      if l.maxOutputs <= 0 then DefaultLimits.maxOutputs else l.maxOutputs,
      if l.maxTotalOutputBytes <= 0 then DefaultLimits.maxTotalOutputBytes else l.maxTotalOutputBytes,
      if l.maxMetadataValueBytes <= 0 then DefaultLimits.maxMetadataValueBytes else l.maxMetadataValueBytes)
  }

  /** A decoded semantic event. A progress value out of range, an output that is no JSON
      value and an error without a message reach the machine as such. */
  datatype Semantic =
    | Progress(inRange: bool, messageBytes: nat)
    | Output(text: Option<Bytes>)
    | Error(hasMessage: bool)
    | Unsupported

  /** The durable task status, after trimming and ignoring case. */
  datatype TaskStatus = Success | Failure | Running | Waiting

  datatype Result = Events(events: seq<Event>) | Rejected

  /** One run of six events announces, fills and closes an output item. */
  function OutputEvents(index: nat, sequence: nat, text: Bytes): seq<Event> {
    [Event(OutputItemAdded, sequence, index, []), Event(ContentPartAdded, sequence + 1, index, [[]]),
     Event(OutputTextDelta, sequence + 2, index, [text]), Event(OutputTextDone, sequence + 3, index, [text]),
     Event(ContentPartDone, sequence + 4, index, [text]), Event(OutputItemDone, sequence + 5, index, [text])]
  }

  /** The client takes the six events for the next item. */
  lemma {:induction false} ReadSix(items: seq<Bytes>, sequence: nat, text: Bytes)
    ensures Read(Between(items), OutputEvents(|items|, sequence, text)) == Between(items + [text])
  {
    var six := OutputEvents(|items|, sequence, text);
    ReadVia(six, [Between(items), Within(items, 1, []), Within(items, 2, []), Within(items, 3, text),
                  Within(items, 4, text), Within(items, 5, text), Between(items + [text])], |six|);
  }

  /** The events are numbered without a gap from `sequence` on. */
  ghost predicate Numbered(events: seq<Event>, sequence: nat) {
    forall i :: 0 <= i < |events| ==> events[i].sequence == sequence + i
  }

  ghost predicate NoneTerminal(events: seq<Event>) {
    forall i :: 0 <= i < |events| ==> !IsTerminal(events[i].kind)
  }

  /** A terminal event can only be the last one. */
  ghost predicate TerminalOnlyLast(events: seq<Event>) {
    forall i :: 0 <= i < |events| - 1 ==> !IsTerminal(events[i].kind)
  }

  predicate EndsTerminal(events: seq<Event>) {
    events != [] && IsTerminal(events[|events| - 1].kind)
  }

  ghost predicate NoneCreated(events: seq<Event>) {
    forall i :: 0 <= i < |events| ==> !events[i].kind.Created?
  }

  function BytesFirst(outputs: seq<Bytes>, n: nat): nat
    requires n <= |outputs|
  {
    if n == 0 then 0 else BytesFirst(outputs, n - 1) + |outputs[n - 1]|
  }

  function TotalBytes(outputs: seq<Bytes>): nat {
    BytesFirst(outputs, |outputs|)
  }

  lemma {:induction false} BytesSame(a: seq<Bytes>, b: seq<Bytes>, n: nat)
    requires n <= |a| && n <= |b| && forall i :: 0 <= i < n ==> a[i] == b[i]
    ensures BytesFirst(a, n) == BytesFirst(b, n)
  {
    if n > 0 {
      BytesSame(a, b, n - 1);
    }
  }

  lemma {:induction false} TotalMore(outputs: seq<Bytes>, text: Bytes)
    ensures TotalBytes(outputs + [text]) == TotalBytes(outputs) + |text|
  {
    BytesSame(outputs + [text], outputs, |outputs|);
  }

  /** Where the first error event is among the first `n`, or `n`. */
  function ErrorAt(semantics: seq<Semantic>, n: nat): (at: nat)
    requires n <= |semantics|
    ensures at <= n && (forall k :: 0 <= k < at ==> !semantics[k].Error?)
    ensures at < n ==> semantics[at].Error?
  {
    if n == 0 then 0
    else
      var at := ErrorAt(semantics, n - 1);
      if at == n - 1 && !semantics[n - 1].Error? then n else at
  }

  /** The output texts among the first `n` semantic events. */
  function Texts(semantics: seq<Semantic>, n: nat): seq<Bytes>
    requires n <= |semantics|
  {
    if n == 0 then []
    else if semantics[n - 1].Output? && semantics[n - 1].text.Some?
    then Texts(semantics, n - 1) + [semantics[n - 1].text.value]
    else Texts(semantics, n - 1)
  }

  /** The output texts of a tick, up to the first error event. */
  function TextsBeforeError(semantics: seq<Semantic>): seq<Bytes> {
    Texts(semantics, ErrorAt(semantics, |semantics|))
  }

  /** How many of the first `n` events come before anything else than progress. */
  function Leading(semantics: seq<Semantic>, n: nat): (count: nat)
    requires n <= |semantics|
    ensures count <= n && (forall k :: 0 <= k < count ==> semantics[k].Progress?)
    ensures count < n ==> !semantics[count].Progress?
  {
    if n == 0 then 0
    else
      var count := Leading(semantics, n - 1);
      if count == n - 1 && semantics[n - 1].Progress? then n else count
  }

  /** Exactly the first `n` events show progress. */
  ghost predicate ProgressFirst(events: seq<Event>, n: nat) {
    n <= |events| && forall i :: 0 <= i < |events| ==> (events[i].kind.InProgress? <==> i < n)
  }

  predicate HasError(semantics: seq<Semantic>) {
    exists i :: 0 <= i < |semantics| && semantics[i].Error?
  }

  /** What the validating pass over one semantic event accepts. */
  predicate Acceptable(s: Semantic, limits: ProtocolLimits) {
    match s
    case Progress(inRange, messageBytes) => inRange && messageBytes <= limits.maxMetadataValueBytes
    case Output(text) => text.Some? && |text.value| <= limits.maxEventBytes
    case Error(hasMessage) => hasMessage
    case Unsupported => false
  }

  function OutputCount(semantics: seq<Semantic>, n: nat): nat
    requires n <= |semantics|
  {
    if n == 0 then 0 else OutputCount(semantics, n - 1) + (if semantics[n - 1].Output? then 1 else 0)
  }

  function OutputBytes(semantics: seq<Semantic>, n: nat): nat
    requires n <= |semantics|
  {
    if n == 0 then 0
    else
      var last := semantics[n - 1];
      OutputBytes(semantics, n - 1) + (if last.Output? && last.text.Some? then |last.text.value| else 0)
  }

  lemma {:induction false} OutputsGrow(semantics: seq<Semantic>, i: nat, n: nat)
    requires i <= n <= |semantics|
    ensures OutputCount(semantics, i) <= OutputCount(semantics, n)
            && OutputBytes(semantics, i) <= OutputBytes(semantics, n)
  {
    if i < n {
      OutputsGrow(semantics, i, n - 1);
    }
  }

  /** Numbered events of the middle of a stream, which take a client from these outputs to
      those and of which the first `shown` show progress. */
  ghost predicate Emitted(before: seq<Bytes>, after: seq<Bytes>, events: seq<Event>, sequence: nat, shown: nat) {
    && Numbered(events, sequence) && NoneTerminal(events) && NoneCreated(events)
    && Read(Between(before), events) == Between(after)
    && ProgressFirst(events, shown)
  }

  lemma {:induction false} EmitMore(
    before: seq<Bytes>, between: seq<Bytes>, after: seq<Bytes>, events: seq<Event>, more: seq<Event>, sequence: nat,
    shown: nat, moreShown: nat)
    requires Emitted(before, between, events, sequence, shown)
    requires Emitted(between, after, more, sequence + |events|, moreShown)
    requires moreShown == 0 || shown == |events|
    ensures Emitted(before, after, events + more, sequence, shown + moreShown)
  {
    ReadConcat(Between(before), events, more);
  }

  /** The numbered events of a tick, which take a client from these outputs to those. The
      first `shown` show progress; a terminal event comes last, and only with a verdict. */
  ghost predicate Applied(
    before: seq<Bytes>, after: seq<Bytes>, events: seq<Event>, sequence: nat, shown: nat, verdict: Option<Kind>)
  {
    && Numbered(events, sequence) && NoneCreated(events) && TerminalOnlyLast(events)
    && (EndsTerminal(events) <==> verdict.Some?)
    && (verdict.Some? ==> events[|events| - 1].kind == verdict.value)
    && Read(Between(before), events) == Between(after) && ProgressFirst(events, shown)
  }

  lemma {:induction false} EmitLast(
    before: seq<Bytes>, after: seq<Bytes>, events: seq<Event>, sequence: nat, shown: nat, e: Event)
    requires Emitted(before, after, events, sequence, shown)
    requires IsTerminal(e.kind) && e.sequence == sequence + |events| && e.texts == after
    ensures Applied(before, after, events + [e], sequence, shown, Some(e.kind))
  {
    ReadSnoc(Between(before), events, e);
  }

  /** The outputs after the first `i` semantic events of a tick. */
  function OutputsAt(semantics: seq<Semantic>, i: nat, before: seq<Bytes>): seq<Bytes>
    requires i <= |semantics|
  {
    if i == 0 then before
    else if semantics[i - 1].Output? && semantics[i - 1].text.Some?
    then OutputsAt(semantics, i - 1, before) + [semantics[i - 1].text.value]
    else OutputsAt(semantics, i - 1, before)
  }

  /** They are those before and the texts of the tick, and as many and as long as its
      validation has counted. */
  lemma {:induction false} OutputsCounted(semantics: seq<Semantic>, i: nat, before: seq<Bytes>)
    requires i <= |semantics|
    requires forall k :: 0 <= k < i && semantics[k].Output? ==> semantics[k].text.Some?
    ensures OutputsAt(semantics, i, before) == before + Texts(semantics, i)
    ensures |OutputsAt(semantics, i, before)| == |before| + OutputCount(semantics, i)
    ensures TotalBytes(OutputsAt(semantics, i, before)) == TotalBytes(before) + OutputBytes(semantics, i)
  {
    if i == 0 {
      assert before + [] == before;
    } else {
      OutputsCounted(semantics, i - 1, before);
      if semantics[i - 1].Output? {
        TotalMore(OutputsAt(semantics, i - 1, before), semantics[i - 1].text.value);
      }
    }
  }

  /** So many of the first `i` semantic events are shown as progress: all up to the first
      output of the response. */
  ghost predicate Showing(
    semantics: seq<Semantic>, i: nat, before: seq<Bytes>, after: seq<Bytes>, shown: nat, events: nat)
    requires i <= |semantics|
  {
    var leading := Leading(semantics, |semantics|);
    && shown == (if before != [] then 0 else if i <= leading then i else leading)
    && (i <= leading ==> after == before && (after == [] ==> events == i))
    && (i > leading ==> after != [])
  }

  /** How much progress one semantic event shows after these outputs. */
  function Shows(semantic: Semantic, outputs: seq<Bytes>): nat {
    if semantic.Progress? && outputs == [] then 1 else 0
  }

  lemma {:induction false} ShowMore(
    semantics: seq<Semantic>, i: nat, before: seq<Bytes>, between: seq<Bytes>, after: seq<Bytes>, shown: nat,
    events: nat, all: nat)
    requires i < |semantics| && Showing(semantics, i, before, between, shown, events)
    requires semantics[i].Progress? || (semantics[i].Output? && semantics[i].text.Some?)
    requires after == if semantics[i].Output? then between + [semantics[i].text.value] else between
    requires semantics[i].Progress? ==> all == events + Shows(semantics[i], between)
    ensures Showing(semantics, i + 1, before, after, shown + Shows(semantics[i], between), all)
  {
    if i < Leading(semantics, |semantics|) {
      assert semantics[i].Progress?;
    } else if i == Leading(semantics, |semantics|) {
      assert !semantics[i].Progress?;
    }
  }

  /** The terminal event of an accepted tick, if it has one. */
  function Verdict(semantics: seq<Semantic>, done: bool, status: TaskStatus): Option<Kind> {
    if status.Failure? || HasError(semantics) then Some(Failed)
    else if status.Success? then Some(Completed)
    else if done then Some(Incomplete)
    else None
  }

  /** After these outputs the limits leave room for the events of a tick. */
  predicate FitsAfter(limits: ProtocolLimits, outputs: seq<Bytes>, semantics: seq<Semantic>) {
    && (forall i :: 0 <= i < |semantics| ==> Acceptable(semantics[i], limits))
    && |outputs| + OutputCount(semantics, |semantics|) <= limits.maxOutputs
    && TotalBytes(outputs) + OutputBytes(semantics, |semantics|) <= limits.maxTotalOutputBytes
  }

  /** Which single events fit, on their own, after these outputs: the limits are inclusive. */
  lemma {:induction false} OneFitsExactly(limits: ProtocolLimits, outputs: seq<Bytes>, s: Semantic)
    requires |outputs| <= limits.maxOutputs && TotalBytes(outputs) <= limits.maxTotalOutputBytes
    ensures FitsAfter(limits, outputs, [s]) <==>
      match s
      case Progress(inRange, messageBytes) => inRange && messageBytes <= limits.maxMetadataValueBytes
      case Output(text) =>
        && text.Some? && |text.value| <= limits.maxEventBytes && |outputs| + 1 <= limits.maxOutputs
        && TotalBytes(outputs) + |text.value| <= limits.maxTotalOutputBytes
      case Error(hasMessage) => hasMessage
      case Unsupported => false
  {
    var tick := [s];
    assert OutputCount(tick, 0) == 0 && OutputBytes(tick, 0) == 0;
    assert tick[0] == s;
  }

  class PluginResponsesMachine {
    const limits: ProtocolLimits
    var nextSequence: nat
    var started: bool
    var terminal: bool
    var outputs: seq<Bytes>
    var totalOutputBytes: nat

    /** The cumulative limits hold and the byte count is right. */
    ghost predicate Valid()
      reads this
    {
      && totalOutputBytes == TotalBytes(outputs) <= limits.maxTotalOutputBytes
      && |outputs| <= limits.maxOutputs
      && (!started ==> nextSequence == 0 && outputs == [])
    }

    constructor (limits: ProtocolLimits)
      ensures Valid() && this.limits == WithDefaults(limits) && !started && !terminal && outputs == []
    {
      this.limits := WithDefaults(limits);
      nextSequence, started, terminal, outputs, totalOutputBytes := 0, false, false, [], 0;
    }

    method Number(kind: Kind, texts: seq<Bytes>) returns (e: Event)
      modifies `nextSequence
      ensures e == Event(kind, old(nextSequence), -1, texts) && nextSequence == old(nextSequence) + 1
    {
      e := Event(kind, nextSequence, -1, texts);
      nextSequence := nextSequence + 1;
    }

    method CreatedEvent() returns (r: Result)
      requires Valid()
      modifies this
      ensures Valid() && outputs == old(outputs) && terminal == old(terminal)
      ensures r.Events? <==> !old(started) && !old(terminal)
      ensures r.Events? ==> r.events == [Event(Created, 0, -1, [])] && started && nextSequence == 1
      ensures r.Rejected? ==> unchanged(this)
    {
      if started || terminal {
        return Rejected;
      }
      started := true;
      var e := Number(Created, outputs);
      return Events([e]);
    }

    /** FailureEvent and TimeoutEvent: one terminal event with all outputs, only on a stream
        that has begun and is not over. */
    method Conclude(kind: Kind) returns (r: Result)
      requires Valid() && IsTerminal(kind)
      modifies this
      ensures Valid() && outputs == old(outputs)
      ensures r.Events? <==> old(started) && !old(terminal)
      ensures r.Events? ==>
        && r.events == [Event(kind, old(nextSequence), -1, outputs)]
        && started && terminal && nextSequence == old(nextSequence) + 1
      ensures r.Rejected? ==> unchanged(this)
    {
      if !started || terminal {
        return Rejected;
      }
      terminal := true;
      var e := Number(kind, outputs);
      return Events([e]);
    }

    /** FailureResponse and TimeoutResponse of a request that does not stream. */
    method Answer() returns (ok: bool)
      requires Valid()
      modifies `terminal
      ensures Valid() && (ok <==> !old(started) && !old(terminal))
      ensures terminal <==> old(terminal) || ok
    {
      ok := !started && !terminal;
      if ok {
        terminal := true;
      }
    }

    /** FinalResponse: a complete answer from the plugin's payload, or the answer for a
        failed task; a bad payload leaves the machine as it was. */
    method FinalAnswer(payloadOk: bool, status: TaskStatus) returns (ok: bool)
      requires Valid()
      modifies `terminal
      ensures Valid()
      ensures ok <==> !old(started) && !old(terminal) && ((status.Success? && payloadOk) || status.Failure?)
      ensures terminal <==> old(terminal) || ok
    {
      if started || terminal || (status.Success? && !payloadOk) || (!status.Success? && !status.Failure?) {
        return false;
      }
      terminal := true;
      return true;
    }

    method AppendOutput(text: Bytes) returns (events: seq<Event>)
      modifies `nextSequence, `outputs, `totalOutputBytes
      ensures outputs == old(outputs) + [text] && totalOutputBytes == old(totalOutputBytes) + |text|
      ensures events == OutputEvents(|old(outputs)|, old(nextSequence), text) && nextSequence == old(nextSequence) + 6
      ensures Read(Between(old(outputs)), events) == Between(outputs)
    {
      ReadSix(outputs, nextSequence, text);
      events := OutputEvents(|outputs|, nextSequence, text);
      outputs := outputs + [text];
      totalOutputBytes := totalOutputBytes + |text|;
      nextSequence := nextSequence + 6;
    }

    /** Adds up what the semantic events of a tick would append, or rejects them. */
    method Validate(semantics: seq<Semantic>) returns (ok: bool, additionalBytes: nat, additionalOutputs: nat)
      ensures ok <==> forall i :: 0 <= i < |semantics| ==> Acceptable(semantics[i], limits)
      ensures ok ==>
        && additionalOutputs == OutputCount(semantics, |semantics|)
        && additionalBytes == OutputBytes(semantics, |semantics|)
    {
      ok, additionalBytes, additionalOutputs := true, 0, 0;
      for i := 0 to |semantics|
        invariant forall j :: 0 <= j < i ==> Acceptable(semantics[j], limits)
        invariant ok && additionalOutputs == OutputCount(semantics, i) && additionalBytes == OutputBytes(semantics, i)
      {
        if !Acceptable(semantics[i], limits) {
          ok := false;
          return;
        }
        if semantics[i].Output? {
          additionalBytes := additionalBytes + |semantics[i].text.value|;
          additionalOutputs := additionalOutputs + 1;
        }
      }
    }

    /** The tick fits: it would be accepted whole or not at all. */
    ghost predicate Fits(semantics: seq<Semantic>)
      reads this
    {
      FitsAfter(limits, outputs, semantics)
    }

    /** Maps the events of one tick onto the wire. A rejected tick changes nothing; an
        accepted one continues the numbering without a gap and ends the stream exactly
        when its verdict says so, with that event last. A client that has assembled the
        outputs so far assembles those of the tick, and sees its progress as long as there
        is no output. */
    method ApplyTick(semantics: seq<Semantic>, done: bool, status: TaskStatus) returns (r: Result)
      requires Valid()
      modifies this
      ensures Valid()
      ensures r.Rejected? ==> unchanged(this)
      ensures r.Events? <==> old(started) && !old(terminal) && (status.Failure? || old(Fits(semantics)))
      ensures r.Events? ==>
        && started && (terminal <==> Verdict(semantics, done, status).Some?)
        && nextSequence == old(nextSequence) + |r.events|
        && outputs == (if status.Failure? then old(outputs) else old(outputs) + TextsBeforeError(semantics))
        && Applied(old(outputs), outputs, r.events, old(nextSequence),
                   if status.Failure? || old(outputs) != [] then 0 else Leading(semantics, |semantics|),
                   Verdict(semantics, done, status))
    {
      if !started || terminal {
        return Rejected;
      }
      if status.Failure? {
        r := Conclude(Failed);
        ReadOne(Between(outputs), r.events[0]);
        return;
      }
      var ok, additionalBytes, additionalOutputs := Validate(semantics);
      if !ok || |outputs| + additionalOutputs > limits.maxOutputs
         || totalOutputBytes + additionalBytes > limits.maxTotalOutputBytes {
        return Rejected;
      }
      var events := EmitAndConclude(semantics, Verdict(semantics, done, status));
      return Events(events);
    }

    /** What an accepted tick does. */
    method EmitAndConclude(semantics: seq<Semantic>, verdict: Option<Kind>) returns (events: seq<Event>)
      requires Valid() && started && !terminal && Fits(semantics) && (verdict.Some? ==> IsTerminal(verdict.value))
      modifies this
      ensures Valid() && started && (terminal <==> verdict.Some?)
      ensures nextSequence == old(nextSequence) + |events|
      ensures outputs == old(outputs) + TextsBeforeError(semantics)
      ensures Applied(old(outputs), outputs, events, old(nextSequence),
                      if old(outputs) != [] then 0 else Leading(semantics, |semantics|), verdict)
    {
      events := EmitAll(semantics);
      if verdict.Some? {
        var last := Conclude(verdict.value);
        EmitLast(old(outputs), outputs, events, old(nextSequence),
                 if old(outputs) != [] then 0 else Leading(semantics, |semantics|), last.events[0]);
        events := events + last.events;
      }
    }

    /** The events of one semantic event that is not an error. */
    method Emit(semantic: Semantic) returns (events: seq<Event>)
      requires started && (semantic.Progress? || (semantic.Output? && semantic.text.Some?))
      requires totalOutputBytes == TotalBytes(outputs)
      modifies `nextSequence, `outputs, `totalOutputBytes
      ensures outputs == if semantic.Output? then old(outputs) + [semantic.text.value] else old(outputs)
      ensures totalOutputBytes == TotalBytes(outputs)
           == old(totalOutputBytes) + (if semantic.Output? then |semantic.text.value| else 0)
      ensures nextSequence == old(nextSequence) + |events|
      ensures semantic.Progress? ==> |events| == Shows(semantic, old(outputs))
      ensures Emitted(old(outputs), outputs, events, old(nextSequence), Shows(semantic, old(outputs)))
    {
      events := [];
      if semantic.Output? {
        TotalMore(outputs, semantic.text.value);
        events := AppendOutput(semantic.text.value);
      } else if |outputs| == 0 {
        var e := Number(InProgress, []);
        ReadOne(Between(outputs), e);
        events := [e];
      }
    }

    /** One turn of the second pass. */
    method EmitNext(semantic: Semantic, ghost start: seq<Bytes>, ghost first: nat, events: seq<Event>, ghost shown: nat)
      returns (all: seq<Event>)
      requires started && (semantic.Progress? || (semantic.Output? && semantic.text.Some?))
      requires totalOutputBytes == TotalBytes(outputs) && nextSequence == first + |events|
      requires Emitted(start, outputs, events, first, shown)
      requires semantic.Progress? && outputs == [] ==> shown == |events|
      modifies `nextSequence, `outputs, `totalOutputBytes
      ensures outputs == if semantic.Output? then old(outputs) + [semantic.text.value] else old(outputs)
      ensures totalOutputBytes == TotalBytes(outputs) && nextSequence == first + |all|
      ensures Emitted(start, outputs, all, first, shown + Shows(semantic, old(outputs)))
      ensures semantic.Progress? ==> |all| == |events| + Shows(semantic, old(outputs))
    {
      var added := Emit(semantic);
      EmitMore(start, old(outputs), outputs, events, added, first, shown, Shows(semantic, old(outputs)));
      all := events + added;
    }

    /** What holds before turn `i` of the second pass. */
    ghost predicate Emitting(
      semantics: seq<Semantic>, i: nat, start: seq<Bytes>, first: nat, events: seq<Event>, shown: nat)
      requires i <= |semantics|
      reads this
    {
      && started && nextSequence == first + |events| && totalOutputBytes == TotalBytes(outputs)
      && Emitted(start, outputs, events, first, shown)
      && Showing(semantics, i, start, outputs, shown, |events|)
      && i <= ErrorAt(semantics, |semantics|) && outputs == OutputsAt(semantics, i, start)
    }

    method EmitTurn(
      semantics: seq<Semantic>, i: nat, ghost start: seq<Bytes>, ghost first: nat, events: seq<Event>, ghost shown: nat)
      returns (all: seq<Event>, ghost more: nat)
      requires i < |semantics| && Emitting(semantics, i, start, first, events, shown)
      requires !semantics[i].Error? && Acceptable(semantics[i], limits)
      modifies `nextSequence, `outputs, `totalOutputBytes
      ensures Emitting(semantics, i + 1, start, first, all, more)
    {
      ghost var between := outputs;
      assert semantics[i].Progress? && between == [] ==> shown == |events|;
      all := EmitNext(semantics[i], start, first, events, shown);
      ShowMore(semantics, i, start, between, outputs, shown, |events|, |all|);
      more := shown + Shows(semantics[i], between);
    }

    /** The second pass: emit event after event, stopping at an error. */
    method EmitAll(semantics: seq<Semantic>) returns (events: seq<Event>)
      requires Valid() && started && !terminal && Fits(semantics)
      modifies `nextSequence, `outputs, `totalOutputBytes
      ensures Valid() && outputs == old(outputs) + TextsBeforeError(semantics)
      ensures nextSequence == old(nextSequence) + |events|
      ensures Emitted(old(outputs), outputs, events, old(nextSequence),
                      if old(outputs) != [] then 0 else Leading(semantics, |semantics|))
    {
      events := [];
      ghost var start, first := outputs, nextSequence;
      ghost var shown: nat, at := 0, |semantics|;
      for i := 0 to |semantics|
        invariant Emitting(semantics, i, start, first, events, shown)
      {
        if semantics[i].Error? {
          at := i;
          break;
        }
        assert Acceptable(semantics[i], limits);
        events, shown := EmitTurn(semantics, i, start, first, events, shown);
      }
      assert forall k :: 0 <= k < at ==> Acceptable(semantics[k], limits);
      OutputsCounted(semantics, at, start);
      OutputsGrow(semantics, at, |semantics|);
    }
  }
}
