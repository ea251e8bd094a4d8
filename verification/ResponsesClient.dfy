/** The events of a streamed response, and a client that assembles the response from them:
    an output item is announced, filled and closed by six events in a fixed order, and the
    event that ends the stream repeats all items.
 */
module ResponsesClient {
  import opened Text

  datatype Kind =
    | Created
    | InProgress
    | OutputItemAdded | ContentPartAdded | OutputTextDelta | OutputTextDone | ContentPartDone | OutputItemDone
    | Completed
    | Failed
    | Incomplete

  predicate IsTerminal(kind: Kind) {
    kind.Completed? || kind.Failed? || kind.Incomplete?
  }

  /** `output` is the index of the output item an event is about, or -1; `texts` is the text
      of that item, if the event has it, or all texts of the response. */
  datatype Event = Event(kind: Kind, sequence: nat, output: int, texts: seq<Bytes>)

  /** A client between two items, or within one of which it has seen so many events. */
  datatype Client =
    | Between(items: seq<Bytes>)
    | Within(items: seq<Bytes>, seen: nat, text: Bytes)
    | Confused

  /** The kinds of the six events of an item, in their order. */
  function Step(kind: Kind): int {
    match kind
    case OutputItemAdded => 0
    case ContentPartAdded => 1
    case OutputTextDelta => 2
    case OutputTextDone => 3
    case ContentPartDone => 4
    case OutputItemDone => 5
    case _ => -1
  }

  /** What the client makes of one event; it is confused by one that it does not expect. */
  function Receive(c: Client, e: Event): Client {
    match c
    case Confused => Confused
    case Between(items) =>
      if Step(e.kind) == 0 then if e.output == |items| then Within(items, 1, []) else Confused
      else if Step(e.kind) == -1 && (IsTerminal(e.kind) ==> e.texts == items) then c
      else Confused
    case Within(items, seen, text) =>
      if Step(e.kind) != seen || e.output != |items| then Confused
      else if seen == 1 then if e.texts == [[]] then Within(items, 2, []) else Confused
      else if seen == 2 then if |e.texts| == 1 then Within(items, 3, e.texts[0]) else Confused
      else if e.texts != [text] then Confused
      else if seen == 5 then Between(items + [text])
      else Within(items, seen + 1, text)
  }

  /** The client after the first `n` events. */
  function ReadFirst(c: Client, events: seq<Event>, n: nat): Client
    requires n <= |events|
  {
    if n == 0 then c else Receive(ReadFirst(c, events, n - 1), events[n - 1])
  }

  function Read(c: Client, events: seq<Event>): Client {
    ReadFirst(c, events, |events|)
  }

  lemma {:induction false} ReadSame(c: Client, a: seq<Event>, b: seq<Event>, n: nat)
    requires n <= |a| && n <= |b| && forall i :: 0 <= i < n ==> a[i] == b[i]
    ensures ReadFirst(c, a, n) == ReadFirst(c, b, n)
  {
    if n > 0 {
      ReadSame(c, a, b, n - 1);
    }
  }

  lemma {:induction false} ReadSnoc(c: Client, events: seq<Event>, e: Event)
    ensures Read(c, events + [e]) == Receive(Read(c, events), e)
  {
    ReadSame(c, events + [e], events, |events|);
  }

  lemma {:induction false} ReadOne(c: Client, e: Event)
    ensures Read(c, [e]) == Receive(c, e)
  {
    assert ReadFirst(c, [e], 0) == c;
  }

  lemma {:induction false} ReadMore(c: Client, a: seq<Event>, b: seq<Event>, n: nat)
    requires n <= |b|
    ensures ReadFirst(c, a + b, |a| + n) == ReadFirst(Read(c, a), b, n)
  {
    if n == 0 {
      ReadSame(c, a + b, a, |a|);
    } else {
      ReadMore(c, a, b, n - 1);
    }
  }

  lemma {:induction false} ReadConcat(c: Client, a: seq<Event>, b: seq<Event>)
    ensures Read(c, a + b) == Read(Read(c, a), b)
  {
    ReadMore(c, a, b, |b|);
  }

  /** Reading by way of the states in between. */
  lemma {:induction false} ReadVia(events: seq<Event>, states: seq<Client>, n: nat)
    requires |states| == |events| + 1 && n <= |events|
    requires forall i :: 0 <= i < |events| ==> states[i + 1] == Receive(states[i], events[i])
    ensures ReadFirst(states[0], events, n) == states[n]
  {
    if n > 0 {
      ReadVia(events, states, n - 1);
    }
  }

  /** A client that understands a sequence of events understands its beginning, and has then
      assembled the first of the items. */
  lemma {:induction false} ReadPart(c: Client, events: seq<Event>, n: nat)
    requires n <= |events| && !Read(c, events).Confused?
    ensures var part := ReadFirst(c, events, n); !part.Confused? && part.items <= Read(c, events).items
    decreases |events| - n
  {
    if n < |events| {
      ReadPart(c, events, n + 1);
    }
  }

  // ------------------------------------------------------- what was announced

  /** The six events of item `index` stand here, one after the other. */
  predicate Block(events: seq<Event>, at: nat, index: int, text: Bytes) {
    && at + 6 <= |events|
    && (forall i :: at <= i < at + 6 ==> Step(events[i].kind) == i - at && events[i].output == index)
    && events[at + 2].texts == events[at + 3].texts == events[at + 4].texts == events[at + 5].texts == [text]
  }

  ghost predicate Announced(events: seq<Event>, index: int, text: Bytes) {
    exists at: nat :: Block(events, at, index, text)
  }

  /** The event at position `i` is the right one for a client that is within an item and has
      read the first `n` events. */
  ghost predicate Fitting(c: Client, events: seq<Event>, n: nat, i: int)
    requires c.Within? && n <= |events|
  {
    n - c.seen <= i < n && 0 <= i ==>
      && Step(events[i].kind) == i - (n - c.seen) && events[i].output == |c.items|
      && (i - (n - c.seen) >= 2 ==> events[i].texts == [c.text])
  }

  /** What a client within an item has just read. */
  ghost predicate HalfBlock(c: Client, events: seq<Event>, n: nat)
    requires n <= |events|
  {
    c.Within? ==> 1 <= c.seen <= 5 && c.seen <= n && forall i :: Fitting(c, events, n, i)
  }

  lemma {:induction false} ReadHalfBlock(events: seq<Event>, n: nat)
    requires n <= |events|
    ensures HalfBlock(ReadFirst(Between([]), events, n), events, n)
  {
    if n > 0 {
      ReadHalfBlock(events, n - 1);
      var c, d := ReadFirst(Between([]), events, n - 1), ReadFirst(Between([]), events, n);
      if d.Within? {
        forall i ensures Fitting(d, events, n, i) {
          assert c.Within? ==> Fitting(c, events, n - 1, i);
        }
      }
    }
  }

  lemma {:induction false} Closes(events: seq<Event>, n: nat, c: Client)
    requires n < |events| && c.Within? && HalfBlock(c, events, n) && Receive(c, events[n]).Between?
    ensures Block(events, n - 5, |c.items|, c.text)
  {
    forall i | n - 5 <= i < n ensures Step(events[i].kind) == i - (n - 5) && events[i].output == |c.items| {
      assert Fitting(c, events, n, i);
    }
    assert Fitting(c, events, n, n - 3) && Fitting(c, events, n, n - 2) && Fitting(c, events, n, n - 1);
  }

  lemma {:induction false} AnnouncedFirst(events: seq<Event>, n: nat)
    requires n <= |events| && !ReadFirst(Between([]), events, n).Confused?
    ensures var items := ReadFirst(Between([]), events, n).items;
            forall i :: 0 <= i < |items| ==> Announced(events, i, items[i])
  {
    if n > 0 {
      var c, d := ReadFirst(Between([]), events, n - 1), ReadFirst(Between([]), events, n);
      AnnouncedFirst(events, n - 1);
      ReadHalfBlock(events, n - 1);
      if |d.items| > |c.items| {
        Closes(events, n - 1, c);
      }
    }
  }

  /** Whatever a client has assembled was announced on the wire: every item has its six
      events, in order and with its text. */
  lemma {:induction false} ItemsAreAnnounced(events: seq<Event>)
    requires !Read(Between([]), events).Confused?
    ensures var items := Read(Between([]), events).items;
            forall i :: 0 <= i < |items| ==> Announced(events, i, items[i])
  {
    AnnouncedFirst(events, |events|);
  }
}
