/** What the operations of a request body mean for somebody who reads it: positions and new
    readers are described by what is read from them to the end.
 */
module BodyReading {
  import opened BodyModel
  import opened Int64
  import opened Text

  /** These reads go on until the end of the file is reported. */
  predicate ReadsToEnd(k: Backend, b: Body, ops: seq<Op>) {
    AllReads(ops) && EndOfFile in Replies(k, b, ops)
  }

  /** What reads deliver, one after the other. */
  function Delivered(k: Backend, b: Body, ops: seq<Op>): Bytes {
    Received(Replies(k, b, ops))
  }

  function Suffix(content: Bytes, position: nat): Bytes {
    if position <= |content| then content[position..] else []
  }

  /** Reads past the end deliver nothing. */
  lemma {:induction false} NothingPastEnd(k: Backend, b: Body, ops: seq<Op>)
    requires AllReads(ops) && !b.closed && b.cursor >= |b.content|
    ensures Delivered(k, b, ops) == []
    decreases |ops|
  {
    if ops != [] {
      assert ops[0].Read?;
      NothingPastEnd(k, b, ops[1..]);
      assert Replies(k, b, ops)[1..] == Replies(k, b, ops[1..]);
    }
  }

  /** Reads that reach the end deliver the content from the cursor on, and nothing else. */
  lemma {:induction false} ReadsDeliverRest(k: Backend, b: Body, ops: seq<Op>)
    requires !b.closed && ReadsToEnd(k, b, ops)
    ensures Delivered(k, b, ops) == Suffix(b.content, b.cursor)
  {
    if b.cursor <= |b.content| {
      ReadsDeliverInOrder(k, b, ops);
    } else {
      NothingPastEnd(k, b, ops);
    }
  }

  function Repeated(n: nat, count: nat): seq<Op> {
    seq(count, _ => Read(n))
  }

  /** Reads of any size but zero reach the end, after at most one per byte and one more. */
  lemma {:induction false} ReadsReachEnd(k: Backend, b: Body, n: nat, count: nat)
    requires !b.closed && n > 0 && count > Rest(b)
    ensures ReadsToEnd(k, b, Repeated(n, count))
    decreases count
  {
    var ops := Repeated(n, count);
    assert ops[0] == Read(n) && ops[1..] == Repeated(n, count - 1);
    var next := Perform(k, b, Read(n)).0;
    if Rest(b) == 0 {
      assert Replies(k, b, ops)[0] == EndOfFile;
    } else {
      assert Rest(next) == Rest(b) - ReadSize(k, b, n);
      ReadsReachEnd(k, next, n, count - 1);
      InTail(Replies(k, b, ops), EndOfFile);
    }
  }

  lemma InTail(replies: seq<Reply>, reply: Reply)
    requires replies != [] && reply in replies[1..]
    ensures reply in replies
  {
  }

  /** The position that a seek asks for. */
  function Asked(b: Body, offset: int, whence: Whence): int {
    match whence
    case FromStart => offset
    case FromCurrent => b.cursor + offset
    case FromEnd => |b.content| + offset
  }

  /** The largest position: of 64 bits in memory, of the file system on disk. */
  function Largest(k: Backend): int {
    match k
    case Memory => 0x7fff_ffff_ffff_ffff
    case Disk(maxOffset) => maxOffset
  }

  /** A seek answers the position that is asked for, or fails exactly if there is none, and
      then leaves the body alone; what is read after it is the content from there on. */
  lemma {:induction false} SeekExactly(k: Backend, b: Body, offset: int, whence: Whence, ops: seq<Op>)
    requires !b.closed
    ensures var (next, reply) := Perform(k, b, Seek(offset, whence));
            var p := Asked(b, offset, whence);
            if 0 <= p <= Largest(k)
            then reply == Position(p) && (ReadsToEnd(k, next, ops) ==> Delivered(k, next, ops) == Suffix(b.content, p))
            else reply == BadSeek && next == b
  {
    var next := Perform(k, b, Seek(offset, whence)).0;
    if ReadsToEnd(k, next, ops) {
      ReadsDeliverRest(k, next, ops);
    }
  }

  /** The last `n` bytes are what is read after seeking so far back from the end. */
  lemma {:induction false} LastBytes(k: Backend, b: Body, n: int, ops: seq<Op>)
    requires !b.closed && 0 <= n <= |b.content| && |b.content| - n <= Largest(k)
    requires ReadsToEnd(k, Perform(k, b, Seek(-n, FromEnd)).0, ops)
    ensures Delivered(k, Perform(k, b, Seek(-n, FromEnd)).0, ops) == b.content[|b.content| - n..]
  {
    SeekExactly(k, b, -n, FromEnd, ops);
  }

  /** All bytes at once are what is read after seeking to the start, and the cursor stays. */
  lemma {:induction false} BytesAreRead(k: Backend, b: Body, ops: seq<Op>)
    requires !b.closed && ReadsToEnd(k, Perform(k, b, Seek(0, FromStart)).0, ops)
    ensures Perform(k, b, GetBytes) == (b, Data(Delivered(k, Perform(k, b, Seek(0, FromStart)).0, ops)))
  {
    SeekExactly(k, b, 0, FromStart, ops);
  }

  /** The body that a new reader reads. */
  function ReaderOf(reply: Reply): Body
    requires reply.Reader?
  {
    Fresh(reply.content).(cursor := reply.cursor)
  }

  /** A body gives new readers exactly while it is open and has its name, if it needs one. A
      new reader delivers all bytes, wherever the cursor of the body is, and leaves it there. */
  lemma {:induction false} NewReaderExactly(k: Backend, b: Body, ops: seq<Op>)
    ensures var (next, reply) := Perform(k, b, NewReader);
            && next == b && (reply.Reader? <==> !b.closed && (k.Memory? || b.linked))
            && (reply.Reader? && ReadsToEnd(k, ReaderOf(reply), ops) ==>
                 Perform(k, b, GetBytes).1 == Data(Delivered(k, ReaderOf(reply), ops)))
  {
    var reply := Perform(k, b, NewReader).1;
    if reply.Reader? && ReadsToEnd(k, ReaderOf(reply), ops) {
      ReadsDeliverRest(k, ReaderOf(reply), ops);
    }
  }
}
