/** What a request body is to its users, whichever backend holds it: content that never
    changes, a cursor, and a closed flag. A body on disk is also a file with a name, which
    a cleanup of old files can take away. The backends differ in two corners of reading, in
    one of seeking, and in new readers after such a cleanup; all are spelled out here.
 */
module BodyModel {
  import opened Int64
  import opened Text

  /** `linked` says that the name is there; a body in memory needs none. */
  datatype Body = Body(content: Bytes, cursor: nat, closed: bool, linked: bool)

  /** A body as it is stored. */
  function Fresh(content: Bytes): Body {
    Body(content, 0, false, true)
  }

  datatype Whence = FromStart | FromCurrent | FromEnd

  datatype Reply =
    | Data(bytes: Bytes)
    | EndOfFile
    | Position(at: nat)
    | BadSeek
    | Reader(cursor: nat, content: Bytes)
    | NoSuchFile
    | Done
    | StorageClosed

  /** The operations of a body, and the cleanup, which is nobody's call on it. */
  datatype Op =
    | Read(n: nat)
    | Seek(offset: int, whence: Whence)
    | GetBytes
    | NewReader
    | Close
    | CleanUp

  /** A backend: the most one read moves, whether an empty read at the end is the end of the
      file, and the largest position a seek can reach. */
  datatype Backend = Memory | Disk(maxOffset: nat)

  /** The most that one read call on a file moves. */
  const MAX_RW: nat := 0x4000_0000

  function Min(a: int, b: int): int {
    if a <= b then a else b
  }

  function Rest(b: Body): nat {
    if b.cursor < |b.content| then |b.content| - b.cursor else 0
  }

  function ReadSize(k: Backend, b: Body, n: nat): (m: nat)
    ensures m <= n && m <= Rest(b)
    ensures n > 0 && Rest(b) > 0 ==> m > 0
  {
    if k.Memory? then Min(n, Rest(b)) else Min(Min(n, MAX_RW), Rest(b))
  }

  function SeekTarget(b: Body, offset: int, whence: Whence): int {
    match whence
    case FromStart => offset
    case FromCurrent => b.cursor + offset
    case FromEnd => |b.content| + offset
  }

  function SeekLimit(k: Backend): nat {
    if k.Memory? then MAX64 else k.maxOffset
  }

  /** One operation on an open or closed body. */
  function Perform(k: Backend, b: Body, op: Op): (Body, Reply) {
    if op.Close? then (b.(closed := true, linked := k.Memory? && b.linked), Done)
    else if op.CleanUp? then (b.(linked := k.Memory? && b.linked), Done)
    else if b.closed then (b, StorageClosed)
    else match op
      case Read(n) =>
        if k.Disk? && n == 0 then (b, Data([]))
        else if Rest(b) == 0 then (b, EndOfFile)
        else
          var m := ReadSize(k, b, n);
          (b.(cursor := b.cursor + m), Data(b.content[b.cursor..b.cursor + m]))
      case Seek(offset, whence) =>
        var target := SeekTarget(b, offset, whence);
        if 0 <= target <= SeekLimit(k) then (b.(cursor := target), Position(target)) else (b, BadSeek)
      case GetBytes => (b, Data(b.content))
      case NewReader => (b, if k.Disk? && !b.linked then NoSuchFile else Reader(0, b.content))
      case _ => (b, Done)
  }

  /** The operations that a file in this state carries out as memory does. */
  predicate Ordinary(maxOffset: nat, b: Body, op: Op) {
    b.closed
    || match op
       case Read(n) => (n > 0 || Rest(b) > 0) && Min(n, Rest(b)) <= MAX_RW
       case Seek(offset, whence) =>
         var target := SeekTarget(b, offset, whence);
         (0 <= target <= MAX64) == (0 <= target <= maxOffset)
       case NewReader => b.linked
       case _ => true
  }

  /** The same body in memory. */
  function InMemory(b: Body): Body {
    b.(linked := true)
  }

  lemma PerformAgreesExactly(maxOffset: nat, b: Body, op: Op)
    ensures Ordinary(maxOffset, b, op) <==> Perform(Memory, InMemory(b), op).1 == Perform(Disk(maxOffset), b, op).1
    ensures Ordinary(maxOffset, b, op) ==>
      Perform(Memory, InMemory(b), op).0 == InMemory(Perform(Disk(maxOffset), b, op).0)
  {
    if op.Read? && !b.closed && Rest(b) > 0 {
      var memory, disk := ReadSize(Memory, b, op.n), ReadSize(Disk(maxOffset), b, op.n);
      assert |b.content[b.cursor..b.cursor + memory]| == memory;
      assert |b.content[b.cursor..b.cursor + disk]| == disk;
    }
  }

  // -------------------------------------------------------------------- runs

  function Replies(k: Backend, b: Body, ops: seq<Op>): seq<Reply>
    decreases |ops|
  {
    if ops == [] then [] else [Perform(k, b, ops[0]).1] + Replies(k, Perform(k, b, ops[0]).0, ops[1..])
  }

  predicate AllOrdinary(maxOffset: nat, b: Body, ops: seq<Op>)
    decreases |ops|
  {
    ops == [] ||
      (Ordinary(maxOffset, b, ops[0]) && AllOrdinary(maxOffset, Perform(Disk(maxOffset), b, ops[0]).0, ops[1..]))
  }

  /** A client can tell a file from memory exactly by an operation that is not ordinary:
      over any sequence of operations, with cleanups at any moment, the replies agree if and
      only if all are ordinary.
   */
  lemma {:induction false} BackendsAgreeExactly(maxOffset: nat, b: Body, ops: seq<Op>)
    ensures Replies(Memory, InMemory(b), ops) == Replies(Disk(maxOffset), b, ops) <==> AllOrdinary(maxOffset, b, ops)
    decreases |ops|
  {
    if ops != [] {
      var m, d := Replies(Memory, InMemory(b), ops), Replies(Disk(maxOffset), b, ops);
      var next := Perform(Disk(maxOffset), b, ops[0]).0;
      PerformAgreesExactly(maxOffset, b, ops[0]);
      BackendsAgreeExactly(maxOffset, next, ops[1..]);
      assert m[0] == Perform(Memory, InMemory(b), ops[0]).1 && d[0] == Perform(Disk(maxOffset), b, ops[0]).1;
      assert d[1..] == Replies(Disk(maxOffset), next, ops[1..]);
      if m[0] == d[0] {
        assert m[1..] == Replies(Memory, InMemory(next), ops[1..]);
      }
    }
  }

  predicate SameButName(b: Body, c: Body) {
    b.content == c.content && b.cursor == c.cursor && b.closed == c.closed
  }

  lemma NameIsHidden(k: Backend, b: Body, c: Body, op: Op)
    requires SameButName(b, c) && !op.NewReader?
    ensures Perform(k, b, op).1 == Perform(k, c, op).1 && SameButName(Perform(k, b, op).0, Perform(k, c, op).0)
  {
  }

  /** Without new readers a cleanup is never noticed, on either backend. */
  lemma {:induction false} CleanupIsHidden(k: Backend, b: Body, c: Body, ops: seq<Op>)
    requires SameButName(b, c) && forall i :: 0 <= i < |ops| ==> !ops[i].NewReader?
    ensures Replies(k, b, ops) == Replies(k, c, ops)
    decreases |ops|
  {
    if ops != [] {
      NameIsHidden(k, b, c, ops[0]);
      CleanupIsHidden(k, Perform(k, b, ops[0]).0, Perform(k, c, ops[0]).0, ops[1..]);
    }
  }

  predicate Differ(maxOffset: nat, b: Body, ops: seq<Op>) {
    Replies(Memory, InMemory(b), ops) != Replies(Disk(maxOffset), b, ops)
  }

  /** An empty read at the end, a read of more than a file delivers at once, a seek past the
      largest position of a file, and a new reader after a cleanup: the four ways to tell the
      backends apart. */
  lemma BackendsDiffer(maxOffset: nat, content: Bytes)
    ensures Differ(maxOffset, Fresh(content).(cursor := |content|), [Read(0)])
    ensures |content| > MAX_RW ==> Differ(maxOffset, Fresh(content), [Read(|content|)])
    ensures maxOffset < MAX64 ==> Differ(maxOffset, Fresh(content), [Seek(MAX64, FromStart)])
    ensures Differ(maxOffset, Fresh(content), [CleanUp, NewReader])
  {
    BackendsAgreeExactly(maxOffset, Fresh(content).(cursor := |content|), [Read(0)]);
    BackendsAgreeExactly(maxOffset, Fresh(content), [Read(|content|)]);
    BackendsAgreeExactly(maxOffset, Fresh(content), [Seek(MAX64, FromStart)]);
    BackendsAgreeExactly(maxOffset, Fresh(content), [CleanUp, NewReader]);
    assert [CleanUp, NewReader][1..] == [NewReader];
  }

  function After(k: Backend, b: Body, ops: seq<Op>): Body
    decreases |ops|
  {
    if ops == [] then b else After(k, Perform(k, b, ops[0]).0, ops[1..])
  }

  predicate Refusable(op: Op) {
    !op.Close? && !op.CleanUp?
  }

  /** Content never changes, and a closed body stays closed, keeps its cursor and answers
      nothing else. */
  lemma {:induction false} ContentIsKept(k: Backend, b: Body, ops: seq<Op>)
    ensures |Replies(k, b, ops)| == |ops|
    ensures After(k, b, ops).content == b.content
    ensures b.closed ==> After(k, b, ops).closed && After(k, b, ops).cursor == b.cursor
    ensures b.closed ==> forall i :: 0 <= i < |ops| && Refusable(ops[i]) ==> Replies(k, b, ops)[i] == StorageClosed
    decreases |ops|
  {
    if ops != [] {
      var next := Perform(k, b, ops[0]).0;
      ContentIsKept(k, next, ops[1..]);
      if b.closed {
        forall i | 0 <= i < |ops| && Refusable(ops[i])
          ensures Replies(k, b, ops)[i] == StorageClosed
        {
          assert i > 0 ==> Replies(k, b, ops)[i] == Replies(k, next, ops[1..])[i - 1] && ops[i] == ops[1..][i - 1];
        }
      }
    }
  }

  function Payload(reply: Reply): Bytes {
    if reply.Data? then reply.bytes else []
  }

  function Received(replies: seq<Reply>): Bytes {
    if replies == [] then [] else Payload(replies[0]) + Received(replies[1..])
  }

  predicate AllReads(ops: seq<Op>) {
    forall i :: 0 <= i < |ops| ==> ops[i].Read?
  }

  lemma ReadDelivers(k: Backend, b: Body, n: nat)
    requires !b.closed && b.cursor <= |b.content|
    ensures var (next, reply) := Perform(k, b, Read(n));
            && next == b.(cursor := next.cursor) && b.cursor <= next.cursor <= |b.content|
            && Payload(reply) == b.content[b.cursor..next.cursor]
  {
  }

  lemma {:induction false} ReadsAdvance(k: Backend, b: Body, ops: seq<Op>)
    requires AllReads(ops) && !b.closed && b.cursor <= |b.content|
    ensures b.cursor <= After(k, b, ops).cursor <= |b.content|
    ensures EndOfFile in Replies(k, b, ops) ==> After(k, b, ops).cursor == |b.content|
    decreases |ops|
  {
    if ops != [] {
      assert ops[0].Read?;
      ReadsAdvance(k, Perform(k, b, ops[0]).0, ops[1..]);
    }
  }

  /** Any series of reads delivers the content from the cursor on, in order and without a
      gap, and after an end of file nothing is missing.
   */
  lemma {:induction false} ReadsDeliverInOrder(k: Backend, b: Body, ops: seq<Op>)
    requires AllReads(ops) && !b.closed && b.cursor <= |b.content|
    ensures b.cursor <= After(k, b, ops).cursor <= |b.content|
    ensures Received(Replies(k, b, ops)) == b.content[b.cursor..After(k, b, ops).cursor]
    ensures EndOfFile in Replies(k, b, ops) ==> After(k, b, ops).cursor == |b.content|
    decreases |ops|
  {
    ReadsAdvance(k, b, ops);
    if ops != [] {
      assert ops[0].Read?;
      ReadDelivers(k, b, ops[0].n);
      var next := Perform(k, b, ops[0]).0;
      ReadsDeliverInOrder(k, next, ops[1..]);
      assert Replies(k, b, ops)[1..] == Replies(k, next, ops[1..]);
      SlicesJoin(b.content, b.cursor, next.cursor, After(k, b, ops).cursor);
    }
  }

  lemma SlicesJoin(s: Bytes, i: nat, j: nat, k: nat)
    requires i <= j <= k <= |s|
    ensures s[i..j] + s[j..k] == s[i..k]
  {
  }
}
