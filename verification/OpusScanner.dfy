/** The duration of an Opus file, found by walking the pages of its Ogg container: section 6
    of RFC 3533 for the page, section 4 of RFC 7845 for the granule position, which counts
    samples at 48 kHz.
 */
module OpusScanner {
  import opened Int64
  import opened Text

  const HEADER: nat := 27
  const SAMPLE_RATE: real := 48000.0
  const TWO63: int := 0x8000_0000_0000_0000

  // --------------------------------------------------------------- the bytes

  /** Whether the capture pattern, the letters OggS, starts here. */
  predicate Captures(data: Bytes, i: nat) {
    i + 4 <= |data| && data[i] == 79 && data[i + 1] == 103 && data[i + 2] == 103 && data[i + 3] == 83
  }

  /** The bytes from one position to another as an unsigned integer, lowest byte first. */
  function LittleEndian(data: Bytes, lo: nat, hi: nat): nat
    requires lo <= hi <= |data|
    decreases hi - lo
  {
    if lo == hi then 0 else data[lo] as int + 256 * LittleEndian(data, lo + 1, hi)
  }

  /** Conversion of an unsigned to a signed 64-bit integer. */
  function Signed(n: nat): int {
    if n < TWO63 then n else n - TWO64
  }

  function Granule(data: Bytes, i: nat): int
    requires i + HEADER <= |data|
  {
    Signed(LittleEndian(data, i + 6, i + 14))
  }

  function Sum(data: Bytes, lo: nat, hi: nat): nat
    requires lo <= hi <= |data|
    decreases hi - lo
  {
    if lo == hi then 0 else Sum(data, lo, hi - 1) + data[hi - 1] as int
  }

  function Max(a: int, b: int): int {
    if a >= b then a else b
  }

  // ------------------------------------------------------------- the scanner

  predicate Headers(data: Bytes, starts: seq<nat>) {
    forall k :: 0 <= k < |starts| ==> starts[k] + HEADER <= |data|
  }

  /** The headers that a scan from a position visits. */
  function Visited(data: Bytes, at: nat): (starts: seq<nat>)
    ensures Headers(data, starts)
    decreases if at <= |data| then |data| - at else 0
  {
    if at + HEADER > |data| then []
    else if !Captures(data, at) then Visited(data, at + 1)
    else [at] + if at + HEADER + data[at + 26] as int > |data| then [] else Visited(data, AfterPage(data, at))
  }

  /** Where the page with this header ends by its segment table. */
  function AfterPage(data: Bytes, at: nat): nat
    requires at + HEADER <= |data| && at + HEADER + data[at + 26] as int <= |data|
  {
    var segments := data[at + 26] as int;
    at + HEADER + segments + Sum(data, at + HEADER, at + HEADER + segments)
  }

  /** The largest granule position of these pages, or zero. */
  function MaxGranule(data: Bytes, starts: seq<nat>): (most: int)
    requires Headers(data, starts)
    ensures most >= 0
  {
    if starts == [] then 0 else Max(Granule(data, starts[0]), MaxGranule(data, starts[1..]))
  }

  lemma {:induction false} MaxGranuleIsMax(data: Bytes, starts: seq<nat>)
    requires Headers(data, starts)
    ensures var most := MaxGranule(data, starts);
            && (forall k :: 0 <= k < |starts| ==> most >= Granule(data, starts[k]))
            && (most == 0 || exists k :: 0 <= k < |starts| && most == Granule(data, starts[k]))
  {
    if starts != [] {
      MaxGranuleIsMax(data, starts[1..]);
      var rest := MaxGranule(data, starts[1..]);
      forall k | 0 <= k < |starts|
        ensures MaxGranule(data, starts) >= Granule(data, starts[k])
      {
        assert k > 0 ==> starts[k] == starts[1..][k - 1];
      }
      if rest != 0 && rest > Granule(data, starts[0]) {
        var k :| 0 <= k < |starts[1..]| && rest == Granule(data, starts[1..][k]);
        assert starts[1..][k] == starts[k + 1];
      }
    }
  }

  /** What a scan from a position finds. */
  function Best(data: Bytes, at: nat): (most: int)
    ensures most >= 0
    decreases if at <= |data| then |data| - at else 0
  {
    if at + HEADER > |data| then 0
    else if !Captures(data, at) then Best(data, at + 1)
    else Max(Granule(data, at),
             if at + HEADER + data[at + 26] as int > |data| then 0 else Best(data, AfterPage(data, at)))
  }

  /** The scan finds the largest granule position of the headers it visits. */
  lemma {:induction false} BestOfVisited(data: Bytes, at: nat)
    ensures Best(data, at) == MaxGranule(data, Visited(data, at))
    decreases if at <= |data| then |data| - at else 0
  {
    if at + HEADER <= |data| {
      if !Captures(data, at) {
        BestOfVisited(data, at + 1);
      } else {
        var starts := Visited(data, at);
        assert starts[0] == at;
        if at + HEADER + data[at + 26] as int <= |data| {
          BestOfVisited(data, AfterPage(data, at));
          assert starts[1..] == Visited(data, AfterPage(data, at));
        } else {
          assert MaxGranule(data, starts[1..]) == 0;
        }
      }
    }
  }

  function Duration(data: Bytes): real {
    Best(data, 0) as real / SAMPLE_RATE
  }

  /** What a scan finds whose read of a header may come up short before the end: the scan
      stops there. `short` says of each round whether it does. */
  function Scanned(data: Bytes, at: nat, round: nat, short: nat -> bool): (most: int)
    ensures most >= 0
    decreases if at <= |data| then |data| - at else 0
  {
    if at + HEADER > |data| || short(round) then 0
    else if !Captures(data, at) then Scanned(data, at + 1, round + 1, short)
    else Max(Granule(data, at),
             if at + HEADER + data[at + 26] as int > |data| then 0
             else Scanned(data, AfterPage(data, at), round + 1, short))
  }

  /** Short reads never make the duration longer, and without one it is exact. */
  lemma {:induction false} ShortReads(data: Bytes, at: nat, round: nat, short: nat -> bool)
    ensures Scanned(data, at, round, short) <= Best(data, at)
    ensures (forall k: nat :: !short(k)) ==> Scanned(data, at, round, short) == Best(data, at)
    decreases if at <= |data| then |data| - at else 0
  {
    if at + HEADER <= |data| {
      if !Captures(data, at) {
        ShortReads(data, at + 1, round + 1, short);
      } else if at + HEADER + data[at + 26] as int <= |data| {
        ShortReads(data, AfterPage(data, at), round + 1, short);
      }
    }
  }

  /** The total of a segment table. */
  method PageSize(table: Bytes) returns (size: nat)
    ensures size == Sum(table, 0, |table|)
  {
    size := 0;
    for k := 0 to |table|
      invariant size == Sum(table, 0, k)
    {
      size := size + table[k] as int;
    }
  }

  /** The loop of `getOpusDuration`. It ends because every round moves the position on. */
  method OpusDuration(data: Bytes, short: nat -> bool) returns (duration: real)
    ensures duration == Scanned(data, 0, 0, short) as real / SAMPLE_RATE
  {
    var at, total, round := 0, 0, 0;
    while true
      invariant total >= 0
      invariant Max(total, Scanned(data, at, round, short)) == Scanned(data, 0, 0, short)
      decreases if at <= |data| then |data| - at else 0
    {
      if at + HEADER > |data| || short(round) {
        break;
      }
      round := round + 1;
      at := at + HEADER;
      if !Captures(data, at - HEADER) {
        at := at - (HEADER - 1);
        continue;
      }
      var header := at - HEADER;
      if Granule(data, header) > total {
        total := Granule(data, header);
      }
      var segments := data[header + 26] as int;
      if at + segments > |data| {
        break;
      }
      var size := PageSize(data[at..at + segments]);
      SameSum(data, at, data[at..at + segments], 0, segments);
      at := at + segments + size;
    }
    duration := total as real / SAMPLE_RATE;
  }

  // -------------------------------------------------------------- the format

  /** The bytes of one page: the capture pattern, a header that ends in the number of
      segments, their sizes, and as many bytes as the sizes add up to. */
  predicate IsPage(s: Bytes) {
    && |s| >= HEADER && Captures(s, 0)
    && |s| >= HEADER + s[26] as int
    && |s| == AfterPage(s, 0)
  }

  predicate NoCapture(s: Bytes) {
    forall i: nat :: i < |s| ==> !Captures(s, i)
  }

  /** Pages in a row, each behind a possibly empty stretch that belongs to no page, and what
      follows the last. */
  datatype Stream = End(tail: Bytes) | Chunk(gap: Bytes, page: Bytes, rest: Stream)

  predicate WellFormedStream(t: Stream) {
    match t
    case End(tail) => NoCapture(tail)
    case Chunk(gap, page, rest) => NoCapture(gap) && IsPage(page) && WellFormedStream(rest)
  }

  function Flatten(t: Stream): Bytes {
    match t
    case End(tail) => tail
    case Chunk(gap, page, rest) => gap + page + Flatten(rest)
  }

  /** Where the pages of a stream start. */
  function Starts(t: Stream, at: nat): seq<nat>
    decreases t
  {
    match t
    case End(_) => []
    case Chunk(gap, page, rest) => [at + |gap|] + Starts(rest, at + |gap| + |page|)
  }

  /** The largest of zero and the signed granule positions of the pages. */
  function MaxOf(t: Stream): int
    requires WellFormedStream(t)
  {
    match t
    case End(_) => 0
    case Chunk(_, page, rest) => Max(Granule(page, 0), MaxOf(rest))
  }

  // ------------------------------------------------------ granule positions

  function ToLittleEndian(n: nat, bytes: nat): (s: Bytes)
    ensures |s| == bytes
  {
    if bytes == 0 then [] else [(n % 256) as byte] + ToLittleEndian(n / 256, bytes - 1)
  }

  function Power(k: nat): nat {
    if k == 0 then 1 else 256 * Power(k - 1)
  }

  lemma {:induction false} LittleEndianRoundTrip(n: nat, k: nat, data: Bytes, at: nat)
    requires n < Power(k) && at + k <= |data| && data[at..at + k] == ToLittleEndian(n, k)
    ensures LittleEndian(data, at, at + k) == n
    decreases k
  {
    if k > 0 {
      var s := ToLittleEndian(n, k);
      assert data[at] == data[at..at + k][0] == s[0];
      assert data[at + 1..at + k] == data[at..at + k][1..] == s[1..] == ToLittleEndian(n / 256, k - 1);
      LittleEndianRoundTrip(n / 256, k - 1, data, at + 1);
    }
  }

  // ------------------------------------------------------------- the layout

  predicate NoneBetween(data: Bytes, at: nat, stop: nat) {
    forall i: nat :: at <= i < stop ==> !Captures(data, i)
  }

  /** A page with this granule position lies here. */
  predicate PageAt(data: Bytes, at: nat, next: nat, granule: int) {
    && at + HEADER <= |data| && Captures(data, at)
    && at + HEADER + data[at + 26] as int <= |data|
    && AfterPage(data, at) == next <= |data| && Granule(data, at) == granule
  }

  /** From a position on the data are these pages and nothing else that looks like one. */
  predicate LaidOut(data: Bytes, at: nat, t: Stream)
    requires WellFormedStream(t)
    decreases t
  {
    match t
    case End(_) => NoneBetween(data, at, |data|)
    case Chunk(gap, page, rest) =>
      && NoneBetween(data, at, at + |gap|)
      && PageAt(data, at + |gap|, at + |gap| + |page|, Granule(page, 0))
      && LaidOut(data, at + |gap| + |page|, rest)
  }

  // ------------------------------------------------------- where things stand

  /** The bytes of s stand in the data from a position on. */
  predicate Stands(data: Bytes, at: nat, s: Bytes) {
    at + |s| <= |data| && forall k :: 0 <= k < |s| ==> s[k] == data[at + k]
  }

  lemma {:induction false} SameSum(data: Bytes, at: nat, s: Bytes, lo: nat, hi: nat)
    requires lo <= hi <= |s| && Stands(data, at, s)
    ensures Sum(data, at + lo, at + hi) == Sum(s, lo, hi)
    decreases hi - lo
  {
    if lo < hi {
      SameSum(data, at, s, lo, hi - 1);
      assert s[hi - 1] == data[at + (hi - 1)];
    }
  }

  lemma {:induction false} SameLittleEndian(data: Bytes, at: nat, s: Bytes, lo: nat, hi: nat)
    requires lo <= hi <= |s| && Stands(data, at, s)
    ensures LittleEndian(data, at + lo, at + hi) == LittleEndian(s, lo, hi)
    decreases hi - lo
  {
    if lo < hi {
      SameLittleEndian(data, at, s, lo + 1, hi);
      assert s[lo] == data[at + lo];
    }
  }

  lemma Split(data: Bytes, at: nat, a: Bytes, b: Bytes, c: Bytes)
    requires Stands(data, at, a + b + c)
    ensures Stands(data, at, a) && Stands(data, at + |a|, b) && Stands(data, at + |a| + |b|, c)
  {
    var s := a + b + c;
    assert forall k :: 0 <= k < |a| ==> a[k] == s[k];
    assert forall k :: 0 <= k < |b| ==> b[k] == s[|a| + k];
    assert forall k :: 0 <= k < |c| ==> c[k] == s[|a| + |b| + k];
  }

  /** A page reads the same wherever it stands. */
  lemma PageStands(data: Bytes, page: Bytes, at: nat)
    requires IsPage(page) && Stands(data, at, page)
    ensures PageAt(data, at, at + |page|, Granule(page, 0))
  {
    var n := page[26] as int;
    SameLittleEndian(data, at, page, 6, 14);
    SameSum(data, at, page, HEADER, HEADER + n);
    assert page[0] == data[at + 0] && page[1] == data[at + 1] && page[2] == data[at + 2] && page[3] == data[at + 3];
    assert page[26] == data[at + 26];
  }

  /** No capture pattern starts in a gap, not even one that runs into the next page. */
  lemma GapHasNone(data: Bytes, gap: Bytes, at: nat)
    requires NoCapture(gap) && Stands(data, at, gap)
    requires at + |gap| == |data| || data[at + |gap|] == 79
    ensures NoneBetween(data, at, at + |gap|)
  {
    forall i: nat | at <= i < at + |gap|
      ensures !Captures(data, i)
    {
      assert !Captures(gap, i - at);
      assert gap[i - at] == data[at + (i - at)];
      assert i - at + 1 < |gap| ==> gap[i - at + 1] == data[at + (i - at + 1)];
      assert i - at + 2 < |gap| ==> gap[i - at + 2] == data[at + (i - at + 2)];
      assert i - at + 3 < |gap| ==> gap[i - at + 3] == data[at + (i - at + 3)];
    }
  }

  lemma ChunkStands(data: Bytes, gap: Bytes, page: Bytes, rest: Bytes, at: nat)
    requires NoCapture(gap) && IsPage(page) && Stands(data, at, gap + page + rest)
    ensures NoneBetween(data, at, at + |gap|)
    ensures PageAt(data, at + |gap|, at + |gap| + |page|, Granule(page, 0))
    ensures Stands(data, at + |gap| + |page|, rest)
  {
    Split(data, at, gap, page, rest);
    assert page[0] == data[at + |gap| + 0];
    GapHasNone(data, gap, at);
    PageStands(data, page, at + |gap|);
  }

  lemma {:induction false} StreamStands(data: Bytes, t: Stream, at: nat)
    requires WellFormedStream(t) && Stands(data, at, Flatten(t)) && at + |Flatten(t)| == |data|
    ensures LaidOut(data, at, t)
    decreases t
  {
    match t
    case End(tail) => GapHasNone(data, tail, at);
    case Chunk(gap, page, rest) =>
      ChunkStands(data, gap, page, Flatten(rest), at);
      StreamStands(data, rest, at + |gap| + |page|);
  }

  // ------------------------------------------------------------ what is found

  lemma {:induction false} SkipGap(data: Bytes, at: nat, stop: nat)
    requires at <= stop && stop + HEADER <= |data| && NoneBetween(data, at, stop)
    ensures Visited(data, at) == Visited(data, stop)
    decreases stop - at
  {
    if at < stop {
      SkipGap(data, at + 1, stop);
    }
  }

  lemma {:induction false} NothingLeft(data: Bytes, at: nat)
    requires NoneBetween(data, at, |data|)
    ensures Visited(data, at) == []
    decreases if at <= |data| then |data| - at else 0
  {
    if at + HEADER <= |data| {
      NothingLeft(data, at + 1);
    }
  }

  lemma MaxGranuleCons(data: Bytes, first: nat, rest: seq<nat>)
    requires Headers(data, [first] + rest) && Headers(data, rest) && first + HEADER <= |data|
    ensures MaxGranule(data, [first] + rest) == Max(Granule(data, first), MaxGranule(data, rest))
  {
    var starts := [first] + rest;
    assert starts[0] == first && starts[1..] == rest;
  }

  lemma VisitChunk(data: Bytes, at: nat, start: nat, next: nat, granule: int)
    requires at <= start && NoneBetween(data, at, start) && PageAt(data, start, next, granule)
    ensures Visited(data, at) == [start] + Visited(data, next)
    ensures MaxGranule(data, Visited(data, at)) == Max(granule, MaxGranule(data, Visited(data, next)))
  {
    SkipGap(data, at, start);
    MaxGranuleCons(data, start, Visited(data, next));
  }

  lemma {:induction false} ScanFindsPages(data: Bytes, t: Stream, at: nat)
    requires WellFormedStream(t) && LaidOut(data, at, t)
    ensures Visited(data, at) == Starts(t, at)
    ensures MaxGranule(data, Visited(data, at)) == MaxOf(t)
    decreases t
  {
    match t
    case End(_) => NothingLeft(data, at);
    case Chunk(gap, page, rest) =>
      VisitChunk(data, at, at + |gap|, at + |gap| + |page|, Granule(page, 0));
      ScanFindsPages(data, rest, at + |gap| + |page|);
  }

  /** On any sequence of well-formed pages, with stretches between and after them that hold
      no capture pattern, the scan visits the header of every page and nothing else, and the
      duration is the largest of zero and their signed granule positions, in samples of which
      there are 48000 a second.
   */
  lemma StreamDuration(t: Stream)
    requires WellFormedStream(t)
    ensures Visited(Flatten(t), 0) == Starts(t, 0)
    ensures Duration(Flatten(t)) == MaxOf(t) as real / 48000.0
  {
    var data := Flatten(t);
    StreamStands(data, t, 0);
    ScanFindsPages(data, t, 0);
    BestOfVisited(data, 0);
  }

  // ------------------------------------------------------------ writing pages

  /** A page by its fields; the others are the serial number, the sequence number and the
      checksum. */
  datatype Page = Page(version: byte, flags: byte, position: Bytes, others: Bytes, segments: Bytes, body: Bytes)

  predicate WellFormed(p: Page) {
    |p.position| == 8 && |p.others| == 12 && |p.segments| <= 255 && |p.body| == Sum(p.segments, 0, |p.segments|)
  }

  function Encode(p: Page): Bytes
    requires WellFormed(p)
  {
    [79, 103, 103, 83, p.version, p.flags] + p.position + (p.others + [|p.segments| as byte] + p.segments + p.body)
  }

  /** What is written field by field is a page with the granule position it was given. */
  lemma EncodeIsPage(p: Page)
    requires WellFormed(p)
    ensures IsPage(Encode(p)) && Granule(Encode(p), 0) == Signed(LittleEndian(p.position, 0, 8))
  {
    var s := Encode(p);
    assert Stands(s, 6, p.position);
    assert s[26] as int == |p.segments|;
    assert Stands(s, HEADER, p.segments);
    SameLittleEndian(s, 6, p.position, 0, 8);
    SameSum(s, HEADER, p.segments, 0, |p.segments|);
  }

  lemma PositionReads(position: Bytes, granule: int)
    requires |position| == 8 && -TWO63 <= granule < TWO63 && position == ToLittleEndian(granule % TWO64, |position|)
    ensures Signed(LittleEndian(position, 0, |position|)) == granule
  {
    assert Power(8) == TWO64;
    assert position[0..|position|] == position;
    LittleEndianRoundTrip(granule % TWO64, |position|, position, 0);
  }

  /** Every signed 64-bit granule position is read back as it was written, also the -1 of a
      page on which no packet ends. */
  lemma GranuleRoundTrip(p: Page, granule: int)
    requires WellFormed(p) && -TWO63 <= granule < TWO63
    requires p.position == ToLittleEndian(granule % TWO64, |p.position|)
    ensures IsPage(Encode(p)) && Granule(Encode(p), 0) == granule
  {
    EncodeIsPage(p);
    PositionReads(p.position, granule);
  }
}
