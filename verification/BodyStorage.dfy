/** The two backends of a request body and the choice between them. Every operation of
    either refines the same operation of the abstract body, and the counters of the cache
    follow creation and the first close.
 */
module BodyStorage {
  import opened Int64
  import opened Options
  import opened Text
  import opened BodyModel

  // ------------------------------------------------------------ Go's readers

  /** `bytes.Reader` */
  class BytesReader {
    const data: Bytes
    var index: nat

    ghost predicate Valid()
      reads this
    {
      |data| <= MAX64 && index <= MAX64
    }

    function View(): Body
      reads this
    {
      Body(data, index, false, true)
    }

    constructor (data: Bytes)
      requires |data| <= MAX64
      ensures Valid() && this.data == data && index == 0
    {
      this.data, index := data, 0;
    }

    method Read(n: nat) returns (reply: Reply)
      requires Valid()
      modifies this
      ensures Valid() && (View(), reply) == Perform(Memory, old(View()), Op.Read(n))
    {
      if index >= |data| {
        return EndOfFile;
      }
      var m := if n <= |data| - index then n else |data| - index;
      reply := Data(data[index..index + m]);
      index := index + m;
    }

    /** The sum is computed in 64 bits: one that overflows turns negative and is refused. */
    method Seek(offset: int, whence: Whence) returns (reply: Reply)
      requires Valid() && Is64(offset)
      modifies this
      ensures Valid() && (View(), reply) == Perform(Memory, old(View()), Op.Seek(offset, whence))
    {
      var base := match whence case FromStart => 0 case FromCurrent => index case FromEnd => |data|;
      var absolute := Wrap(base + offset);
      if absolute < 0 {
        return BadSeek;
      }
      index := absolute;
      reply := Position(absolute);
    }
  }

  /** A file on disk; its content outlives its name while a descriptor is open. */
  class Inode {
    var content: Bytes
    var linked: bool

    constructor ()
      ensures content == [] && linked
    {
      content, linked := [], true;
    }
  }

  /** `os.File`: a descriptor with its own position. */
  class File {
    const inode: Inode
    const maxOffset: nat
    var position: nat
    var open: bool

    ghost predicate Valid()
      reads this, inode
    {
      open && position <= maxOffset && |inode.content| <= maxOffset
    }

    ghost function View(): Body
      reads this, inode
    {
      Body(inode.content, position, false, inode.linked)
    }

    constructor (inode: Inode, maxOffset: nat)
      ensures this.inode == inode && this.maxOffset == maxOffset && position == 0 && open
    {
      this.inode, this.maxOffset, position, open := inode, maxOffset, 0, true;
    }

    method Append(data: Bytes)
      requires open && position == |inode.content|
      modifies this`position, inode`content
      ensures inode.content == old(inode.content) + data && position == |inode.content|
    {
      inode.content := inode.content + data;
      position := |inode.content|;
    }

    method Read(n: nat) returns (reply: Reply)
      requires Valid()
      modifies this`position
      ensures Valid() && (View(), reply) == Perform(Disk(maxOffset), old(View()), Op.Read(n))
    {
      if n == 0 {
        return Data([]);
      }
      if position >= |inode.content| {
        return EndOfFile;
      }
      var m := Min(Min(n, MAX_RW), |inode.content| - position);
      reply := Data(inode.content[position..position + m]);
      position := position + m;
    }

    method Seek(offset: int, whence: Whence) returns (reply: Reply)
      requires Valid()
      modifies this`position
      ensures Valid() && (View(), reply) == Perform(Disk(maxOffset), old(View()), Op.Seek(offset, whence))
    {
      var base := match whence case FromStart => 0 case FromCurrent => position case FromEnd => |inode.content|;
      if base + offset < 0 || base + offset > maxOffset {
        return BadSeek;
      }
      position := base + offset;
      reply := Position(position);
    }

    /** `io.ReadFull`: reads until the buffer is full or the file ends. */
    method ReadFull(n: nat) returns (data: Bytes, full: bool)
      requires Valid() && position <= |inode.content|
      modifies this`position
      ensures Valid() && position == old(position) + |data| && position <= |inode.content|
      ensures data == inode.content[old(position)..position]
      ensures full == (|data| == n)
      ensures full <==> old(position) + n <= |inode.content|
    {
      data, full := [], true;
      while |data| < n
        invariant Valid() && |data| <= n && full
        invariant position == old(position) + |data| && position <= |inode.content|
        invariant data == inode.content[old(position)..position]
        decreases n - |data|
      {
        ghost var before := View();
        var reply := Read(n - |data|);
        ReadDelivers(Disk(maxOffset), before, n - |data|);
        if !reply.Data? {
          full := false;
          break;
        }
        SlicesJoin(inode.content, old(position), before.cursor, position);
        data := data + reply.bytes;
      }
    }
  }

  // ---------------------------------------------------------------- counters

  class CacheStats {
    var diskFiles: int
    var diskBytes: int
    var memoryBuffers: int
    var memoryBytes: int
    var diskHits: int
    var memoryHits: int

    method IncrementDiskFiles(size: int)
      modifies this`diskFiles, this`diskBytes
      ensures diskFiles == Wrap(old(diskFiles) + 1) && diskBytes == Wrap(old(diskBytes) + size)
    {
      diskFiles := Wrap(diskFiles + 1);
      diskBytes := Wrap(diskBytes + size);
    }

    /** Unlike the memory counters these never stay below zero. */
    method DecrementDiskFiles(size: int)
      modifies this`diskFiles, this`diskBytes
      ensures diskFiles == AtLeastZero(Wrap(old(diskFiles) - 1))
              && diskBytes == AtLeastZero(Wrap(old(diskBytes) - size))
    {
      diskFiles := Wrap(diskFiles - 1);
      if diskFiles < 0 {
        diskFiles := 0;
      }
      diskBytes := Wrap(diskBytes - size);
      if diskBytes < 0 {
        diskBytes := 0;
      }
    }

    method IncrementMemoryBuffers(size: int)
      modifies this`memoryBuffers, this`memoryBytes
      ensures memoryBuffers == Wrap(old(memoryBuffers) + 1) && memoryBytes == Wrap(old(memoryBytes) + size)
    {
      memoryBuffers := Wrap(memoryBuffers + 1);
      memoryBytes := Wrap(memoryBytes + size);
    }

    method DecrementMemoryBuffers(size: int)
      modifies this`memoryBuffers, this`memoryBytes
      ensures memoryBuffers == Wrap(old(memoryBuffers) - 1) && memoryBytes == Wrap(old(memoryBytes) - size)
    {
      memoryBuffers := Wrap(memoryBuffers - 1);
      memoryBytes := Wrap(memoryBytes - size);
    }
  }

  // ---------------------------------------------------------------- backends

  class MemoryStorage {
    const data: Bytes
    const reader: BytesReader
    const size: int
    const stats: CacheStats
    var closed: bool

    ghost predicate Valid()
      reads this, reader
    {
      reader.Valid() && reader.data == data && size == |data|
    }

    ghost function View(): Body
      reads this, reader
    {
      Body(data, reader.index, closed, true)
    }

    constructor (data: Bytes, stats: CacheStats)
      requires |data| <= MAX64
      modifies stats`memoryBuffers, stats`memoryBytes
      ensures Valid() && fresh(reader) && View() == Fresh(data) && this.stats == stats
      ensures stats.memoryBuffers == Wrap(old(stats.memoryBuffers) + 1)
      ensures stats.memoryBytes == Wrap(old(stats.memoryBytes) + |data|)
    {
      this.data, size, this.stats, closed := data, |data|, stats, false;
      reader := new BytesReader(data);
      new;
      stats.IncrementMemoryBuffers(|data|);
    }

    method Read(n: nat) returns (reply: Reply)
      requires Valid()
      modifies reader
      ensures Valid() && (View(), reply) == Perform(Memory, old(View()), Op.Read(n))
    {
      if closed {
        return StorageClosed;
      }
      reply := reader.Read(n);
    }

    method Seek(offset: int, whence: Whence) returns (reply: Reply)
      requires Valid() && Is64(offset)
      modifies reader
      ensures Valid() && (View(), reply) == Perform(Memory, old(View()), Op.Seek(offset, whence))
    {
      if closed {
        return StorageClosed;
      }
      reply := reader.Seek(offset, whence);
    }

    method GetBytes() returns (reply: Reply)
      requires Valid()
      ensures (View(), reply) == Perform(Memory, View(), Op.GetBytes)
    {
      reply := if closed then StorageClosed else Data(data);
    }

    /** The reader has its own cursor: what is done with it leaves the storage alone, and
        closing the storage leaves the reader alone. */
    method NewReader() returns (reply: Reply, r: BytesReader?)
      requires Valid()
      ensures (View(), reply) == Perform(Memory, View(), Op.NewReader)
      ensures r != null <==> reply.Reader?
      ensures r != null ==> fresh(r) && r.Valid() && r.index == reply.cursor && r.data == reply.content
    {
      if closed {
        return StorageClosed, null;
      }
      r := new BytesReader(data);
      reply := Reader(0, data);
    }

    /** Only the first close gives the memory back. */
    method Close()
      requires Valid()
      modifies this`closed, stats`memoryBuffers, stats`memoryBytes
      ensures Valid() && View() == Perform(Memory, old(View()), Op.Close).0
      ensures stats.memoryBuffers ==
        if old(closed) then old(stats.memoryBuffers) else Wrap(old(stats.memoryBuffers) - 1)
      ensures stats.memoryBytes == if old(closed) then old(stats.memoryBytes) else Wrap(old(stats.memoryBytes) - size)
    {
      if !closed {
        closed := true;
        stats.DecrementMemoryBuffers(size);
      }
    }
  }

  class DiskStorage {
    const file: File
    const inode: Inode
    const size: int
    const stats: CacheStats
    var closed: bool

    /** The storage has its descriptor exactly while it is open, and the file its name at most
        that long. */
    ghost predicate Valid()
      reads this, file, inode
    {
      && file.inode == inode && size == |inode.content|
      && file.position <= file.maxOffset && |inode.content| <= file.maxOffset
      && file.open == !closed && (closed ==> !inode.linked)
    }

    ghost function View(): Body
      reads this, file, inode
    {
      Body(inode.content, file.position, closed, inode.linked)
    }

    constructor (data: Bytes, maxOffset: nat, stats: CacheStats)
      requires |data| <= maxOffset
      modifies stats`diskFiles, stats`diskBytes
      ensures Valid() && fresh(file) && fresh(inode) && View() == Fresh(data)
      ensures this.stats == stats && file.maxOffset == maxOffset
      ensures stats.diskFiles == Wrap(old(stats.diskFiles) + 1)
      ensures stats.diskBytes == Wrap(old(stats.diskBytes) + |data|)
    {
      var created := new Inode();
      var descriptor := new File(created, maxOffset);
      descriptor.Append(data);
      var _ := descriptor.Seek(0, FromStart);
      inode, file, size, this.stats, closed := created, descriptor, |data|, stats, false;
      new;
      stats.IncrementDiskFiles(|data|);
    }

    method Read(n: nat) returns (reply: Reply)
      requires Valid()
      modifies file`position
      ensures Valid() && (View(), reply) == Perform(Disk(file.maxOffset), old(View()), Op.Read(n))
    {
      if closed {
        return StorageClosed;
      }
      reply := file.Read(n);
    }

    method Seek(offset: int, whence: Whence) returns (reply: Reply)
      requires Valid()
      modifies file`position
      ensures Valid() && (View(), reply) == Perform(Disk(file.maxOffset), old(View()), Op.Seek(offset, whence))
    {
      if closed {
        return StorageClosed;
      }
      reply := file.Seek(offset, whence);
    }

    /** The position is saved, the file read from its start, and the position restored. */
    method GetBytes() returns (reply: Reply)
      requires Valid()
      modifies file`position
      ensures Valid() && (View(), reply) == Perform(Disk(file.maxOffset), old(View()), Op.GetBytes)
    {
      if closed {
        return StorageClosed;
      }
      var current := file.Seek(0, FromCurrent);
      var _ := file.Seek(0, FromStart);
      var data, _ := file.ReadFull(size);
      assert data == inode.content;
      var _ := file.Seek(current.at, FromStart);
      reply := Data(data);
    }

    /** A second descriptor of the same file, opened by its name. */
    method NewReader() returns (reply: Reply, r: File?)
      requires Valid()
      ensures (View(), reply) == Perform(Disk(file.maxOffset), View(), Op.NewReader)
      ensures r != null <==> reply.Reader?
      ensures r != null ==> fresh(r) && r.Valid() && r.inode == inode && r.position == reply.cursor
                            && inode.content == reply.content
    {
      if closed {
        return StorageClosed, null;
      }
      if !inode.linked {
        return NoSuchFile, null;
      }
      r := new File(inode, file.maxOffset);
      reply := Reader(0, inode.content);
    }

    /** The cleanup of old cache files comes to this one: it loses its name, open or not, and
        the counters go down although the storage is still there. */
    method CleanUp()
      requires Valid()
      modifies inode`linked, stats`diskFiles, stats`diskBytes
      ensures Valid() && View() == Perform(Disk(file.maxOffset), old(View()), Op.CleanUp).0
      ensures stats.diskFiles ==
        if old(inode.linked) then AtLeastZero(Wrap(old(stats.diskFiles) - 1)) else old(stats.diskFiles)
      ensures stats.diskBytes ==
        if old(inode.linked) then AtLeastZero(Wrap(old(stats.diskBytes) - size)) else old(stats.diskBytes)
    {
      if inode.linked {
        inode.linked := false;
        stats.DecrementDiskFiles(size);
      }
    }

    /** The name goes and the content stays, for the readers that are still open. */
    method Close()
      requires Valid()
      modifies this`closed, file`open, inode`linked, stats`diskFiles, stats`diskBytes
      ensures Valid() && View() == Perform(Disk(file.maxOffset), old(View()), Op.Close).0
      ensures stats.diskFiles ==
        if old(closed) then old(stats.diskFiles) else AtLeastZero(Wrap(old(stats.diskFiles) - 1))
      ensures stats.diskBytes ==
        if old(closed) then old(stats.diskBytes) else AtLeastZero(Wrap(old(stats.diskBytes) - size))
    {
      if !closed {
        closed := true;
        file.open := false;
        inode.linked := false;
        stats.DecrementDiskFiles(size);
      }
    }
  }

  // ---------------------------------------------------------------- creation

  datatype Config = Config(enabled: bool, thresholdMB: int, maxSizeMB: int)

  datatype Storage = InMemory(memory: MemoryStorage) | OnDisk(disk: DiskStorage)

  datatype Creation = Created(storage: Storage) | TooLarge | ReadFailed | DiskFailed

  /** A request body as it arrives; after its last byte a read may fail. */
  datatype Source = Source(bytes: Bytes, fails: bool)

  function Megabytes(n: int): int {
    Wrap(n * 0x10_0000)
  }

  /** Whether a body of this size goes to disk, given what the disk holds. */
  predicate UsesDisk(c: Config, diskBytes: int, size: int) {
    c.enabled && size >= Megabytes(c.thresholdMB) && Wrap(diskBytes + size) <= Megabytes(c.maxSizeMB)
  }

  /** As long as nothing overflows, a body goes to disk exactly if the cache is on, the body
      has at least the threshold in megabytes, and with it the disk holds no more than its
      maximum. */
  lemma UsesDiskExactly(c: Config, diskBytes: int, size: int)
    requires Is64(diskBytes + size) && Is64(c.thresholdMB * 1048576) && Is64(c.maxSizeMB * 1048576)
    ensures UsesDisk(c, diskBytes, size) <==>
      c.enabled && c.thresholdMB * 1048576 <= size && diskBytes + size <= c.maxSizeMB * 1048576
  {
    WrapIs64(diskBytes + size);
    WrapIs64(c.thresholdMB * 1048576);
    WrapIs64(c.maxSizeMB * 1048576);
  }

  /** The new storage is the abstract body with this content and the cursor at its start. */
  ghost predicate Holds(s: Storage, data: Bytes)
    reads match s case InMemory(m) => {m, m.reader} case OnDisk(d) => {d, d.file, d.inode}
  {
    match s
    case InMemory(m) => m.Valid() && m.View() == Fresh(data)
    case OnDisk(d) => d.Valid() && d.View() == Fresh(data)
  }

  /** `diskFails` stands for a cache file that cannot be created or written. */
  method CreateBodyStorage(c: Config, stats: CacheStats, data: Bytes, diskFails: bool, maxOffset: nat)
    returns (s: Storage)
    requires |data| <= MAX64 && |data| <= maxOffset
    modifies stats
    ensures Holds(s, data)
    ensures s.OnDisk? <==> UsesDisk(c, old(stats.diskBytes), |data|) && !diskFails
    ensures stats.diskHits == old(stats.diskHits) && stats.memoryHits == old(stats.memoryHits)
    ensures if s.OnDisk? then
              stats.memoryBytes == old(stats.memoryBytes) && stats.memoryBuffers == old(stats.memoryBuffers)
            else stats.memoryBytes == Wrap(old(stats.memoryBytes) + |data|)
                 && stats.memoryBuffers == Wrap(old(stats.memoryBuffers) + 1)
    ensures if s.OnDisk? then
              stats.diskBytes == Wrap(old(stats.diskBytes) + |data|)
              && stats.diskFiles == Wrap(old(stats.diskFiles) + 1)
            else stats.diskBytes == old(stats.diskBytes) && stats.diskFiles == old(stats.diskFiles)
  {
    var size := |data|;
    if c.enabled && size >= Megabytes(c.thresholdMB) && Wrap(stats.diskBytes + size) <= Megabytes(c.maxSizeMB) {
      if diskFails {
        var m := new MemoryStorage(data, stats);
        return InMemory(m);
      }
      var d := new DiskStorage(data, maxOffset, stats);
      return OnDisk(d);
    }
    var m := new MemoryStorage(data, stats);
    s := InMemory(m);
  }

  /** What a reader limited to n bytes delivers; nothing when n is not positive. */
  function Limited(stream: Bytes, n: int): Bytes {
    if n <= 0 then [] else if |stream| <= n then stream else stream[..n]
  }

  datatype Admission = Admitted(data: Bytes) | Refused | Broken

  /** The body as it is read: up to one byte past the limit, computed in 64 bits. A failure
      beyond that is never seen. */
  function Admit(source: Source, maxBytes: int): Admission {
    var limit := Wrap(maxBytes + 1);
    var taken := Limited(source.bytes, limit);
    if source.fails && |source.bytes| < limit then Broken
    else if |taken| > maxBytes then Refused
    else Admitted(taken)
  }

  /** What the limit promises. */
  function Promised(source: Source, maxBytes: int): Admission {
    if |source.bytes| > maxBytes then Refused else if source.fails then Broken else Admitted(source.bytes)
  }

  /** The body is stored whole when it is within the limit and complete, refused when it is
      longer and broken when it breaks off, for every limit but the largest 64-bit integer:
      there one past the limit is negative and any body is stored as an empty one.
   */
  lemma AdmissionExactly(source: Source, maxBytes: int)
    requires Is64(maxBytes)
    ensures Admit(source, maxBytes) == Promised(source, maxBytes)
            <==> (maxBytes != MAX64 || source == Source([], false))
    ensures maxBytes == MAX64 ==> Admit(source, maxBytes) == Admitted([])
  {
    WrapIs64(maxBytes + 1);
    assert maxBytes == MAX64 ==> Wrap(maxBytes + 1) == -MAX64 - 1;
  }

  /** The limit that the gateway computes from a number of megabytes is never that one. */
  lemma MegabyteLimit(source: Source, megabytes: int)
    ensures Is64(Megabytes(megabytes)) && Megabytes(megabytes) != MAX64
    ensures Admit(source, Megabytes(megabytes)) == Promised(source, Megabytes(megabytes))
  {
    WrapIs64(megabytes * 0x10_0000);
    var q := (megabytes * 0x10_0000 + MAX64 + 1) / TWO64;
    assert Megabytes(megabytes) == 0x10_0000 * (megabytes - q * 0x1000_0000_0000);
    AdmissionExactly(source, Megabytes(megabytes));
  }

  /** The backend never shows in what is stored. A failure of the disk or of the stream on its
      way to the disk is an error, because the stream is used up.
   */
  method CreateBodyStorageFromReader(
    c: Config, stats: CacheStats, source: Source, contentLength: int, maxBytes: int, diskFails: bool, maxOffset: nat)
    returns (r: Creation)
    requires Is64(contentLength) && Is64(maxBytes) && |source.bytes| <= MAX64 && |source.bytes| <= maxOffset
    modifies stats
    ensures var direct := contentLength > 0 && UsesDisk(c, old(stats.diskBytes), contentLength);
            && (r.DiskFailed? <==> direct && (diskFails || Admit(source, maxBytes).Broken?))
            && (r.ReadFailed? <==> !direct && Admit(source, maxBytes).Broken?)
            && (r.TooLarge? <==> !(direct && diskFails) && Admit(source, maxBytes).Refused?)
    ensures r.Created? ==> Holds(r.storage, Admit(source, maxBytes).data)
    ensures stats.diskHits ==
      if r.Created? && r.storage.OnDisk? then Wrap(old(stats.diskHits) + 1) else old(stats.diskHits)
    ensures stats.memoryHits == if r.Created? && r.storage.InMemory? then Wrap(old(stats.memoryHits) + 1)
                                else old(stats.memoryHits)
  {
    var limit := Wrap(maxBytes + 1);
    var taken := Limited(source.bytes, limit);
    var broken := source.fails && |source.bytes| < limit;
    if c.enabled && contentLength > 0 && contentLength >= Megabytes(c.thresholdMB)
       && Wrap(stats.diskBytes + contentLength) <= Megabytes(c.maxSizeMB)
    {
      if diskFails || broken {
        return DiskFailed;
      }
      if |taken| > maxBytes {
        return TooLarge;
      }
      var d := new DiskStorage(taken, maxOffset, stats);
      stats.diskHits := Wrap(stats.diskHits + 1);
      return Created(OnDisk(d));
    }
    if broken {
      return ReadFailed;
    }
    if |taken| > maxBytes {
      return TooLarge;
    }
    var s := CreateBodyStorage(c, stats, taken, diskFails, maxOffset);
    if s.InMemory? {
      stats.memoryHits := Wrap(stats.memoryHits + 1);
    } else {
      stats.diskHits := Wrap(stats.diskHits + 1);
    }
    r := Created(s);
  }
}
