/**
 Request bodies kept in memory or in a temporary file (common/body_storage.go): the two
 storages behind one interface, and how a storage is built from a stream.

 A memory storage answers as Go's bytes.Reader does, a disk storage as a regular file
 does. A read returns as much as is asked for and left. The methods hold the storage's
 mutex throughout, so one call at a time is all there is.
 */
module BodyStorage {
  import opened Wrappers

  /** The result of 64-bit signed arithmetic. */
  function Wrap(n: int): Int64 { (n + MAX_INT64 + 1) % (2 * MAX_INT64 + 2) - MAX_INT64 - 1 }

  function Min(a: int, b: int): int { if a < b then a else b }

  function Max(a: int, b: int): int { if a > b then a else b }

  datatype Whence = Start | Current | End

  datatype Op = Read(n: nat) | Seek(offset: Int64, whence: Whence) | Bytes | Close

  datatype Out =
    | Data(bytes: seq<Byte>)   // what a read put into the buffer, without error
    | Eof
    | At(pos: int)
    | Whole(bytes: seq<Byte>)
    | Done
    | Refused                  // a seek to a position that cannot be, or a file that is too short
    | StorageClosed

  datatype Store = Store(data: seq<Byte>, pos: int, closed: bool)

  predicate Valid(s: Store) { |s.data| <= MAX_INT64 && 0 <= s.pos <= MAX_INT64 }

  function Base(s: Store, w: Whence): int {
    match w case Start => 0 case Current => s.pos case End => |s.data|
  }

  // ----- A bytes.Reader -----

  function ReaderRead(s: Store, n: nat): (Store, Out)
    requires Valid(s)
  {
    if s.pos >= |s.data| then (s, Eof)
    else
      var end := Min(s.pos + n, |s.data|);
      (s.(pos := end), Data(s.data[s.pos..end]))
  }

  function ReaderSeek(s: Store, offset: Int64, w: Whence): (Store, Out) {
    var abs := Wrap(Base(s, w) + offset);
    if abs < 0 then (s, Refused) else (s.(pos := abs), At(abs))
  }

  function MemoryStep(s: Store, op: Op): (Store, Out)
    requires Valid(s)
  {
    if op.Close? then (s.(closed := true), Done)
    else if s.closed then (s, StorageClosed)
    else match op
      case Read(n) => ReaderRead(s, n)
      case Seek(o, w) => ReaderSeek(s, o, w)
      case Bytes => (s, Whole(s.data))
  }

  // ----- A file -----

  function FileRead(s: Store, n: nat): (r: (Store, Out))
    requires Valid(s)
    ensures Valid(r.0) && r.0.data == s.data && r.0.closed == s.closed && (r.1.Data? || r.1.Eof?)
    ensures r.1.Data? ==> |r.1.bytes| <= n && (n > 0 ==> 0 < |r.1.bytes|)
  {
    if n == 0 then (s, Data([]))
    else
      var end := Min(s.pos + n, |s.data|);
      if end <= s.pos then (s, Eof) else (s.(pos := end), Data(s.data[s.pos..end]))
  }

  function FileSeek(s: Store, offset: Int64, w: Whence): (r: (Store, Out))
    requires Valid(s)
    ensures Valid(r.0) && r.0.data == s.data && r.0.closed == s.closed
    ensures r.1.Refused? || (r.1.At? && 0 <= r.1.pos <= MAX_INT64)
  {
    var target := Base(s, w) + offset;
    if 0 <= target <= MAX_INT64 then (s.(pos := target), At(target)) else (s, Refused)
  }

  /** io.ReadFull: read until the buffer is full or the file ends. */
  function ReadFull(s: Store, n: nat): (r: (Store, Out))
    requires Valid(s)
    ensures Valid(r.0) && r.0.data == s.data && r.0.closed == s.closed && (r.1.Whole? || r.1.Refused?)
    decreases n
  {
    if n == 0 then (s, Whole([]))
    else
      var (s', out) := FileRead(s, n);
      if out.Eof? then (s', Refused)
      else
        var (s'', rest) := ReadFull(s', n - |out.bytes|);
        Behind(out.bytes, (s'', rest))
  }

  /** What was read already, put before the outcome of reading on. */
  function Behind(all: seq<Byte>, r: (Store, Out)): (Store, Out) {
    if r.1.Whole? then (r.0, Whole(all + r.1.bytes)) else (r.0, Refused)
  }

  lemma BehindNothing(r: (Store, Out))
    requires r.1.Whole? || r.1.Refused?
    ensures Behind([], r) == r
  {
    if r.1.Whole? { assert [] + r.1.bytes == r.1.bytes; }
  }

  lemma BehindBehind(a: seq<Byte>, b: seq<Byte>, r: (Store, Out))
    ensures Behind(a, Behind(b, r)) == Behind(a + b, r)
  {
    if r.1.Whole? { assert a + (b + r.1.bytes) == a + b + r.1.bytes; }
  }

  /** `diskStorage.Bytes`: note the position, rewind, read everything, go back. */
  function FileBytes(s: Store): (Store, Out)
    requires Valid(s)
  {
    var (s1, here) := FileSeek(s, 0, Current);
    if here.Refused? then (s1, Refused)
    else
      var (s2, start) := FileSeek(s1, 0, Start);
      if start.Refused? then (s2, Refused)
      else
        var (s3, all) := ReadFull(s2, |s.data|);
        if all.Refused? then (s3, Refused)
        else
          var (s4, back) := FileSeek(s3, here.pos, Start);
          (s4, if back.Refused? then Refused else all)
  }

  function DiskStep(s: Store, op: Op): (Store, Out)
    requires Valid(s)
  {
    if op.Close? then (s.(closed := true), Done)
    else if s.closed then (s, StorageClosed)
    else match op
      case Read(n) => FileRead(s, n)
      case Seek(o, w) => FileSeek(s, o, w)
      case Bytes => FileBytes(s)
  }

  // ----- The two agree -----

  /** The one call on which they differ: reading nothing at the end, which only a bytes.Reader reports as the end. */
  predicate EmptyReadAtEnd(s: Store, op: Op) { !s.closed && op == Read(0) && s.pos >= |s.data| }

  lemma SeeksAgree(s: Store, o: Int64, w: Whence)
    requires Valid(s)
    ensures ReaderSeek(s, o, w) == FileSeek(s, o, w)
  { }

  lemma BytesIsWhole(s: Store)
    requires Valid(s)
    ensures FileBytes(s) == (s, Whole(s.data))
  {
    var s2 := s.(pos := 0);
    if s.data != [] {
      assert FileRead(s2, |s.data|) == (s.(pos := |s.data|), Data(s.data)) by { assert s.data[0..|s.data|] == s.data; }
      assert ReadFull(s.(pos := |s.data|), 0) == (s.(pos := |s.data|), Whole([]));
      assert s.data + [] == s.data;
    }
  }

  /** Each call leaves both storages alike, and they answer alike unless it is an empty read at the end. */
  lemma StepAgreesIff(s: Store, op: Op)
    requires Valid(s)
    ensures MemoryStep(s, op).0 == DiskStep(s, op).0 && Valid(MemoryStep(s, op).0)
    ensures MemoryStep(s, op).1 == DiskStep(s, op).1 <==> !EmptyReadAtEnd(s, op)
  {
    match op
    case Seek(o, w) => SeeksAgree(s, o, w);
    case Bytes => BytesIsWhole(s);
    case Read(n) => if n == 0 && s.pos < |s.data| { assert s.data[s.pos..s.pos] == []; }
    case Close =>
  }

  /** A new storage over some data. */
  function Fresh(data: seq<Byte>): Store { Store(data, 0, false) }

  function MemoryRun(data: seq<Byte>, ops: seq<Op>): (r: (Store, seq<Out>))
    requires |data| <= MAX_INT64
    ensures Valid(r.0) && |r.1| == |ops|
  {
    if ops == [] then (Fresh(data), [])
    else
      var (s, outs) := MemoryRun(data, ops[..|ops| - 1]);
      StepAgreesIff(s, ops[|ops| - 1]);
      var (s', out) := MemoryStep(s, ops[|ops| - 1]);
      (s', outs + [out])
  }

  function DiskRun(data: seq<Byte>, ops: seq<Op>): (r: (Store, seq<Out>))
    requires |data| <= MAX_INT64
    ensures Valid(r.0) && |r.1| == |ops|
  {
    if ops == [] then (Fresh(data), [])
    else
      var (s, outs) := DiskRun(data, ops[..|ops| - 1]);
      StepAgreesIff(s, ops[|ops| - 1]);
      var (s', out) := DiskStep(s, ops[|ops| - 1]);
      (s', outs + [out])
  }

  /** The call at an index is an empty read at the end. */
  predicate EmptyAt(data: seq<Byte>, ops: seq<Op>, i: nat)
    requires |data| <= MAX_INT64
  {
    i < |ops| && EmptyReadAtEnd(MemoryRun(data, ops[..i]).0, ops[i])
  }

  predicate ReadsNothingAtEnd(data: seq<Byte>, ops: seq<Op>)
    requires |data| <= MAX_INT64
  {
    exists i :: 0 <= i < |ops| && EmptyAt(data, ops, i)
  }

  /** Over every run of calls, the two storages end alike, and answer alike exactly when no call was an empty read at the end. */
  lemma {:induction false} RunsAgreeIff(data: seq<Byte>, ops: seq<Op>)
    requires |data| <= MAX_INT64
    ensures MemoryRun(data, ops).0 == DiskRun(data, ops).0
    ensures MemoryRun(data, ops).1 == DiskRun(data, ops).1 <==> !ReadsNothingAtEnd(data, ops)
  {
    if ops != [] {
      var n := |ops| - 1;
      var init, s := ops[..n], MemoryRun(data, ops[..n]).0;
      RunsAgreeIff(data, init);
      StepAgreesIff(s, ops[n]);
      LastAnswers(data, ops);
      EmptyReadsSnoc(data, ops);
    }
  }

  lemma LastAnswers(data: seq<Byte>, ops: seq<Op>)
    requires |data| <= MAX_INT64 && ops != []
    ensures var n := |ops| - 1; var m, d := MemoryRun(data, ops[..n]), DiskRun(data, ops[..n]);
            MemoryRun(data, ops).1 == DiskRun(data, ops).1 <==> m.1 == d.1 && MemoryStep(m.0, ops[n]).1 == DiskStep(d.0, ops[n]).1
  {
    var n := |ops| - 1;
    var m, d := MemoryRun(data, ops).1, DiskRun(data, ops).1;
    assert m[..n] == MemoryRun(data, ops[..n]).1 && d[..n] == DiskRun(data, ops[..n]).1;
    assert m == m[..n] + [m[n]] && d == d[..n] + [d[n]];
  }

  lemma SameBefore(data: seq<Byte>, ops: seq<Op>, n: nat, i: nat)
    requires |data| <= MAX_INT64 && i < n <= |ops|
    ensures EmptyAt(data, ops[..n], i) == EmptyAt(data, ops, i)
  {
    assert ops[..n][..i] == ops[..i];
  }

  lemma EmptyReadsSnoc(data: seq<Byte>, ops: seq<Op>)
    requires |data| <= MAX_INT64 && ops != []
    ensures ReadsNothingAtEnd(data, ops) <==> ReadsNothingAtEnd(data, ops[..|ops| - 1]) || EmptyAt(data, ops, |ops| - 1)
  {
    var n := |ops| - 1;
    forall i | 0 <= i < n ensures EmptyAt(data, ops[..n], i) == EmptyAt(data, ops, i) { SameBefore(data, ops, n, i); }
  }

  /** In particular they cannot be told apart without empty reads. */
  lemma NonEmptyReadsAgree(data: seq<Byte>, ops: seq<Op>)
    requires |data| <= MAX_INT64 && Op.Read(0) !in ops
    ensures MemoryRun(data, ops) == DiskRun(data, ops)
  {
    RunsAgreeIff(data, ops);
  }

  /** They can be told apart with them: an empty body, read with an empty buffer. */
  lemma EmptyReadTellsThemApart()
    ensures MemoryRun([], [Op.Read(0)]).1 != DiskRun([], [Op.Read(0)]).1
  {
    RunsAgreeIff([], [Op.Read(0)]);
    assert [Op.Read(0)][..0] == [];
    assert EmptyAt([], [Op.Read(0)], 0);
  }

  // ----- Reading a body through -----

  function ReadOps(ns: seq<nat>): seq<Op> {
    if ns == [] then [] else ReadOps(ns[..|ns| - 1]) + [Op.Read(ns[|ns| - 1])]
  }

  /** The bytes a run of calls read, one after the other. */
  function Collected(outs: seq<Out>): seq<Byte> {
    if outs == [] then []
    else
      var last := outs[|outs| - 1];
      Collected(outs[..|outs| - 1]) + if last.Data? then last.bytes else []
  }

  /** Reads of whatever sizes return the body in order, without a gap or a repetition, up to where they get. */
  lemma {:induction false} ReadsPartitionBody(data: seq<Byte>, ns: seq<nat>)
    requires |data| <= MAX_INT64
    ensures var r := MemoryRun(data, ReadOps(ns)); var end := Min(Sum(ns), |data|);
            r.0 == Store(data, end, false) && Collected(r.1) == data[..end]
  {
    if ns != [] {
      var init, n := ns[..|ns| - 1], ns[|ns| - 1];
      ReadsPartitionBody(data, init);
      var ops, pre := ReadOps(ns), MemoryRun(data, ReadOps(init));
      assert ops[..|ops| - 1] == ReadOps(init);
      var outs := MemoryRun(data, ops).1;
      assert outs[..|outs| - 1] == pre.1;
      ReadAfter(data, Min(Sum(init), |data|), n);
    }
  }

  lemma ReadAfter(data: seq<Byte>, pos: nat, n: nat)
    requires pos <= |data| <= MAX_INT64
    ensures var (s, out) := MemoryStep(Store(data, pos, false), Op.Read(n)); var end := Min(pos + n, |data|);
            s == Store(data, end, false) && data[..pos] + (if out.Data? then out.bytes else []) == data[..end]
  {
    var end := Min(pos + n, |data|);
    assert data[..end] == data[..pos] + data[pos..end];
  }

  // ----- Positions -----

  /** The position a seek asks for. */
  function Target(s: Store, o: Int64, w: Whence): int {
    if w == Start then o else if w == Current then s.pos + o else |s.data| + o
  }

  /** A seek of either storage goes where it is asked, from the start, the position or the end, or leaves the position when that cannot be. */
  lemma SeekGoes(s: Store, o: Int64, w: Whence)
    requires Valid(s) && !s.closed
    ensures MemoryStep(s, Seek(o, w)) == if 0 <= Target(s, o, w) <= MAX_INT64 then (s.(pos := Target(s, o, w)), At(Target(s, o, w))) else (s, Refused)
    ensures DiskStep(s, Seek(o, w)) == MemoryStep(s, Seek(o, w))
  {
    SeeksAgree(s, o, w);
  }

  /** A read at or past the end, into a buffer, reports the end. */
  lemma ReadAtEnd(s: Store, n: nat)
    requires Valid(s) && !s.closed && s.pos >= |s.data| && n > 0
    ensures MemoryStep(s, Op.Read(n)) == (s, Eof) && DiskStep(s, Op.Read(n)) == (s, Eof)
  { }

  /** Once closed, a storage refuses everything but another close. */
  lemma ClosedRefuses(s: Store, op: Op)
    requires Valid(s)
    ensures var d := MemoryStep(s, Op.Close).0;
            && MemoryStep(s, Op.Close) == DiskStep(s, Op.Close) == (s.(closed := true), Done)
            && MemoryStep(d, op) == DiskStep(d, op) == (d, if op == Op.Close then Done else StorageClosed)
  { }

  // ----- Building a storage from a stream -----

  /** What the choice of storage depends on; `diskWorks` says whether a cache file can be made and written. */
  datatype Config = Config(enabled: bool, threshold: Int64, maxSize: Int64, usage: Int64, diskWorks: bool)

  /** `IsDiskCacheAvailable`, with the overflow of its addition. */
  predicate Available(c: Config, size: Int64) { c.enabled && Wrap(c.usage + size) <= c.maxSize }

  /** io.LimitReader: at most n bytes, and none for a negative n. */
  function Limited(stream: seq<Byte>, n: Int64): seq<Byte> {
    if n <= 0 then [] else stream[..Min(n, |stream|)]
  }

  datatype Built = Stored(onDisk: bool, data: seq<Byte>) | TooLarge | DiskFailed

  /** `CreateBodyStorage` falls back to memory when the disk does not work. */
  function Build(c: Config, data: seq<Byte>): Built
    requires |data| <= MAX_INT64
  {
    Stored(c.enabled && |data| >= c.threshold && Available(c, |data|) && c.diskWorks, data)
  }

  /** The condition under which `CreateBodyStorageFromReader` streams to disk. */
  predicate Streams(c: Config, contentLength: Int64) {
    c.enabled && contentLength > 0 && contentLength >= c.threshold && Available(c, contentLength)
  }

  /** The settings and the usage may have changed, to `later`, by the time the body is read. */
  function BuildFromReader(c: Config, later: Config, stream: seq<Byte>, contentLength: Int64, maxBytes: Int64): Built {
    if Streams(c, contentLength) && !c.diskWorks then DiskFailed
    else
      var data := Limited(stream, Wrap(maxBytes + 1));
      if |data| > maxBytes then TooLarge
      else if Streams(c, contentLength) then Stored(true, data)
      else Build(later, data)
  }

  /** What is promised: the whole stream if it fits, the error if it does not. */
  predicate Meets(b: Built, stream: seq<Byte>, maxBytes: Int64) {
    if |stream| <= maxBytes then b.Stored? && b.data == stream else b == TooLarge
  }

  /** Unless the disk fails, and whichever way is taken, the promise holds exactly when the limit can be incremented or there is nothing to read. */
  lemma WholeStreamIff(c: Config, later: Config, stream: seq<Byte>, contentLength: Int64, maxBytes: Int64)
    ensures BuildFromReader(c, later, stream, contentLength, maxBytes) == DiskFailed <==> Streams(c, contentLength) && !c.diskWorks
    ensures BuildFromReader(c, later, stream, contentLength, maxBytes) != DiskFailed ==>
              (Meets(BuildFromReader(c, later, stream, contentLength, maxBytes), stream, maxBytes) <==> maxBytes < MAX_INT64 || stream == [])
  {
    if maxBytes < MAX_INT64 {
      assert Wrap(maxBytes + 1) == maxBytes + 1;
      if |stream| <= maxBytes { assert stream[..|stream|] == stream; }
    } else {
      assert Wrap(maxBytes + 1) == -MAX_INT64 - 1;
    }
  }

  /** A body goes to disk exactly when that is enabled and works, the body reaches the threshold and there is room for it. */
  lemma DiskIff(c: Config, data: seq<Byte>)
    requires |data| <= MAX_INT64 && c.usage + |data| <= MAX_INT64
    ensures Build(c, data).data == data
    ensures Build(c, data).onDisk <==> c.enabled && c.diskWorks && |data| >= c.threshold && c.usage + |data| <= c.maxSize
  { }

  /** A stream goes straight to disk exactly when its announced length says so; small bodies stay in memory. */
  lemma StreamsIff(c: Config, later: Config, stream: seq<Byte>, contentLength: Int64, maxBytes: Int64)
    requires 0 <= c.usage && c.usage + contentLength <= MAX_INT64
    ensures Streams(c, contentLength) <==> c.enabled && 0 < contentLength && c.threshold <= contentLength && c.usage + contentLength <= c.maxSize
    ensures contentLength < c.threshold && |stream| < later.threshold && |stream| <= maxBytes < MAX_INT64 ==>
              BuildFromReader(c, later, stream, contentLength, maxBytes) == Stored(false, stream)
  {
    if maxBytes < MAX_INT64 { WholeStreamIff(c, later, stream, contentLength, maxBytes); }
  }

  // ----- The objects -----

  /** The process-wide usage counters and hit counts. */
  class CacheStats {
    var diskFiles: int
    var diskBytes: int
    var memoryBuffers: int
    var memoryBytes: int
    var diskHits: int
    var memoryHits: int

    method IncrementDiskFiles(size: nat)
      modifies this`diskFiles, this`diskBytes
      ensures diskFiles == old(diskFiles) + 1 && diskBytes == old(diskBytes) + size
    {
      diskFiles := diskFiles + 1;
      diskBytes := diskBytes + size;
    }

    method DecrementDiskFiles(size: nat)
      modifies this`diskFiles, this`diskBytes
      ensures diskFiles == Max(old(diskFiles) - 1, 0) && diskBytes == Max(old(diskBytes) - size, 0)
    {
      diskFiles := diskFiles - 1;
      if diskFiles < 0 { diskFiles := 0; }
      diskBytes := diskBytes - size;
      if diskBytes < 0 { diskBytes := 0; }
    }

    method IncrementMemoryBuffers(size: nat)
      modifies this`memoryBuffers, this`memoryBytes
      ensures memoryBuffers == old(memoryBuffers) + 1 && memoryBytes == old(memoryBytes) + size
    {
      memoryBuffers := memoryBuffers + 1;
      memoryBytes := memoryBytes + size;
    }

    method DecrementMemoryBuffers(size: nat)
      modifies this`memoryBuffers, this`memoryBytes
      ensures memoryBuffers == old(memoryBuffers) - 1 && memoryBytes == old(memoryBytes) - size
    {
      memoryBuffers := memoryBuffers - 1;
      memoryBytes := memoryBytes - size;
    }
  }

  class MemoryStorage {
    const data: seq<Byte>
    const stats: CacheStats
    var pos: int
    var closed: bool

    ghost function View(): Store
      reads this
    {
      Store(data, pos, closed)
    }

    constructor (data: seq<Byte>, stats: CacheStats)
      modifies stats`memoryBuffers, stats`memoryBytes
      ensures View() == Fresh(data) && this.stats == stats
      ensures stats.memoryBuffers == old(stats.memoryBuffers) + 1 && stats.memoryBytes == old(stats.memoryBytes) + |data|
    {
      this.data, this.stats, pos, closed := data, stats, 0, false;
      new;
      stats.IncrementMemoryBuffers(|data|);
    }

    method Read(n: nat) returns (out: Out)
      requires Valid(View())
      modifies this`pos
      ensures (View(), out) == MemoryStep(old(View()), Op.Read(n))
    {
      if closed { return StorageClosed; }
      if pos >= |data| { return Eof; }
      var end := if pos + n < |data| then pos + n else |data|;
      out := Data(data[pos..end]);
      pos := end;
    }

    method Seek(offset: Int64, whence: Whence) returns (out: Out)
      requires Valid(View())
      modifies this`pos
      ensures (View(), out) == MemoryStep(old(View()), Op.Seek(offset, whence))
    {
      if closed { return StorageClosed; }
      var abs := match whence case Start => offset case Current => Wrap(pos + offset) case End => Wrap(|data| + offset);
      if abs < 0 { return Refused; }
      pos := abs;
      out := At(abs);
    }

    method Bytes() returns (out: Out)
      requires Valid(View())
      ensures (View(), out) == MemoryStep(old(View()), Op.Bytes)
    {
      if closed { return StorageClosed; }
      out := Whole(data);
    }

    /** The first close alone gives the memory back. */
    method Close() returns (out: Out)
      requires Valid(View())
      modifies this`closed, stats`memoryBuffers, stats`memoryBytes
      ensures (View(), out) == MemoryStep(old(View()), Op.Close)
      ensures stats.memoryBuffers == old(stats.memoryBuffers) - (if old(closed) then 0 else 1)
      ensures stats.memoryBytes == old(stats.memoryBytes) - (if old(closed) then 0 else |data|)
    {
      if !closed {
        closed := true;
        stats.DecrementMemoryBuffers(|data|);
      }
      out := Done;
    }
  }

  /** An open regular file. */
  class File {
    const content: seq<Byte>
    var pos: int

    constructor (content: seq<Byte>)
      ensures this.content == content && pos == 0
    {
      this.content, pos := content, 0;
    }

    ghost function View(): Store
      reads this
    {
      Store(content, pos, false)
    }

    method Read(n: nat) returns (out: Out)
      requires Valid(View())
      modifies this`pos
      ensures (View(), out) == FileRead(old(View()), n)
    {
      if n == 0 { return Data([]); }
      var end := if pos + n < |content| then pos + n else |content|;
      if end <= pos { return Eof; }
      out := Data(content[pos..end]);
      pos := end;
    }

    method Seek(offset: Int64, whence: Whence) returns (out: Out)
      requires Valid(View())
      modifies this`pos
      ensures (View(), out) == FileSeek(old(View()), offset, whence)
    {
      var target := match whence case Start => offset case Current => pos + offset case End => |content| + offset;
      if target < 0 || target > MAX_INT64 { return Refused; }
      pos := target;
      out := At(target);
    }
  }

  class DiskStorage {
    const file: File
    const size: nat
    const stats: CacheStats
    var closed: bool

    ghost predicate Sound()
      reads this, file
    {
      size == |file.content| && Valid(file.View())
    }

    ghost function View(): Store
      reads this, file
    {
      Store(file.content, file.pos, closed)
    }

    constructor (data: seq<Byte>, stats: CacheStats)
      requires |data| <= MAX_INT64
      modifies stats`diskFiles, stats`diskBytes
      ensures Sound() && View() == Fresh(data) && this.stats == stats && fresh(file)
      ensures stats.diskFiles == old(stats.diskFiles) + 1 && stats.diskBytes == old(stats.diskBytes) + |data|
    {
      var f := new File(data);
      file, size, this.stats, closed := f, |data|, stats, false;
      new;
      stats.IncrementDiskFiles(|data|);
    }

    method Read(n: nat) returns (out: Out)
      requires Sound()
      modifies file`pos
      ensures Sound() && (View(), out) == DiskStep(old(View()), Op.Read(n))
    {
      if closed { return StorageClosed; }
      out := file.Read(n);
    }

    method Seek(offset: Int64, whence: Whence) returns (out: Out)
      requires Sound()
      modifies file`pos
      ensures Sound() && (View(), out) == DiskStep(old(View()), Op.Seek(offset, whence))
    {
      if closed { return StorageClosed; }
      out := file.Seek(offset, whence);
    }

    /** io.ReadFull on the file. */
    method ReadAll(n: nat) returns (out: Out)
      requires Sound()
      modifies file`pos
      ensures Sound() && (file.View(), out) == ReadFull(old(file.View()), n)
    {
      var all: seq<Byte> := [];
      BehindNothing(ReadFull(file.View(), n));
      while |all| < n
        invariant |all| <= n && Sound()
        invariant Behind(all, ReadFull(file.View(), n - |all|)) == ReadFull(old(file.View()), n)
      {
        ghost var s := file.View();
        var part := file.Read(n - |all|);
        if part.Eof? { return Refused; }
        BehindBehind(all, part.bytes, ReadFull(file.View(), n - |all| - |part.bytes|));
        assert ReadFull(s, n - |all|) == Behind(part.bytes, ReadFull(file.View(), n - |all| - |part.bytes|));
        all := all + part.bytes;
      }
      assert all + [] == all;
      out := Whole(all);
    }

    method Bytes() returns (out: Out)
      requires Sound()
      modifies file`pos
      ensures Sound() && (View(), out) == DiskStep(old(View()), Op.Bytes)
      ensures !closed ==> View() == old(View()) && out == Whole(file.content)
    {
      if closed { return StorageClosed; }
      BytesIsWhole(file.View());
      var here := file.Seek(0, Current);
      if here.Refused? { return here; }
      var start := file.Seek(0, Start);
      if start.Refused? { return start; }
      out := ReadAll(size);
      if out.Refused? { return out; }
      var back := file.Seek(here.pos, Start);
      if back.Refused? { return back; }
    }

    /** The first close alone removes the file and gives its bytes back. */
    method Close() returns (out: Out)
      requires Sound()
      modifies this`closed, stats`diskFiles, stats`diskBytes
      ensures Sound() && (View(), out) == DiskStep(old(View()), Op.Close)
      ensures stats.diskFiles == if old(closed) then old(stats.diskFiles) else Max(old(stats.diskFiles) - 1, 0)
      ensures stats.diskBytes == if old(closed) then old(stats.diskBytes) else Max(old(stats.diskBytes) - size, 0)
    {
      if !closed {
        closed := true;
        stats.DecrementDiskFiles(size);
      }
      out := Done;
    }
  }

  datatype Storage = InMemory(memory: MemoryStorage) | OnDisk(disk: DiskStorage)

  datatype Created = Created(storage: Storage) | Failed(why: Built)

  /** `CreateBodyStorage` */
  method CreateBodyStorage(data: seq<Byte>, c: Config, stats: CacheStats) returns (r: Storage)
    requires |data| <= MAX_INT64
    modifies stats`diskFiles, stats`diskBytes, stats`memoryBuffers, stats`memoryBytes
    ensures r.OnDisk? == Build(c, data).onDisk
    ensures match r case InMemory(m) => fresh(m) && m.View() == Fresh(data)
                    case OnDisk(d) => fresh(d) && fresh(d.file) && d.Sound() && d.View() == Fresh(data)
    ensures stats.diskFiles == old(stats.diskFiles) + (if r.OnDisk? then 1 else 0)
    ensures stats.diskBytes == old(stats.diskBytes) + (if r.OnDisk? then |data| else 0)
    ensures stats.memoryBuffers == old(stats.memoryBuffers) + (if r.OnDisk? then 0 else 1)
    ensures stats.memoryBytes == old(stats.memoryBytes) + (if r.OnDisk? then 0 else |data|)
  {
    if c.enabled && |data| >= c.threshold && Available(c, |data|) {
      if c.diskWorks {
        var d := new DiskStorage(data, stats);
        return OnDisk(d);
      }
    }
    var m := new MemoryStorage(data, stats);
    r := InMemory(m);
  }

  /** What a successful build counts: a storage of its size, and one hit, of its kind. */
  twostate predicate Booked(stats: CacheStats, onDisk: bool, size: nat)
    reads stats
  {
    && stats.diskFiles == old(stats.diskFiles) + (if onDisk then 1 else 0)
    && stats.diskBytes == old(stats.diskBytes) + (if onDisk then size else 0)
    && stats.diskHits == old(stats.diskHits) + (if onDisk then 1 else 0)
    && stats.memoryBuffers == old(stats.memoryBuffers) + (if onDisk then 0 else 1)
    && stats.memoryBytes == old(stats.memoryBytes) + (if onDisk then 0 else size)
    && stats.memoryHits == old(stats.memoryHits) + (if onDisk then 0 else 1)
  }

  /** `CreateBodyStorageFromReader` */
  method CreateBodyStorageFromReader(stream: seq<Byte>, contentLength: Int64, maxBytes: Int64, c: Config, later: Config, stats: CacheStats)
    returns (r: Created)
    modifies stats
    ensures var b := BuildFromReader(c, later, stream, contentLength, maxBytes);
            match r
            case Failed(why) => why == b && !b.Stored? && unchanged(stats)
            case Created(InMemory(m)) => b == Stored(false, m.data) && fresh(m) && m.View() == Fresh(m.data) && Booked(stats, false, |m.data|)
            case Created(OnDisk(d)) =>
              b == Stored(true, d.file.content) && fresh(d) && fresh(d.file) && d.Sound() && d.View() == Fresh(d.file.content)
              && Booked(stats, true, |d.file.content|)
  {
    if c.enabled && contentLength > 0 && contentLength >= c.threshold && Available(c, contentLength) {
      if !c.diskWorks { return Failed(DiskFailed); }
      var written := Limited(stream, Wrap(maxBytes + 1));
      if |written| > maxBytes { return Failed(TooLarge); }
      var d := new DiskStorage(written, stats);
      stats.diskHits := stats.diskHits + 1;
      return Created(OnDisk(d));
    }
    var data := Limited(stream, Wrap(maxBytes + 1));
    if |data| > maxBytes { return Failed(TooLarge); }
    var s := CreateBodyStorage(data, later, stats);
    if s.InMemory? { stats.memoryHits := stats.memoryHits + 1; } else { stats.diskHits := stats.diskHits + 1; }
    r := Created(s);
  }
}
