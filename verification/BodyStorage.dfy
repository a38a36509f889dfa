/** Request bodies kept in memory or in a temporary file (common/body_storage.go, common/gin.go,
common/disk_cache_config.go). Both kinds of storage refine one abstract seekable byte string. */
module BodyStorage {
  import opened Bytes

  // ---------------------------------------------------------------- the abstract store

  datatype Store = Store(data: seq<Byte>, cursor: nat, closed: bool)

  datatype Whence = FromStart | FromCursor | FromEnd

  datatype Op =
    | Read(count: nat)
    | Seek(offset: int, whence: Whence)
    | AllBytes
    | Close

  datatype Answer =
    | Data(bytes: seq<Byte>)
    | EndOfFile
    | At(position: int)
    | BadSeek
    | StorageClosed
    | Closed
    | Failed

  function Min(a: int, b: int): int { if a < b then a else b }

  function SeekTarget(s: Store, offset: int, whence: Whence): int {
    match whence
    case FromStart => offset
    case FromCursor => s.cursor + offset
    case FromEnd => |s.data| + offset
  }

  /** What a caller of any storage sees; only an empty read at the end tells the two kinds apart. */
  function Step(s: Store, op: Op, emptyReadIsFine: bool): (Store, Answer) {
    if op.Close? then (s.(closed := true), Closed)
    else if s.closed then (s, StorageClosed)
    else
      match op
      case Read(count) =>
        if emptyReadIsFine && count == 0 then (s, Data([]))
        else if s.cursor >= |s.data| then (s, EndOfFile)
        else
          var n := Min(count, |s.data| - s.cursor);
          (s.(cursor := s.cursor + n), Data(s.data[s.cursor..s.cursor + n]))
      case Seek(offset, whence) =>
        var target := SeekTarget(s, offset, whence);
        if target < 0 then (s, BadSeek) else (s.(cursor := target), At(target))
      case AllBytes => (s, Data(s.data))
  }

  const IN_MEMORY := false
  const ON_DISK := true

  // ---------------------------------------------------------------- usage counters

  class Usage {
    var diskFiles: int
    var diskBytes: int
    var memoryBuffers: int
    var memoryBytes: int

    constructor ()
      ensures diskFiles == 0 && diskBytes == 0 && memoryBuffers == 0 && memoryBytes == 0
    {
      diskFiles, diskBytes, memoryBuffers, memoryBytes := 0, 0, 0, 0;
    }

    method IncrementDiskFiles(size: nat)
      modifies this
      ensures diskFiles == old(diskFiles) + 1 && diskBytes == old(diskBytes) + size
      ensures memoryBuffers == old(memoryBuffers) && memoryBytes == old(memoryBytes)
    {
      diskFiles := diskFiles + 1;
      diskBytes := diskBytes + size;
    }

    /** Never leaves a counter below zero. */
    method DecrementDiskFiles(size: nat)
      modifies this
      ensures diskFiles == Clamp(old(diskFiles) - 1) && diskBytes == Clamp(old(diskBytes) - size)
      ensures memoryBuffers == old(memoryBuffers) && memoryBytes == old(memoryBytes)
    {
      diskFiles := diskFiles - 1;
      if diskFiles < 0 {
        diskFiles := 0;
      }
      diskBytes := diskBytes - size;
      if diskBytes < 0 {
        diskBytes := 0;
      }
    }

    method IncrementMemoryBuffers(size: nat)
      modifies this
      ensures memoryBuffers == old(memoryBuffers) + 1 && memoryBytes == old(memoryBytes) + size
      ensures diskFiles == old(diskFiles) && diskBytes == old(diskBytes)
    {
      memoryBuffers := memoryBuffers + 1;
      memoryBytes := memoryBytes + size;
    }

    method DecrementMemoryBuffers(size: nat)
      modifies this
      ensures memoryBuffers == old(memoryBuffers) - 1 && memoryBytes == old(memoryBytes) - size
      ensures diskFiles == old(diskFiles) && diskBytes == old(diskBytes)
    {
      memoryBuffers := memoryBuffers - 1;
      memoryBytes := memoryBytes - size;
    }
  }

  function Clamp(n: int): int { if n < 0 then 0 else n }

  // ---------------------------------------------------------------- storage in memory

  class MemoryStorage {
    const data: seq<Byte>
    var cursor: nat
    var closed: bool
    const usage: Usage

    ghost function Abs(): Store reads this { Store(data, cursor, closed) }

    constructor (data: seq<Byte>, usage: Usage)
      modifies usage
      ensures Abs() == Store(data, 0, false) && this.usage == usage
      ensures usage.memoryBuffers == old(usage.memoryBuffers) + 1 && usage.memoryBytes == old(usage.memoryBytes) + |data|
      ensures usage.diskFiles == old(usage.diskFiles) && usage.diskBytes == old(usage.diskBytes)
    {
      this.data, cursor, closed, this.usage := data, 0, false, usage;
      new;
      usage.IncrementMemoryBuffers(|data|);
    }

    method Do(op: Op) returns (a: Answer)
      modifies this, usage
      ensures (Abs(), a) == Step(old(Abs()), op, IN_MEMORY)
      ensures usage.memoryBuffers == old(usage.memoryBuffers) - (if op.Close? && !old(closed) then 1 else 0)
      ensures usage.memoryBytes == old(usage.memoryBytes) - (if op.Close? && !old(closed) then |data| else 0)
      ensures usage.diskFiles == old(usage.diskFiles) && usage.diskBytes == old(usage.diskBytes)
    {
      match op
      case Read(count) => a := ReadSome(count);
      case Seek(offset, whence) => a := SeekTo(offset, whence);
      case AllBytes => a := if closed then StorageClosed else Data(data);
      case Close =>
        if !closed {
          closed := true;
          usage.DecrementMemoryBuffers(|data|);
        }
        a := Closed;
    }

    method ReadSome(count: nat) returns (a: Answer)
      modifies this
      ensures (Abs(), a) == Step(old(Abs()), Read(count), IN_MEMORY)
    {
      if closed {
        return StorageClosed;
      }
      if cursor >= |data| {
        return EndOfFile;
      }
      var n := Min(count, |data| - cursor);
      a := Data(data[cursor..cursor + n]);
      cursor := cursor + n;
    }

    method SeekTo(offset: int, whence: Whence) returns (a: Answer)
      modifies this
      ensures (Abs(), a) == Step(old(Abs()), Seek(offset, whence), IN_MEMORY)
    {
      if closed {
        return StorageClosed;
      }
      var target := match whence case FromStart => offset case FromCursor => cursor + offset case FromEnd => |data| + offset;
      if target < 0 {
        return BadSeek;
      }
      cursor := target;
      return At(target);
    }
  }

  // ---------------------------------------------------------------- storage on disk

  /** An open file: its contents and the offset of the next read. */
  class File {
    var contents: seq<Byte>
    var offset: nat

    constructor (contents: seq<Byte>)
      ensures this.contents == contents && offset == 0
    {
      this.contents, offset := contents, 0;
    }

    method Read(count: nat) returns (a: Answer)
      modifies this
      ensures contents == old(contents)
      ensures count == 0 ==> a == Data([]) && offset == old(offset)
      ensures count > 0 && old(offset) >= |contents| ==> a == EndOfFile && offset == old(offset)
      ensures count > 0 && old(offset) < |contents| ==>
                var n := Min(count, |contents| - old(offset));
                a == Data(contents[old(offset)..old(offset) + n]) && offset == old(offset) + n
    {
      if count == 0 {
        return Data([]);
      }
      if offset >= |contents| {
        return EndOfFile;
      }
      var n := Min(count, |contents| - offset);
      a := Data(contents[offset..offset + n]);
      offset := offset + n;
    }

    method Seek(by_: int, whence: Whence) returns (a: Answer)
      modifies this
      ensures contents == old(contents)
      ensures var target := SeekTarget(Store(contents, old(offset), false), by_, whence);
              if target < 0 then a == BadSeek && offset == old(offset) else a == At(target) && offset == target
    {
      var target := match whence case FromStart => by_ case FromCursor => offset + by_ case FromEnd => |contents| + by_;
      if target < 0 {
        return BadSeek;
      }
      offset := target;
      return At(target);
    }

    /** `io.ReadFull`: reads until `count` bytes have come, or gives up at the end. */
    method ReadFull(count: nat) returns (bytes: seq<Byte>, ok: bool)
      modifies this
      ensures contents == old(contents)
      ensures ok <==> count == 0 || old(offset) + count <= |contents|
      ensures ok && count > 0 ==> bytes == contents[old(offset)..old(offset) + count] && offset == old(offset) + count
      ensures ok && count == 0 ==> bytes == [] && offset == old(offset)
    {
      bytes := [];
      while |bytes| < count
        invariant contents == old(contents)
        invariant |bytes| <= count && offset == old(offset) + |bytes|
        invariant |bytes| > 0 ==> offset <= |contents| && bytes == contents[old(offset)..offset]
        decreases count - |bytes|
      {
        var a := Read(count - |bytes|);
        if a.EndOfFile? {
          return bytes, false;
        }
        bytes := bytes + a.bytes;
      }
      ok := true;
    }
  }

  /** The step of reading a whole file at which the file system fails; `got` bytes may have been read by then. */
  datatype Fault = NoFault | AtTell | AtRewind | AtRead(got: nat) | AtReturn

  class DiskStorage {
    const file: File
    const size: nat
    var closed: bool
    const usage: Usage

    ghost predicate Valid() reads this, file { size == |file.contents| }

    ghost function Abs(): Store reads this, file { Store(file.contents, file.offset, closed) }

    constructor (data: seq<Byte>, usage: Usage)
      modifies usage
      ensures Valid() && Abs() == Store(data, 0, false) && this.usage == usage && fresh(file)
      ensures usage.diskFiles == old(usage.diskFiles) + 1 && usage.diskBytes == old(usage.diskBytes) + |data|
      ensures usage.memoryBuffers == old(usage.memoryBuffers) && usage.memoryBytes == old(usage.memoryBytes)
    {
      file := new File(data);
      size, closed, this.usage := |data|, false, usage;
      new;
      usage.IncrementDiskFiles(|data|);
    }

    method Do(op: Op) returns (a: Answer)
      requires Valid()
      modifies this, file, usage
      ensures Valid()
      ensures (Abs(), a) == Step(old(Abs()), op, ON_DISK)
      ensures usage.memoryBuffers == old(usage.memoryBuffers) && usage.memoryBytes == old(usage.memoryBytes)
      ensures op.Close? && !old(closed) ==>
                usage.diskFiles == Clamp(old(usage.diskFiles) - 1) && usage.diskBytes == Clamp(old(usage.diskBytes) - size)
      ensures !(op.Close? && !old(closed)) ==>
                usage.diskFiles == old(usage.diskFiles) && usage.diskBytes == old(usage.diskBytes)
    {
      if op.Close? {
        if !closed {
          closed := true;
          usage.DecrementDiskFiles(size);
        }
        return Closed;
      }
      if closed {
        return StorageClosed;
      }
      match op
      case Read(count) => a := file.Read(count);
      case Seek(offset, whence) => a := file.Seek(offset, whence);
      case AllBytes => a := WholeFile(NoFault);
    }

    /** Reads the file from its start and goes back to where it was. When the file system fails, the cursor is where it
        was exactly if it failed before the rewind took effect, or happens to have stopped there. */
    method WholeFile(fault: Fault) returns (a: Answer)
      requires Valid() && !closed && (fault.AtRead? ==> fault.got <= size)
      modifies file
      ensures file.contents == old(file.contents)
      ensures a == if fault.NoFault? then Data(file.contents) else Failed
      ensures file.offset == match fault
                             case NoFault => old(file.offset)
                             case AtTell => old(file.offset)
                             case AtRewind => old(file.offset)
                             case AtRead(got) => got
                             case AtReturn => size
    {
      if fault.AtTell? {
        return Failed;
      }
      var current := file.Seek(0, FromCursor);
      if fault.AtRewind? {
        return Failed;
      }
      var start := file.Seek(0, FromStart);
      if fault.AtRead? {
        var part, some := file.ReadFull(fault.got);
        return Failed;
      }
      var data, ok := file.ReadFull(size);
      if fault.AtReturn? {
        return Failed;
      }
      var back := file.Seek(current.position, FromStart);
      assert size > 0 ==> data == file.contents[0..size];
      a := Data(data);
    }
  }

  // ---------------------------------------------------------------- the two kinds look alike

  /** The kinds of storage answer alike except for an empty read with nothing left. */
  lemma KindsAgreeIff(s: Store, op: Op)
    ensures Step(s, op, IN_MEMORY) == Step(s, op, ON_DISK)
            <==> !(op.Read? && op.count == 0 && !s.closed && s.cursor >= |s.data|)
  {
    if op.Read? && op.count == 0 && !s.closed && s.cursor < |s.data| {
      assert s.data[s.cursor..s.cursor + 0] == [];
    }
  }

  /** All answers to a sequence of operations. */
  function Answers(s: Store, ops: seq<Op>, emptyReadIsFine: bool): seq<Answer>
    decreases ops
  {
    if ops == [] then []
    else
      var (s', a) := Step(s, ops[0], emptyReadIsFine);
      [a] + Answers(s', ops[1..], emptyReadIsFine)
  }

  /** The bytes that a sequence of answers brings, one after the other. */
  function Gathered(answers: seq<Answer>): seq<Byte> {
    if answers == [] then [] else (if answers[0].Data? then answers[0].bytes else []) + Gathered(answers[1..])
  }

  function Reads(counts: seq<nat>): seq<Op> {
    if counts == [] then [] else [Read(counts[0])] + Reads(counts[1..])
  }

  function Total(counts: seq<nat>): nat {
    if counts == [] then 0 else counts[0] + Total(counts[1..])
  }

  /** The bytes from one position on, `count` of them if there are so many. */
  function Stretch(data: seq<Byte>, from: nat, count: nat): seq<Byte> {
    if from >= |data| then [] else data[from..Min(from + count, |data|)]
  }

  lemma StretchSplits(data: seq<Byte>, from: nat, a: nat, b: nat)
    ensures Stretch(data, from, a + b) == Stretch(data, from, a) + Stretch(data, from + |Stretch(data, from, a)|, b)
  {
  }

  lemma ConsecutiveStep(s: Store, count: nat, rest: seq<Op>, more: nat, emptyReadIsFine: bool)
    requires !s.closed
    requires var s' := Step(s, Read(count), emptyReadIsFine).0;
             Gathered(Answers(s', rest, emptyReadIsFine)) == Stretch(s.data, s'.cursor, more)
    ensures Gathered(Answers(s, [Read(count)] + rest, emptyReadIsFine)) == Stretch(s.data, s.cursor, count + more)
  {
    FirstRead(s, count, emptyReadIsFine);
    GatheredStep(s, Read(count), rest, emptyReadIsFine);
    StretchSplits(s.data, s.cursor, count, more);
  }

  lemma GatheredStep(s: Store, op: Op, rest: seq<Op>, emptyReadIsFine: bool)
    ensures var (s', a) := Step(s, op, emptyReadIsFine);
            Gathered(Answers(s, [op] + rest, emptyReadIsFine))
            == (if a.Data? then a.bytes else []) + Gathered(Answers(s', rest, emptyReadIsFine))
  {
    OneAnswer(s, op, rest, emptyReadIsFine);
    GatheredCons(Step(s, op, emptyReadIsFine).1, Answers(Step(s, op, emptyReadIsFine).0, rest, emptyReadIsFine));
  }

  /** However a body is cut into reads, they bring its bytes in order from the cursor on, none twice and none left out. */
  lemma {:induction false} ReadsAreConsecutive(s: Store, counts: seq<nat>, emptyReadIsFine: bool)
    requires !s.closed
    ensures Gathered(Answers(s, Reads(counts), emptyReadIsFine)) == Stretch(s.data, s.cursor, Total(counts))
    decreases counts
  {
    if counts != [] {
      FirstRead(s, counts[0], emptyReadIsFine);
      ReadsAreConsecutive(Step(s, Read(counts[0]), emptyReadIsFine).0, counts[1..], emptyReadIsFine);
      ConsecutiveStep(s, counts[0], Reads(counts[1..]), Total(counts[1..]), emptyReadIsFine);
    }
  }

  lemma GatheredCons(a: Answer, rest: seq<Answer>)
    ensures Gathered([a] + rest) == (if a.Data? then a.bytes else []) + Gathered(rest)
  {
    assert ([a] + rest)[1..] == rest;
  }

  lemma FirstRead(s: Store, count: nat, emptyReadIsFine: bool)
    requires !s.closed
    ensures var (s', a) := Step(s, Read(count), emptyReadIsFine);
            var bytes := if a.Data? then a.bytes else [];
            bytes == Stretch(s.data, s.cursor, count) && s' == s.(cursor := s.cursor + |bytes|)
  {
  }

  /** Seeking back from the end and reading brings the last bytes. */
  lemma LastBytes(s: Store, k: nat, emptyReadIsFine: bool)
    requires !s.closed && 0 < k <= |s.data|
    ensures Answers(s, [Seek(0 - k, FromEnd), Read(k)], emptyReadIsFine) == [At(|s.data| - k), Data(s.data[|s.data| - k..])]
  {
    OneAnswer(s, Seek(0 - k, FromEnd), [Read(k)], emptyReadIsFine);
    OneAnswer(s.(cursor := |s.data| - k), Read(k), [], emptyReadIsFine);
    assert s.data[|s.data| - k..|s.data|] == s.data[|s.data| - k..];
  }

  /** A seek to before the start fails, from wherever it counts, and nothing that follows can tell that it was tried. */
  lemma BadSeekMovesNothing(s: Store, offset: int, whence: Whence, ops: seq<Op>, emptyReadIsFine: bool)
    requires !s.closed && offset < 0 && (whence.FromCursor? ==> s.cursor < -offset) && (whence.FromEnd? ==> |s.data| < -offset)
    ensures Answers(s, [Seek(offset, whence)] + ops, emptyReadIsFine) == [BadSeek] + Answers(s, ops, emptyReadIsFine)
  {
    OneAnswer(s, Seek(offset, whence), ops, emptyReadIsFine);
  }

  /** Telling, rewinding, reading everything and seeking back brings the whole body and leaves the storage as it was. */
  lemma RewindReadReturn(s: Store, emptyReadIsFine: bool)
    requires !s.closed && s.data != []
    ensures var ops := [Seek(0, FromCursor), Seek(0, FromStart), Read(|s.data|), Seek(s.cursor, FromStart)];
            Answers(s, ops, emptyReadIsFine) == [At(s.cursor), At(0), Data(s.data), At(s.cursor)]
  {
    var back := Seek(s.cursor, FromStart);
    assert s.data[0..|s.data|] == s.data;
    OneAnswer(s, Seek(0, FromCursor), [Seek(0, FromStart), Read(|s.data|), back], emptyReadIsFine);
    OneAnswer(s, Seek(0, FromStart), [Read(|s.data|), back], emptyReadIsFine);
    OneAnswer(s.(cursor := 0), Read(|s.data|), [back], emptyReadIsFine);
    OneAnswer(s.(cursor := |s.data|), back, [], emptyReadIsFine);
  }

  lemma OneAnswer(s: Store, op: Op, rest: seq<Op>, emptyReadIsFine: bool)
    ensures var (s', a) := Step(s, op, emptyReadIsFine);
            Answers(s, [op] + rest, emptyReadIsFine) == [a] + Answers(s', rest, emptyReadIsFine)
  {
    assert ([op] + rest)[1..] == rest;
  }

  /** Once closed, a storage answers nothing any more, however often it is closed. */
  lemma {:induction false} ClosedForGood(s: Store, ops: seq<Op>, emptyReadIsFine: bool)
    requires s.closed
    ensures |Answers(s, ops, emptyReadIsFine)| == |ops|
    ensures forall i :: 0 <= i < |ops| ==> Answers(s, ops, emptyReadIsFine)[i] == if ops[i].Close? then Closed else StorageClosed
    decreases ops
  {
    if ops != [] { ClosedForGood(Step(s, ops[0], emptyReadIsFine).0, ops[1..], emptyReadIsFine); }
  }

  predicate NoEmptyReads(ops: seq<Op>) { forall op :: op in ops ==> !(op.Read? && op.count == 0) }

  /** Over any sequence of non-empty reads, seeks, whole reads and closes nobody can tell memory from disk. */
  lemma {:induction false} KindsAgree(s: Store, ops: seq<Op>)
    requires NoEmptyReads(ops)
    ensures Answers(s, ops, IN_MEMORY) == Answers(s, ops, ON_DISK)
    decreases ops
  {
    if ops != [] {
      assert ops[0] in ops;
      KindsAgreeIff(s, ops[0]);
      KindsAgree(Step(s, ops[0], IN_MEMORY).0, ops[1..]);
    }
  }

  lemma OneMoreAnswer(sofar: seq<Answer>, s: Store, ops: seq<Op>, i: nat)
    requires i < |ops|
    ensures var (s', a) := Step(s, ops[i], IN_MEMORY);
            sofar + Answers(s, ops[i..], IN_MEMORY) == (sofar + [a]) + Answers(s', ops[i + 1..], IN_MEMORY)
  {
    assert ops[i..][0] == ops[i] && ops[i..][1..] == ops[i + 1..];
  }

  /** The same operations on a storage of each kind, side by side. */
  method SideBySide(m: MemoryStorage, d: DiskStorage, ops: seq<Op>) returns (fromMemory: seq<Answer>, fromDisk: seq<Answer>)
    requires d.Valid() && m.Abs() == d.Abs() && NoEmptyReads(ops)
    modifies m, d, m.usage, d.usage, d.file
    ensures fromMemory == fromDisk == Answers(old(m.Abs()), ops, IN_MEMORY)
    ensures m.Abs() == d.Abs()
  {
    fromMemory, fromDisk := [], [];
    var i := 0;
    while i < |ops|
      invariant 0 <= i <= |ops|
      invariant d.Valid() && m.Abs() == d.Abs() && fromMemory == fromDisk
      invariant fromMemory + Answers(m.Abs(), ops[i..], IN_MEMORY) == Answers(old(m.Abs()), ops, IN_MEMORY)
    {
      KindsAgreeIff(m.Abs(), ops[i]);
      OneMoreAnswer(fromMemory, m.Abs(), ops, i);
      var a := m.Do(ops[i]);
      var b := d.Do(ops[i]);
      fromMemory, fromDisk := fromMemory + [a], fromDisk + [b];
      i := i + 1;
    }
  }

  // ---------------------------------------------------------------- creating a storage

  datatype Config = Config(enabled: bool, threshold: nat, maxBytes: nat)

  datatype Storage = InMemory(m: MemoryStorage) | OnDisk(d: DiskStorage)

  datatype Result = Ok(storage: Storage) | CapacityExceeded | BodyTooLarge | DiskFailed

  ghost predicate ValidStorage(s: Storage)
    reads if s.OnDisk? then {s.d, s.d.file} else {}
  {
    s.OnDisk? ==> s.d.Valid()
  }

  ghost function AbsOf(s: Storage): Store
    reads if s.OnDisk? then {s.d, s.d.file} else {s.m}
  {
    if s.OnDisk? then s.d.Abs() else s.m.Abs()
  }

  /** Large enough for the disk, and room for it there. */
  predicate FitsOnDisk(length: nat, config: Config, diskBytes: int, diskWorks: bool) {
    config.enabled && length >= config.threshold && diskBytes + length <= config.maxBytes && diskWorks
  }

  /** `CreateBodyStorage`; `diskWorks` says whether the file could be written. */
  method Create(data: seq<Byte>, config: Config, usage: Usage, diskWorks: bool) returns (s: Storage)
    modifies usage
    ensures ValidStorage(s) && AbsOf(s) == Store(data, 0, false)
    ensures s.OnDisk? <==> FitsOnDisk(|data|, config, old(usage.diskBytes), diskWorks)
    ensures s.OnDisk? ==> fresh(s.d) && fresh(s.d.file) && s.d.usage == usage
    ensures s.InMemory? ==> fresh(s.m) && s.m.usage == usage
    ensures usage.diskBytes == old(usage.diskBytes) + (if s.OnDisk? then |data| else 0)
    ensures usage.diskFiles == old(usage.diskFiles) + (if s.OnDisk? then 1 else 0)
    ensures usage.memoryBytes == old(usage.memoryBytes) + (if s.OnDisk? then 0 else |data|)
    ensures usage.memoryBuffers == old(usage.memoryBuffers) + (if s.OnDisk? then 0 else 1)
  {
    if config.enabled && |data| >= config.threshold && usage.diskBytes + |data| <= config.maxBytes && diskWorks {
      var d := new DiskStorage(data, usage);
      return OnDisk(d);
    }
    var m := new MemoryStorage(data, usage);
    return InMemory(m);
  }

  /** What `LimitReader(body, max + 1)` lets through. */
  function Limited(body: seq<Byte>, max: nat): seq<Byte> { body[..Min(|body|, max + 1)] }

  function Reserved(contentLength: int, max: nat): int { if contentLength <= 0 then max else contentLength }

  predicate UsesDisk(contentLength: int, forceDisk: bool, config: Config) {
    forceDisk || (config.enabled && contentLength > 0 && contentLength >= config.threshold)
  }

  /** Why a body is refused: no room for what it may need, no file, or too long. */
  predicate Refused(why: Result, length: nat, contentLength: int, max: nat, forceDisk: bool,
                    config: Config, diskBytes: int, diskWorks: bool) {
    var disk := UsesDisk(contentLength, forceDisk, config);
    var room := diskBytes + Reserved(contentLength, max) <= config.maxBytes;
    match why
    case Ok(_) => false
    case CapacityExceeded => disk && !room
    case DiskFailed => disk && room && !diskWorks
    case BodyTooLarge => length > max && (disk ==> room && diskWorks)
  }

  predicate Acceptable(length: nat, contentLength: int, max: nat, forceDisk: bool,
                       config: Config, diskBytes: int, diskWorks: bool) {
    && !Refused(CapacityExceeded, length, contentLength, max, forceDisk, config, diskBytes, diskWorks)
    && !Refused(DiskFailed, length, contentLength, max, forceDisk, config, diskBytes, diskWorks)
    && !Refused(BodyTooLarge, length, contentLength, max, forceDisk, config, diskBytes, diskWorks)
  }

  /** `CreateBodyStorageFromReader`. */
  method CreateFromReader(body: seq<Byte>, contentLength: int, max: nat, forceDisk: bool,
                          config: Config, usage: Usage, diskWorks: bool) returns (r: Result)
    modifies usage
    ensures r.Ok? ==> |body| <= max && ValidStorage(r.storage) && AbsOf(r.storage) == Store(body, 0, false)
    ensures r.Ok? && r.storage.OnDisk? ==> fresh(r.storage.d) && fresh(r.storage.d.file) && r.storage.d.usage == usage
    ensures r.Ok? && r.storage.InMemory? ==> fresh(r.storage.m) && r.storage.m.usage == usage
    ensures r.Ok? ==> (r.storage.OnDisk? <==> UsesDisk(contentLength, forceDisk, config)
                                              || FitsOnDisk(|body|, config, old(usage.diskBytes), diskWorks))
    ensures usage.diskBytes == old(usage.diskBytes) + (if r.Ok? && r.storage.OnDisk? then |body| else 0)
    ensures usage.diskFiles == old(usage.diskFiles) + (if r.Ok? && r.storage.OnDisk? then 1 else 0)
    ensures usage.memoryBytes == old(usage.memoryBytes) + (if r.Ok? && r.storage.InMemory? then |body| else 0)
    ensures usage.memoryBuffers == old(usage.memoryBuffers) + (if r.Ok? && r.storage.InMemory? then 1 else 0)
    ensures r == CapacityExceeded <==> Refused(CapacityExceeded, |body|, contentLength, max, forceDisk, config, old(usage.diskBytes), diskWorks)
    ensures r == DiskFailed <==> Refused(DiskFailed, |body|, contentLength, max, forceDisk, config, old(usage.diskBytes), diskWorks)
    ensures r == BodyTooLarge <==> Refused(BodyTooLarge, |body|, contentLength, max, forceDisk, config, old(usage.diskBytes), diskWorks)
    ensures r.Ok? && r.storage.OnDisk? ==>
              (UsesDisk(contentLength, forceDisk, config) && old(usage.diskBytes) + Reserved(contentLength, max) <= config.maxBytes)
              || old(usage.diskBytes) + |body| <= config.maxBytes
  {
    var reserved := if contentLength <= 0 then max else contentLength;
    if forceDisk || (config.enabled && contentLength > 0 && contentLength >= config.threshold) {
      if usage.diskBytes + reserved > config.maxBytes {
        return CapacityExceeded;
      }
      if !diskWorks {
        return DiskFailed;
      }
      var written := Limited(body, max);
      if |written| > max {
        return BodyTooLarge;
      }
      assert written == body;
      var d := new DiskStorage(written, usage);
      return Ok(OnDisk(d));
    }
    var data := Limited(body, max);
    if |data| > max {
      return BodyTooLarge;
    }
    assert data == body;
    var s := Create(data, config, usage, diskWorks);
    return Ok(s);
  }
}
