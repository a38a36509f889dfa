/** The body of one request, kept for every attempt at relaying it (common/gin.go, lines 36-113;
controller/relay.go, lines 191-211). */
module RequestBody {
  import opened Bytes
  import opened Options
  import opened BodyStorage

  datatype Fetched = Got(storage: Storage) | SeekFailed | NotStored(why: Result) | BodyGone

  /** The request context: the body, the limits that apply to it, and the storage once made. The body can be read
      once: `taken` says that it has been read, or given up, and closed; only a request without a body (`absent`) can
      be read again, as empty. Older code may have left the bytes of the body in the context instead (`cached`). */
  class Context {
    const body: seq<Byte>
    const contentLength: int
    const max: nat
    const forceDisk: bool
    const config: Config
    const usage: Usage
    const cached: Option<seq<Byte>>
    const absent: bool
    var storage: Option<Storage>
    var taken: bool

    constructor (body: seq<Byte>, contentLength: int, max: nat, forceDisk: bool, config: Config, usage: Usage,
                 cached: Option<seq<Byte>>, absent: bool)
      requires absent ==> body == []
      ensures storage == None && !taken && this.body == body && this.max == max && this.usage == usage && this.cached == cached
    {
      this.body, this.contentLength, this.max, this.forceDisk, this.config, this.usage, this.cached, this.absent :=
        body, contentLength, max, forceDisk, config, usage, cached, absent;
      storage, taken := None, false;
    }

    /** The bytes every reader is to see. */
    function Original(): seq<Byte> { if cached.Some? then cached.value else body }

    /** What the storage may change. */
    ghost function Footprint(): set<object>
      reads this
    {
      if storage.None? then {}
      else if storage.value.OnDisk? then {storage.value.d, storage.value.d.file}
      else {storage.value.m}
    }

    /** A stored body is the request's own, whole. */
    ghost predicate Valid()
      reads this, Footprint()
    {
      && this !in Footprint() && usage !in Footprint()
      && (storage.Some? && cached.None? ==> taken && |body| <= max)
      && (absent ==> body == [])
      && (storage.Some? ==>
            && ValidStorage(storage.value)
            && AbsOf(storage.value).data == Original()
            && (storage.value.OnDisk? ==> storage.value.d.usage == usage)
            && (storage.value.InMemory? ==> storage.value.m.usage == usage))
    }

    ghost predicate Open()
      requires Valid()
      reads this, Footprint()
    {
      storage.Some? && !AbsOf(storage.value).closed
    }

    /** One operation on the stored body. */
    method Do(op: Op) returns (a: Answer)
      requires Valid() && storage.Some?
      modifies Footprint(), usage
      ensures Valid() && storage == old(storage) && Footprint() == old(Footprint())
      ensures (AbsOf(storage.value), a) == Step(old(AbsOf(storage.value)), op, storage.value.OnDisk?)
    {
      if storage.value.OnDisk? {
        a := storage.value.d.Do(op);
      } else {
        a := storage.value.m.Do(op);
      }
    }

    /** `GetBodyStorage`: rewind the stored body, or store it the first time. */
    method GetBodyStorage(diskWorks: bool) returns (r: Fetched)
      requires Valid()
      modifies this, Footprint(), usage
      ensures Valid() && fresh(Footprint() - old(Footprint()))
      ensures old(storage).Some? ==> storage == old(storage) && (r.Got? <==> old(Open()))
      ensures old(storage).None? && cached.Some? ==> r.Got?
      ensures old(storage).None? && cached.None? ==>
                (r.Got? <==> (!old(taken) || absent) && Acceptable(|body|, contentLength, max, forceDisk, config, old(usage.diskBytes), diskWorks))
      ensures r.Got? ==> storage == Some(r.storage) && Open() && AbsOf(r.storage) == Store(Original(), 0, false)
      ensures old(storage).None? && !r.Got? ==> storage == None && (r == BodyGone <==> old(taken) && !absent)
      ensures r.SeekFailed? <==> old(storage).Some? && !old(Open())
      ensures taken == (old(taken) || (old(storage).None? && cached.None?))
      ensures r.NotStored? ==> Refused(r.why, |body|, contentLength, max, forceDisk, config, old(usage.diskBytes), diskWorks)
    {
      if storage.Some? {
        var a := Do(Seek(0, FromStart));
        if a.StorageClosed? {
          return SeekFailed;
        }
        return Got(storage.value);
      }
      if cached.Some? {
        var s := Create(cached.value, config, usage, diskWorks);
        storage := Some(s);
        return Got(s);
      }
      if taken && !absent {
        return BodyGone;
      }
      taken := true;
      var created := CreateFromReader(body, contentLength, max, forceDisk, config, usage, diskWorks);
      if !created.Ok? {
        return NotStored(created);
      }
      storage := Some(created.storage);
      return Got(created.storage);
    }

    /** `CleanupBodyStorage`. */
    method Cleanup()
      requires Valid()
      modifies this, Footprint(), usage
      ensures storage == None && Valid() && taken == old(taken)
      ensures old(storage).Some? ==> AbsOf(old(storage).value).closed && AbsOf(old(storage).value).data == Original()
    {
      if storage.Some? {
        var a := Do(Close);
        storage := None;
      }
    }

    /** What one relay attempt reads: everything from the cursor on. */
    method ReadRest() returns (bytes: seq<Byte>)
      requires Valid() && Open()
      modifies Footprint(), usage
      ensures Valid() && Open() && storage == old(storage) && Footprint() == old(Footprint())
      ensures var s := old(AbsOf(storage.value));
              bytes == if s.cursor <= |s.data| then s.data[s.cursor..] else []
    {
      bytes := [];
      ghost var s := AbsOf(storage.value);
      while true
        invariant Valid() && Open() && storage == old(storage) && Footprint() == old(Footprint())
        invariant AbsOf(storage.value).data == s.data && AbsOf(storage.value).cursor == s.cursor + |bytes|
        invariant |bytes| > 0 ==> s.cursor + |bytes| <= |s.data| && bytes == s.data[s.cursor..s.cursor + |bytes|]
        decreases |s.data| - s.cursor - |bytes|
      {
        var a := Do(Read(512));
        if a.EndOfFile? {
          break;
        }
        bytes := bytes + a.bytes;
      }
    }
  }

  predicate Closes(ops: seq<Op>) { exists op :: op in ops && op.Close? }

  /** Every attempt starts from the whole body, whatever the attempts before it read, sought or copied,
      as long as none of them closed the storage. */
  method RelayAttempts(c: Context, attempts: seq<seq<Op>>, diskWorks: bool) returns (bodies: seq<seq<Byte>>, failed: bool)
    requires c.Valid() && (c.storage.Some? ==> c.Open())
    requires forall ops :: ops in attempts ==> !Closes(ops)
    modifies c, c.Footprint(), c.usage
    ensures c.Valid()
    ensures forall b :: b in bodies ==> b == c.Original()
    ensures !failed ==> |bodies| == |attempts|
    ensures failed ==> old(c.storage).None? && bodies == []
  {
    bodies, failed := [], false;
    var i := 0;
    while i < |attempts|
      invariant 0 <= i <= |attempts| && |bodies| == i && !failed
      invariant c.Valid() && (c.storage.Some? ==> c.Open()) && (i > 0 ==> c.storage.Some?)
      invariant old(c.storage).Some? ==> c.storage.Some?
      invariant fresh(c.Footprint() - old(c.Footprint()))
      invariant forall b :: b in bodies ==> b == c.Original()
    {
      var r := c.GetBodyStorage(diskWorks);
      if !r.Got? {
        failed := true;
        return;
      }
      var bytes := c.ReadRest();
      bodies := bodies + [bytes];
      assert attempts[i] in attempts;
      Meddle(c, attempts[i]);
      i := i + 1;
    }
  }

  method Meddle(c: Context, ops: seq<Op>)
    requires c.Valid() && c.Open() && !Closes(ops)
    modifies c.Footprint(), c.usage
    ensures c.Valid() && c.Open() && c.storage == old(c.storage) && c.Footprint() == old(c.Footprint())
  {
    var i := 0;
    while i < |ops|
      invariant 0 <= i <= |ops|
      invariant c.Valid() && c.Open() && c.storage == old(c.storage) && c.Footprint() == old(c.Footprint())
    {
      assert ops[i] in ops;
      var a := c.Do(ops[i]);
      i := i + 1;
    }
  }
}
