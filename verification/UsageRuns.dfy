/** The usage counters over whole runs of creations and closes (common/body_storage.go, lines 37-45, 65-72,
100-196 and 241-307; common/disk_cache_config.go, lines 108-134 and 177-184).

A creation on disk first checks the capacity for a reserved size and later, once the file is written,
counts it; other creations may come in between. Closing a storage a second time counts nothing. */
module UsageRuns {
  import opened Bytes
  import B = BodyStorage

  datatype Slot = Slot(size: nat, disk: bool, open: bool)

  /** `pending`: the reserved sizes of the creations that have passed the check but not yet counted. */
  datatype World = World(
    slots: seq<Slot>,
    pending: seq<nat>,
    diskFiles: int,
    diskBytes: int,
    memoryBuffers: int,
    memoryBytes: int)

  datatype Event =
    | Check(reserved: nat)
    | Store(which: nat, size: nat)
    | Abandon(which: nat)
    | Buffer(size: nat)
    | Close(slot: nat)

  const START := World([], [], 0, 0, 0, 0)

  function Drop(s: seq<nat>, i: nat): seq<nat>
    requires i < |s|
  {
    s[..i] + s[i + 1..]
  }

  /** At most `creators` creations are between check and count; a body is no longer than what it reserved. */
  predicate Enabled(w: World, e: Event, max: nat, creators: nat) {
    match e
    case Check(reserved) => w.diskBytes + reserved <= max && |w.pending| < creators
    case Store(which, size) => which < |w.pending| && size <= w.pending[which]
    case Abandon(which) => which < |w.pending|
    case Buffer(_) => true
    case Close(slot) => slot < |w.slots|
  }

  function Apply(w: World, e: Event, max: nat, creators: nat): World
    requires Enabled(w, e, max, creators)
  {
    match e
    case Check(reserved) => w.(pending := w.pending + [reserved])
    case Store(which, size) =>
      w.(pending := Drop(w.pending, which), slots := w.slots + [Slot(size, true, true)],
         diskFiles := w.diskFiles + 1, diskBytes := w.diskBytes + size)
    case Abandon(which) => w.(pending := Drop(w.pending, which))
    case Buffer(size) =>
      w.(slots := w.slots + [Slot(size, false, true)],
         memoryBuffers := w.memoryBuffers + 1, memoryBytes := w.memoryBytes + size)
    case Close(i) =>
      var s := w.slots[i];
      if !s.open then w
      else
        var closed := w.(slots := w.slots[i := s.(open := false)]);
        if s.disk then closed.(diskFiles := B.Clamp(w.diskFiles - 1), diskBytes := B.Clamp(w.diskBytes - s.size))
        else closed.(memoryBuffers := w.memoryBuffers - 1, memoryBytes := w.memoryBytes - s.size)
  }

  ghost predicate IsRun(worlds: seq<World>, events: seq<Event>, max: nat, creators: nat) {
    && |worlds| == |events| + 1 && worlds[0] == START
    && forall i :: 0 <= i < |events| ==>
         Enabled(worlds[i], events[i], max, creators) && worlds[i + 1] == Apply(worlds[i], events[i], max, creators)
  }

  // ---------------------------------------------------------------- the counters count

  /** Open storages of a kind, and their total size. */
  function CountOpen(slots: seq<Slot>, disk: bool): nat {
    if slots == [] then 0
    else var n := |slots| - 1;
         CountOpen(slots[..n], disk) + if slots[n].open && slots[n].disk == disk then 1 else 0
  }

  function SizeOpen(slots: seq<Slot>, disk: bool): nat {
    if slots == [] then 0
    else var n := |slots| - 1;
         SizeOpen(slots[..n], disk) + if slots[n].open && slots[n].disk == disk then slots[n].size else 0
  }

  function Total(s: seq<nat>): nat {
    if s == [] then 0 else Total(s[..|s| - 1]) + s[|s| - 1]
  }

  predicate Counts(w: World) {
    && w.diskFiles == CountOpen(w.slots, true) && w.diskBytes == SizeOpen(w.slots, true)
    && w.memoryBuffers == CountOpen(w.slots, false) && w.memoryBytes == SizeOpen(w.slots, false)
  }

  lemma AddSlot(slots: seq<Slot>, s: Slot, disk: bool)
    ensures CountOpen(slots + [s], disk) == CountOpen(slots, disk) + (if s.open && s.disk == disk then 1 else 0)
    ensures SizeOpen(slots + [s], disk) == SizeOpen(slots, disk) + (if s.open && s.disk == disk then s.size else 0)
  {
    assert (slots + [s])[..|slots|] == slots;
  }

  lemma {:induction false} CloseSlot(slots: seq<Slot>, i: nat, disk: bool)
    requires i < |slots| && slots[i].open
    ensures var slots' := slots[i := slots[i].(open := false)];
            && CountOpen(slots, disk) == CountOpen(slots', disk) + (if slots[i].disk == disk then 1 else 0)
            && SizeOpen(slots, disk) == SizeOpen(slots', disk) + (if slots[i].disk == disk then slots[i].size else 0)
  {
    var n := |slots| - 1;
    var slots' := slots[i := slots[i].(open := false)];
    if i < n {
      CloseSlot(slots[..n], i, disk);
      assert slots'[..n] == slots[..n][i := slots[i].(open := false)];
    } else {
      assert slots'[..n] == slots[..n];
    }
  }

  lemma StepKeepsCounts(w: World, e: Event, max: nat, creators: nat)
    requires Counts(w) && Enabled(w, e, max, creators)
    ensures Counts(Apply(w, e, max, creators))
  {
    match e
    case Store(_, size) => AddSlot(w.slots, Slot(size, true, true), true); AddSlot(w.slots, Slot(size, true, true), false);
    case Buffer(size) => AddSlot(w.slots, Slot(size, false, true), true); AddSlot(w.slots, Slot(size, false, true), false);
    case Close(i) => if w.slots[i].open { CloseSlot(w.slots, i, true); CloseSlot(w.slots, i, false); }
    case _ =>
  }

  // ---------------------------------------------------------------- the capacity

  lemma {:induction false} TotalConcat(a: seq<nat>, b: seq<nat>)
    ensures Total(a + b) == Total(a) + Total(b)
  {
    if b == [] {
      assert a + b == a;
    } else {
      TotalConcat(a, b[..|b| - 1]);
      assert (a + b)[..|a + b| - 1] == a + b[..|b| - 1];
    }
  }

  lemma {:induction false} TotalDrop(s: seq<nat>, i: nat)
    requires i < |s|
    ensures Total(s) == Total(Drop(s, i)) + s[i]
  {
    var n := |s| - 1;
    if i == n {
      assert Drop(s, i) == s[..n];
    } else {
      TotalDrop(s[..n], i);
      var d := Drop(s, i);
      assert d[..|d| - 1] == Drop(s[..n], i) && d[|d| - 1] == s[n];
    }
  }

  lemma {:induction false} TotalAtMost(s: seq<nat>, max: nat)
    requires forall i :: 0 <= i < |s| ==> s[i] <= max
    ensures Total(s) <= |s| * max
  {
    if s != [] { TotalAtMost(s[..|s| - 1], max); }
  }

  /** Disk bytes and outstanding reservations together stay within `creators` times the capacity. */
  predicate WithinCapacity(w: World, max: nat, creators: nat) {
    && (forall i :: 0 <= i < |w.pending| ==> w.pending[i] <= max)
    && |w.pending| <= creators
    && w.diskBytes + Total(w.pending) <= creators * max
  }

  lemma CheckKeepsCapacity(w: World, reserved: nat, max: nat, creators: nat)
    requires Counts(w) && WithinCapacity(w, max, creators) && Enabled(w, Check(reserved), max, creators)
    ensures WithinCapacity(Apply(w, Check(reserved), max, creators), max, creators)
  {
    TotalAtMost(w.pending, max);
    TotalConcat(w.pending, [reserved]);
    assert Total([reserved]) == Total([]) + reserved;
    MulMono(|w.pending| + 1, creators, max);
    assert (|w.pending| + 1) * max == |w.pending| * max + max;
  }

  lemma MulMono(a: nat, b: nat, m: nat)
    requires a <= b
    ensures a * m <= b * m
  {
  }

  lemma StepKeepsCapacity(w: World, e: Event, max: nat, creators: nat)
    requires Counts(w) && WithinCapacity(w, max, creators) && Enabled(w, e, max, creators)
    ensures WithinCapacity(Apply(w, e, max, creators), max, creators)
  {
    match e
    case Check(reserved) => CheckKeepsCapacity(w, reserved, max, creators);
    case Store(which, size) => TotalDrop(w.pending, which);
    case Abandon(which) => TotalDrop(w.pending, which);
    case Buffer(_) =>
    case Close(i) => if w.slots[i].open { CloseSlot(w.slots, i, true); }
  }

  /** Main result: in every run the counters are the number and total size of the open storages, and disk usage
      stays within the capacity times the number of creations that may overlap. */
  lemma {:induction false} RunKeepsUsage(worlds: seq<World>, events: seq<Event>, max: nat, creators: nat, i: nat)
    requires IsRun(worlds, events, max, creators) && i < |worlds|
    ensures Counts(worlds[i]) && WithinCapacity(worlds[i], max, creators)
  {
    if i > 0 {
      RunKeepsUsage(worlds, events, max, creators, i - 1);
      assert Enabled(worlds[i - 1], events[i - 1], max, creators);
      StepKeepsCounts(worlds[i - 1], events[i - 1], max, creators);
      StepKeepsCapacity(worlds[i - 1], events[i - 1], max, creators);
    }
  }

  /** Without overlap the configured maximum is never exceeded. */
  lemma NoOverlapNoExcess(worlds: seq<World>, events: seq<Event>, max: nat, i: nat)
    requires IsRun(worlds, events, max, 1) && i < |worlds|
    ensures SizeOpen(worlds[i].slots, true) <= max
  {
    RunKeepsUsage(worlds, events, max, 1, i);
  }

  /** Two creations that overlap can fill twice the configured maximum. */
  lemma OverlapExample(max: nat, creators: nat)
    requires creators >= 2
    ensures var w1 := World([], [max], 0, 0, 0, 0);
            var w2 := World([], [max, max], 0, 0, 0, 0);
            var w3 := World([Slot(max, true, true)], [max], 1, max, 0, 0);
            var w4 := World([Slot(max, true, true), Slot(max, true, true)], [], 2, 2 * max, 0, 0);
            IsRun([START, w1, w2, w3, w4], [Check(max), Check(max), Store(0, max), Store(0, max)], max, creators)
  {
    assert Drop([max, max], 0) == [max] && Drop([max], 0) == [];
  }

  ghost predicate NeverExceeds(max: nat, creators: nat) {
    forall worlds: seq<World>, events: seq<Event>, i: nat :: IsRun(worlds, events, max, creators) && i < |worlds| ==> worlds[i].diskBytes <= max
  }

  /** The check keeps disk usage within the configured maximum exactly when creations cannot overlap. */
  lemma NeverExceedsIff(max: nat, creators: nat)
    requires max > 0
    ensures NeverExceeds(max, creators) <==> creators <= 1
  {
    if creators <= 1 {
      forall worlds: seq<World>, events: seq<Event>, i: nat | IsRun(worlds, events, max, creators) && i < |worlds|
        ensures worlds[i].diskBytes <= max
      {
        RunKeepsUsage(worlds, events, max, creators, i);
        MulMono(creators, 1, max);
      }
    } else {
      OverlapExample(max, creators);
      var w4 := World([Slot(max, true, true), Slot(max, true, true)], [], 2, 2 * max, 0, 0);
      var worlds := [START, World([], [max], 0, 0, 0, 0), World([], [max, max], 0, 0, 0, 0),
                     World([Slot(max, true, true)], [max], 1, max, 0, 0), w4];
      assert worlds[4].diskBytes == 2 * max;
    }
  }

  // ---------------------------------------------------------------- the same of the real objects

  ghost function SlotOf(s: B.Storage): Slot
    reads if s.OnDisk? then {s.d} else {s.m}
  {
    if s.OnDisk? then Slot(s.d.size, true, !s.d.closed) else Slot(|s.m.data|, false, !s.m.closed)
  }

  ghost function Objects(s: B.Storage): set<object> { if s.OnDisk? then {s.d, s.d.file} else {s.m} }

  ghost predicate Uses(s: B.Storage, usage: B.Usage) { if s.OnDisk? then s.d.usage == usage else s.m.usage == usage }

  /** Storages that share nothing but the counters. */
  ghost predicate Separate(storages: seq<B.Storage>, usage: B.Usage) {
    && (forall i :: 0 <= i < |storages| ==>
          usage !in Objects(storages[i]) && Uses(storages[i], usage))
    && forall i, j :: 0 <= i < j < |storages| ==> Objects(storages[i]) !! Objects(storages[j])
  }

  /** The counters are the number and total size of the open storages. */
  ghost predicate Counted(slots: seq<Slot>, usage: B.Usage)
    reads usage
  {
    Counts(World(slots, [], usage.diskFiles, usage.diskBytes, usage.memoryBuffers, usage.memoryBytes))
  }

  datatype Job =
    | Make(body: seq<Byte>, contentLength: int, max: nat, forceDisk: bool, diskWorks: bool)
    | CloseAgain(which: nat)

  lemma CountedMore(slots: seq<Slot>, s: Slot)
    requires s.open
    ensures CountOpen(slots + [s], s.disk) == CountOpen(slots, s.disk) + 1
    ensures SizeOpen(slots + [s], s.disk) == SizeOpen(slots, s.disk) + s.size
    ensures CountOpen(slots + [s], !s.disk) == CountOpen(slots, !s.disk)
    ensures SizeOpen(slots + [s], !s.disk) == SizeOpen(slots, !s.disk)
  {
    AddSlot(slots, s, true);
    AddSlot(slots, s, false);
  }

  /** Closing one of the storages, for the first time or again. */
  method CloseOne(storages: seq<B.Storage>, i: nat, usage: B.Usage, ghost slots: seq<Slot>) returns (ghost slots': seq<Slot>)
    requires i < |storages| == |slots| && Separate(storages, usage) && Counted(slots, usage)
    requires forall j :: 0 <= j < |storages| ==> B.ValidStorage(storages[j]) && SlotOf(storages[j]) == slots[j]
    modifies usage, Objects(storages[i])
    ensures |slots'| == |slots| && Counted(slots', usage)
    ensures forall j :: 0 <= j < |storages| ==> B.ValidStorage(storages[j]) && SlotOf(storages[j]) == slots'[j]
    ensures slots' == slots[i := slots[i].(open := false)] && usage.diskBytes <= old(usage.diskBytes)
  {
    var s := storages[i];
    slots' := slots[i := slots[i].(open := false)];
    assert slots[i] == SlotOf(s);
    if slots[i].open {
      CloseSlot(slots, i, true);
      CloseSlot(slots, i, false);
    } else {
      assert slots' == slots;
    }
    if s.OnDisk? {
      var a := s.d.Do(B.Close);
    } else {
      var a := s.m.Do(B.Close);
    }
    forall j | 0 <= j < |storages| && j != i ensures B.ValidStorage(storages[j]) && SlotOf(storages[j]) == slots'[j] {
      assert Objects(storages[i]) !! Objects(storages[j]);
      assert slots[j] == old(SlotOf(storages[j]));
    }
  }

  /** One more storage, unless it is refused. */
  method MakeOne(body: seq<Byte>, contentLength: int, max: nat, forceDisk: bool, diskWorks: bool,
                 config: B.Config, usage: B.Usage, ghost slots: seq<Slot>)
    returns (made: seq<B.Storage>, ghost slots': seq<Slot>)
    requires Counted(slots, usage)
    modifies usage
    ensures |made| <= 1 && Counted(slots', usage)
    ensures made == [] ==> slots' == slots
    ensures (contentLength > 0 ==> |body| <= contentLength) && old(usage.diskBytes) <= config.maxBytes ==>
              usage.diskBytes <= config.maxBytes
    ensures made != [] ==> slots' == slots + [SlotOf(made[0])] && B.ValidStorage(made[0]) && fresh(Objects(made[0])) && Uses(made[0], usage)
  {
    var r := B.CreateFromReader(body, contentLength, max, forceDisk, config, usage, diskWorks);
    if !r.Ok? {
      return [], slots;
    }
    CountedMore(slots, SlotOf(r.storage));
    made, slots' := [r.storage], slots + [SlotOf(r.storage)];
  }

  lemma NowSeparate(storages: seq<B.Storage>, s: B.Storage, usage: B.Usage)
    requires Separate(storages, usage) && usage !in Objects(s) && Uses(s, usage)
    requires forall i :: 0 <= i < |storages| ==> Objects(storages[i]) !! Objects(s)
    ensures Separate(storages + [s], usage)
  {
  }

  /** No body is longer than the length it declares. */
  predicate Honest(jobs: seq<Job>) {
    forall j :: j in jobs && j.Make? && j.contentLength > 0 ==> |j.body| <= j.contentLength
  }

  /** Any sequence of creations, accepted or refused, and of closes of the same storage any number of times: the
      process-wide counters stay the number and total size of the open storages, and within the configured maximum if
      declared lengths are honest. */
  method Drive(jobs: seq<Job>, config: B.Config, usage: B.Usage) returns (storages: seq<B.Storage>, ghost slots: seq<Slot>)
    requires Counted([], usage)
    modifies usage
    ensures |slots| == |storages| && Counted(slots, usage)
    ensures Honest(jobs) ==> usage.diskBytes <= config.maxBytes
    ensures forall i :: 0 <= i < |storages| ==> SlotOf(storages[i]) == slots[i]
  {
    storages, slots := [], [];
    for n := 0 to |jobs|
      invariant |slots| == |storages| && Counted(slots, usage) && Separate(storages, usage)
      invariant Honest(jobs) ==> usage.diskBytes <= config.maxBytes
      invariant forall i :: 0 <= i < |storages| ==> fresh(Objects(storages[i]))
      invariant forall i :: 0 <= i < |storages| ==> B.ValidStorage(storages[i]) && SlotOf(storages[i]) == slots[i]
    {
      assert jobs[n] in jobs;
      match jobs[n]
      case Make(body, contentLength, max, forceDisk, diskWorks) =>
        var made;
        made, slots := MakeOne(body, contentLength, max, forceDisk, diskWorks, config, usage, slots);
        if made != [] {
          NowSeparate(storages, made[0], usage);
          storages := storages + [made[0]];
        }
      case CloseAgain(which) =>
        if which < |storages| {
          slots := CloseOne(storages, which, usage, slots);
        }
    }
  }
}
