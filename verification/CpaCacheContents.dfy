/** What the CPA auth file cache holds at each point of a run, read off the run's stores and invalidations, and when
each of the two tests hits. */
module CpaCacheContents {
  import opened Options
  import opened CpaCache

  datatype Entry = Entry(files: Files, until: nat)

  /** The latest entry that was stored whole and not cleared since, read off the run. */
  function Latest(states: seq<State>, steps: seq<Step>, i: nat): Option<Entry>
    requires i <= |steps| < |states|
  {
    if i == 0 then None
    else if !steps[i - 1].Advance? then Latest(states, steps, i - 1)
    else EntryAfter(At(states[i - 1], steps[i - 1].t), Latest(states, steps, i - 1))
  }

  /** The entry after a goroutine has moved on from `pc`: the second write of a store or an invalidation settles it. */
  function EntryAfter(pc: PC, entry: Option<Entry>): Option<Entry> {
    match pc
    case StoreExpiry(c, files) => Some(Entry(files, c.now + 15_000_000_000))
    case InvClearExpiry => None
    case _ => entry
  }

  function FilesOf(entry: Option<Entry>): Files { if entry.Some? then entry.value.files else NoFiles }

  ghost predicate CacheIs(s: State, entry: Option<Entry>) {
    && s.expiresAt == (if entry.Some? then entry.value.until else 0)
    && (s.writer.None? ==> s.files == FilesOf(entry))
  }

  /** A writer is between its two writes, or has just begun or ended: the files are settled only without one. */
  ghost predicate WriterIs(s: State, entry: Option<Entry>, t: Thread) {
    match At(s, t)
    case StoreFiles(c, f) => s.files == FilesOf(entry)
    case Stored(c, f) => entry == Some(Entry(f, c.now + 15_000_000_000)) && s.files == f
    case InvClearFiles => s.files == FilesOf(entry)
    case InvClearExpiry => s.files == NoFiles
    case InvCleared => entry.None? && s.files == NoFiles
    case _ => true
  }

  ghost predicate Settled(s: State, entry: Option<Entry>) {
    CacheIs(s, entry) && forall t :: WriterIs(s, entry, t)
  }

  lemma SettledOthers(s: State, t: Thread, u: Thread, entry: Option<Entry>, entry': Option<Entry>)
    requires LocksOk(s) && CanAdvance(s, t) && u != t && WriterIs(s, entry, u)
    requires !HoldsWrite(At(s, t)) ==> entry' == entry
    ensures WriterIs(AdvanceStep(s, t), entry', u)
  {
    OthersStay(s, t, u);
    assert s.writer == Some(t) <==> HoldsWrite(At(s, t));
    assert s.writer == Some(u) <==> HoldsWrite(At(s, u));
  }

  lemma SettledOwn(s: State, t: Thread, entry: Option<Entry>, entry': Option<Entry>)
    requires Inv(s) && CanAdvance(s, t) && CacheIs(s, entry) && WriterIs(s, entry, t)
    requires entry' == EntryAfter(At(s, t), entry)
    ensures CacheIs(AdvanceStep(s, t), entry') && WriterIs(AdvanceStep(s, t), entry', t)
  {
    assert PcOk(s, At(s, t));
    assert s.writer == Some(t) <==> HoldsWrite(At(s, t));
  }

  lemma SettledStep(states: seq<State>, steps: seq<Step>, i: nat)
    requires IsRun(states, steps) && i < |steps|
    requires Inv(states[i]) && Settled(states[i], Latest(states, steps, i))
    ensures Settled(states[i + 1], Latest(states, steps, i + 1))
  {
    var s, step, s' := states[i], steps[i], states[i + 1];
    var entry, entry' := Latest(states, steps, i), Latest(states, steps, i + 1);
    assert Enabled(s, step);
    if step.Advance? {
      assert WriterIs(s, entry, step.t);
      SettledOwn(s, step.t, entry, entry');
      forall u | u != step.t ensures WriterIs(s', entry', u) {
        assert WriterIs(s, entry, u);
        SettledOthers(s, step.t, u, entry, entry');
      }
    } else {
      forall u ensures WriterIs(s', entry', u) { SettledQuiet(s, step, u, entry); }
    }
  }

  lemma SettledQuiet(s: State, step: Step, u: Thread, entry: Option<Entry>)
    requires Enabled(s, step) && !step.Advance? && WriterIs(s, entry, u)
    ensures WriterIs(Apply(s, step), entry, u)
  {
    assert step.Tick? || u != step.t ==> At(Apply(s, step), u) == At(s, u);
  }

  lemma {:induction false} RunSettled(states: seq<State>, steps: seq<Step>, i: nat)
    requires IsRun(states, steps) && i < |states|
    ensures Settled(states[i], Latest(states, steps, i))
  {
    if i == 0 {
      assert forall t :: At(Init, t) == Idle;
    } else {
      RunSettled(states, steps, i - 1);
      RunKeepsInv(states, steps, i - 1);
      SettledStep(states, steps, i - 1);
    }
  }

  /** While nobody writes, the cache holds the latest entry stored and not cleared since, or nothing. */
  lemma CacheHoldsLatest(states: seq<State>, steps: seq<Step>, i: nat)
    requires IsRun(states, steps) && i < |states|
    ensures var entry := Latest(states, steps, i);
            && states[i].expiresAt == (if entry.Some? then entry.value.until else 0)
            && (states[i].writer.None? ==> states[i].files == if entry.Some? then entry.value.files else NoFiles)
  {
    RunSettled(states, steps, i);
  }

  lemma ReadersSeeLatest(states: seq<State>, steps: seq<Step>, i: nat, t: Thread)
    requires IsRun(states, steps) && i < |states|
    ensures HoldsRead(At(states[i], t)) ==> CacheIs(states[i], Latest(states, steps, i)) && states[i].writer.None?
  {
    RunSettled(states, steps, i);
    RunKeepsInv(states, steps, i);
    assert t in states[i].readers <==> HoldsRead(At(states[i], t));
  }

  /** The first test hits exactly when the latest stored entry outlives the clock value the call read, and serves that
      entry's files. */
  lemma FirstTestHitsIff(states: seq<State>, steps: seq<Step>, i: nat, t: Thread)
    requires IsRun(states, steps) && i < |steps|
    ensures steps[i] == Advance(t) && At(states[i], t).Testing? ==>
              var c, entry := At(states[i], t).c, Latest(states, steps, i);
              At(states[i + 1], t)
              == if entry.Some? && c.now < entry.value.until then Hit(c, entry.value.files) else Missed(c)
  {
    assert Enabled(states[i], steps[i]);
    ReadersSeeLatest(states, steps, i, t);
  }

  /** The second test, under the refresh mutex, hits exactly when the entry outlives the clock as it stands then. */
  lemma SecondTestHitsIff(states: seq<State>, steps: seq<Step>, i: nat, t: Thread)
    requires IsRun(states, steps) && i < |steps|
    ensures steps[i] == Advance(t) && At(states[i], t).TestingAgain? ==>
              var c, now, entry := At(states[i], t).c, states[i].clock, Latest(states, steps, i);
              At(states[i + 1], t)
              == if entry.Some? && now < entry.value.until then HitAgain(c, entry.value.files, now) else MissedAgain(c)
  {
    assert Enabled(states[i], steps[i]);
    ReadersSeeLatest(states, steps, i, t);
  }
}
