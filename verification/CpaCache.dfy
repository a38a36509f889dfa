/** The cached list of CPA auth files (controller/cpa_import.go, lines 378-421).

Any number of goroutines list the files or invalidate the cache. Two locks guard it: a read/write
lock around the two cached fields, and a `refresh` mutex held across a whole refresh or
invalidation. Every lock, unlock, test, fetch and field write is a step of its own here, so the
results below speak of every interleaving.

Each fetched list is tagged with the step and the clock value at which its upstream request began.
Clock values count from the zero time, so the zero expiry never lies in the future.
*/
module CpaCache {
  import opened Options

  type Thread = int
  type Content = seq<string>

  const TTL: nat := 15_000_000_000  // fifteen seconds in nanoseconds

  datatype Files = NoFiles | Fetched(content: Content, began: nat, beganAt: nat)

  /** `start`: the step at which the call began; `now`: the clock value it read first. */
  datatype Call = Call(start: nat, now: nat)

  /** Where a goroutine stands. */
  datatype PC =
    | Idle
    // listCachedCPAAuthFiles
    | WantRead(c: Call)
    | Testing(c: Call)
    | Hit(c: Call, files: Files)
    | Missed(c: Call)
    | WantRefresh(c: Call)
    | WantReadAgain(c: Call)
    | TestingAgain(c: Call)
    | HitAgain(c: Call, files: Files, tested: nat)
    | MissedAgain(c: Call)
    | WantFetch(c: Call)
    | Fetching(c: Call, began: nat, beganAt: nat)
    | WantStore(c: Call, files: Files)
    | StoreFiles(c: Call, files: Files)
    | StoreExpiry(c: Call, files: Files)
    | Stored(c: Call, files: Files)
    | Leaving(c: Call, result: Option<Files>, hitAt: Option<nat>)
    // invalidateCPAAuthFilesCache
    | InvWantRefresh
    | InvWantWrite
    | InvClearFiles
    | InvClearExpiry
    | InvCleared
    | InvLeaving

  /** A finished list call; `tested` is the clock value a cached hit was tested against. */
  datatype Return = Return(start: nat, result: Option<Files>, tested: Option<nat>)

  datatype State = State(
    clock: nat,
    step: nat,
    files: Files,
    expiresAt: nat,
    refresh: Option<Thread>,
    readers: set<Thread>,
    writer: Option<Thread>,
    pcs: map<Thread, PC>,
    finished: set<Return>,
    invalidations: set<nat>)  // the steps at which invalidations returned

  datatype Step =
    | Tick(elapsed: nat)
    | CallList(t: Thread)
    | CallInvalidate(t: Thread)
    | Advance(t: Thread)
    | FetchReturns(t: Thread, response: Option<Content>)

  const Init: State := State(0, 0, NoFiles, 0, None, {}, None, map[], {}, {})

  function At(s: State, t: Thread): PC {
    if t in s.pcs then s.pcs[t] else Idle
  }

  predicate CanAdvance(s: State, t: Thread) {
    match At(s, t)
    case Idle => false
    case Fetching(_, _, _) => false
    case WantRead(_) => s.writer.None?
    case WantReadAgain(_) => s.writer.None?
    case WantRefresh(_) => s.refresh.None?
    case InvWantRefresh => s.refresh.None?
    case WantStore(_, _) => s.writer.None? && s.readers == {}
    case InvWantWrite => s.writer.None? && s.readers == {}
    case _ => true
  }

  predicate Enabled(s: State, step: Step) {
    match step
    case Tick(_) => true
    case CallList(t) => At(s, t).Idle?
    case CallInvalidate(t) => At(s, t).Idle?
    case Advance(t) => CanAdvance(s, t)
    case FetchReturns(t, _) => At(s, t).Fetching?
  }

  function Move(s: State, t: Thread, pc: PC): State {
    s.(pcs := s.pcs[t := pc], step := s.step + 1)
  }

  /** The step goroutine `t` takes from where it stands. */
  function AdvanceStep(s: State, t: Thread): State
    requires CanAdvance(s, t)
  {
    match At(s, t)
    case WantRead(c) => Move(s, t, Testing(c)).(readers := s.readers + {t})
    case Testing(c) => Move(s, t, if c.now < s.expiresAt then Hit(c, s.files) else Missed(c))
    case Hit(c, files) =>
      Move(s, t, Idle).(readers := s.readers - {t}, finished := s.finished + {Return(c.start, Some(files), Some(c.now))})
    case Missed(c) => Move(s, t, WantRefresh(c)).(readers := s.readers - {t})
    case WantRefresh(c) => Move(s, t, WantReadAgain(c)).(refresh := Some(t))
    case WantReadAgain(c) => Move(s, t, TestingAgain(c)).(readers := s.readers + {t})
    case TestingAgain(c) =>
      Move(s, t, if s.clock < s.expiresAt then HitAgain(c, s.files, s.clock) else MissedAgain(c))
    case HitAgain(c, files, tested) =>
      Move(s, t, Leaving(c, Some(files), Some(tested))).(readers := s.readers - {t})
    case MissedAgain(c) => Move(s, t, WantFetch(c)).(readers := s.readers - {t})
    case WantFetch(c) => Move(s, t, Fetching(c, s.step, s.clock))
    case WantStore(c, files) => Move(s, t, StoreFiles(c, files)).(writer := Some(t))
    case StoreFiles(c, files) => Move(s, t, StoreExpiry(c, files)).(files := files)
    case StoreExpiry(c, files) => Move(s, t, Stored(c, files)).(expiresAt := c.now + TTL)
    case Stored(c, files) => Move(s, t, Leaving(c, Some(files), None)).(writer := None)
    case Leaving(c, result, tested) =>
      Move(s, t, Idle).(refresh := None, finished := s.finished + {Return(c.start, result, tested)})
    case InvWantRefresh => Move(s, t, InvWantWrite).(refresh := Some(t))
    case InvWantWrite => Move(s, t, InvClearFiles).(writer := Some(t))
    case InvClearFiles => Move(s, t, InvClearExpiry).(files := NoFiles)
    case InvClearExpiry => Move(s, t, InvCleared).(expiresAt := 0)
    case InvCleared => Move(s, t, InvLeaving).(writer := None)
    case InvLeaving =>
      Move(s, t, Idle).(refresh := None, invalidations := s.invalidations + {s.step})
  }

  function Apply(s: State, step: Step): State
    requires Enabled(s, step)
  {
    match step
    case Tick(elapsed) => s.(clock := s.clock + elapsed)
    case CallList(t) => Move(s, t, WantRead(Call(s.step, s.clock)))
    case CallInvalidate(t) => Move(s, t, InvWantRefresh)
    case Advance(t) => AdvanceStep(s, t)
    case FetchReturns(t, response) =>
      var pc := At(s, t);
      Move(s, t, if response.Some? then WantStore(pc.c, Fetched(response.value, pc.began, pc.beganAt))
                 else Leaving(pc.c, None, None))
  }

  /** A run: from the initial state, every step enabled where it is taken. */
  ghost predicate IsRun(states: seq<State>, steps: seq<Step>) {
    && |states| == |steps| + 1
    && states[0] == Init
    && forall i :: 0 <= i < |steps| ==> Enabled(states[i], steps[i]) && states[i + 1] == Apply(states[i], steps[i])
  }

  // ---------------------------------------------------------------- who holds what

  predicate HoldsRefresh(pc: PC) {
    pc.WantReadAgain? || pc.TestingAgain? || pc.HitAgain? || pc.MissedAgain? || pc.WantFetch? || pc.Fetching?
    || pc.WantStore? || pc.StoreFiles? || pc.StoreExpiry? || pc.Stored? || pc.Leaving?
    || pc.InvWantWrite? || pc.InvClearFiles? || pc.InvClearExpiry? || pc.InvCleared? || pc.InvLeaving?
  }

  predicate HoldsRead(pc: PC) {
    pc.Testing? || pc.Hit? || pc.Missed? || pc.TestingAgain? || pc.HitAgain? || pc.MissedAgain?
  }

  predicate HoldsWrite(pc: PC) {
    pc.StoreFiles? || pc.StoreExpiry? || pc.Stored? || pc.InvClearFiles? || pc.InvClearExpiry? || pc.InvCleared?
  }

  ghost predicate LocksOk(s: State) {
    && (forall t :: s.refresh == Some(t) <==> HoldsRefresh(At(s, t)))
    && (forall t :: t in s.readers <==> HoldsRead(At(s, t)))
    && (forall t :: s.writer == Some(t) <==> HoldsWrite(At(s, t)))
    && (s.writer.Some? ==> s.readers == {})
  }

  /** What one goroutine's move does to a mutex. */
  predicate MutexMoved(before: Option<Thread>, after: Option<Thread>, t: Thread, held: bool, holds: bool) {
    if holds then after == Some(t) && (held || before.None?)
    else after == if held then None else before
  }

  predicate LocksMoved(s: State, s': State, t: Thread) {
    var pc, pc' := At(s, t), At(s', t);
    && MutexMoved(s.refresh, s'.refresh, t, HoldsRefresh(pc), HoldsRefresh(pc'))
    && MutexMoved(s.writer, s'.writer, t, HoldsWrite(pc), HoldsWrite(pc'))
    && s'.readers == (if HoldsRead(pc') then s.readers + {t} else s.readers - {t})
    && (HoldsWrite(pc') && !HoldsWrite(pc) ==> s.readers == {} && !HoldsRead(pc'))
    && (HoldsRead(pc') && !HoldsRead(pc) ==> s.writer.None? && !HoldsWrite(pc'))
  }

  lemma LocksFollow(s: State, s': State, t: Thread)
    requires LocksOk(s) && LocksMoved(s, s', t)
    requires forall u :: u != t ==> At(s', u) == At(s, u)
    ensures LocksOk(s')
  {
    assert s.writer == Some(t) <==> HoldsWrite(At(s, t));
    assert t in s.readers <==> HoldsRead(At(s, t));
  }

  lemma AdvanceMovesRefresh(s: State, t: Thread)
    requires CanAdvance(s, t) && (s.refresh == Some(t) <==> HoldsRefresh(At(s, t)))
    ensures var s' := AdvanceStep(s, t);
            MutexMoved(s.refresh, s'.refresh, t, HoldsRefresh(At(s, t)), HoldsRefresh(At(s', t)))
  {
  }

  lemma AdvanceMovesWriter(s: State, t: Thread)
    requires CanAdvance(s, t) && (s.writer == Some(t) <==> HoldsWrite(At(s, t)))
    ensures var s' := AdvanceStep(s, t);
            && MutexMoved(s.writer, s'.writer, t, HoldsWrite(At(s, t)), HoldsWrite(At(s', t)))
            && (HoldsWrite(At(s', t)) && !HoldsWrite(At(s, t)) ==> s.readers == {} && !HoldsRead(At(s', t)))
  {
  }

  lemma AdvanceMovesReaders(s: State, t: Thread)
    requires CanAdvance(s, t) && (t in s.readers <==> HoldsRead(At(s, t)))
    ensures var s' := AdvanceStep(s, t);
            && s'.readers == (if HoldsRead(At(s', t)) then s.readers + {t} else s.readers - {t})
            && (HoldsRead(At(s', t)) && !HoldsRead(At(s, t)) ==> s.writer.None? && !HoldsWrite(At(s', t)))
  {
  }

  lemma OthersStay(s: State, t: Thread, u: Thread)
    requires CanAdvance(s, t) && u != t
    ensures At(AdvanceStep(s, t), u) == At(s, u)
  {
  }

  lemma AdvanceKeepsLocks(s: State, t: Thread)
    requires LocksOk(s) && CanAdvance(s, t)
    ensures LocksOk(AdvanceStep(s, t))
  {
    AdvanceMovesRefresh(s, t);
    AdvanceMovesWriter(s, t);
    AdvanceMovesReaders(s, t);
    forall u | u != t ensures At(AdvanceStep(s, t), u) == At(s, u) { OthersStay(s, t, u); }
    LocksFollow(s, AdvanceStep(s, t), t);
  }

  lemma QuietStepKeepsLocks(s: State, step: Step)
    requires LocksOk(s) && Enabled(s, step) && !step.Advance?
    ensures LocksOk(Apply(s, step))
  {
    var s' := Apply(s, step);
    if step.Tick? {
      assert forall t :: At(s', t) == At(s, t);
    } else {
      assert step.t in s.readers <==> HoldsRead(At(s, step.t));
      LocksFollow(s, s', step.t);
    }
  }

  // ---------------------------------------------------------------- what the data keeps

  /** Files that may serve a call begun at step `start`: fetched after every invalidation before it. */
  predicate FreshFor(s: State, f: Files, start: nat) {
    f.Fetched? && forall v :: v in s.invalidations && v < start ==> v < f.began
  }

  /** Files newer than every invalidation that has returned. */
  predicate Current(s: State, f: Files) {
    && f.Fetched?
    && f.began < s.step
    && f.beganAt <= s.clock
    && forall v :: v in s.invalidations ==> v < f.began
  }

  predicate CallOk(s: State, c: Call) {
    c.start < s.step && c.now <= s.clock
  }

  predicate PcOk(s: State, pc: PC) {
    match pc
    case Idle => true
    case Hit(c, f) => CallOk(s, c) && FreshFor(s, f, c.start) && c.now < f.beganAt + TTL
    case HitAgain(c, f, tested) => CallOk(s, c) && FreshFor(s, f, c.start) && tested < f.beganAt + TTL
    case Fetching(c, began, beganAt) =>
      CallOk(s, c) && c.now <= beganAt && Current(s, Fetched([], began, beganAt))
    case WantStore(c, f) => CallOk(s, c) && Current(s, f) && c.now <= f.beganAt
    case StoreFiles(c, f) => CallOk(s, c) && Current(s, f) && c.now <= f.beganAt
    case StoreExpiry(c, f) => CallOk(s, c) && Current(s, f) && c.now <= f.beganAt && s.files == f
    case Stored(c, f) =>
      CallOk(s, c) && Current(s, f) && c.now <= f.beganAt && s.files == f && s.expiresAt == c.now + TTL
    case Leaving(c, result, tested) =>
      && CallOk(s, c)
      && (result.Some? ==> FreshFor(s, result.value, c.start))
      && (tested.Some? ==> result.Some? && tested.value < result.value.beganAt + TTL)
    case InvWantRefresh => true
    case InvWantWrite => true
    case InvClearFiles => true
    case InvClearExpiry => true
    case InvCleared => s.expiresAt == 0
    case InvLeaving => s.expiresAt == 0
    case _ => CallOk(s, pc.c)
  }

  predicate ReturnOk(s: State, r: Return) {
    && r.start < s.step
    && (r.result.Some? ==> FreshFor(s, r.result.value, r.start))
    && (r.tested.Some? ==> r.result.Some? && r.tested.value < r.result.value.beganAt + TTL)
  }

  /** While nobody is writing, live files are current and expire within the TTL of their fetch. */
  predicate CacheOk(s: State) {
    s.writer.None? && s.expiresAt > 0 ==> Current(s, s.files) && s.expiresAt <= s.files.beganAt + TTL
  }

  ghost predicate Inv(s: State) {
    && LocksOk(s)
    && CacheOk(s)
    && (forall v :: v in s.invalidations ==> v < s.step)
    && (forall t :: PcOk(s, At(s, t)))
    && (forall r :: r in s.finished ==> ReturnOk(s, r))
  }

  /** Time and other goroutines' moves leave a goroutine's own facts alone. */
  predicate Later(s: State, s': State) {
    && s.step <= s'.step && s.clock <= s'.clock
    && s.invalidations <= s'.invalidations
    && forall v :: v in s'.invalidations && v !in s.invalidations ==> s.step <= v
  }

  /** A goroutine that does not move keeps its facts. */
  lemma OthersKeepPc(s: State, s': State, pc: PC)
    requires Later(s, s') && PcOk(s, pc)
    requires HoldsRefresh(pc) ==> s'.invalidations == s.invalidations
    requires HoldsRefresh(pc) ==> s'.files == s.files && s'.expiresAt == s.expiresAt
    ensures PcOk(s', pc)
  {
  }

  lemma ReaderKeepsOwnPc(s: State, t: Thread)
    requires CanAdvance(s, t) && PcOk(s, At(s, t)) && CacheOk(s) && HoldsRead(At(s, t)) && s.writer.None?
    ensures PcOk(AdvanceStep(s, t), At(AdvanceStep(s, t), t))
  {
  }

  predicate Storing(pc: PC) { pc.WantStore? || pc.StoreFiles? || pc.StoreExpiry? || pc.Stored? }

  lemma StorerKeepsOwnPc(s: State, t: Thread)
    requires CanAdvance(s, t) && PcOk(s, At(s, t)) && Storing(At(s, t))
    ensures PcOk(AdvanceStep(s, t), At(AdvanceStep(s, t), t))
  {
  }

  lemma OtherKeepsOwnPc(s: State, t: Thread)
    requires CanAdvance(s, t) && PcOk(s, At(s, t)) && !HoldsRead(At(s, t)) && !Storing(At(s, t))
    requires forall v :: v in s.invalidations ==> v < s.step
    ensures PcOk(AdvanceStep(s, t), At(AdvanceStep(s, t), t))
  {
  }

  lemma AdvanceKeepsOwnPc(s: State, t: Thread)
    requires Inv(s) && CanAdvance(s, t)
    ensures PcOk(AdvanceStep(s, t), At(AdvanceStep(s, t), t))
  {
    assert PcOk(s, At(s, t));
    assert t in s.readers <==> HoldsRead(At(s, t));
    if HoldsRead(At(s, t)) {
      ReaderKeepsOwnPc(s, t);
    } else if Storing(At(s, t)) {
      StorerKeepsOwnPc(s, t);
    } else {
      OtherKeepsOwnPc(s, t);
    }
  }

  lemma AdvanceTouches(s: State, t: Thread)
    requires Inv(s) && CanAdvance(s, t)
    ensures Later(s, AdvanceStep(s, t))
    ensures !HoldsRefresh(At(s, t)) ==>
              && AdvanceStep(s, t).files == s.files
              && AdvanceStep(s, t).expiresAt == s.expiresAt
              && AdvanceStep(s, t).invalidations == s.invalidations
  {
  }

  lemma AdvanceKeepsCache(s: State, t: Thread)
    requires Inv(s) && CanAdvance(s, t)
    ensures CacheOk(AdvanceStep(s, t))
  {
    assert PcOk(s, At(s, t));
    assert s.writer == Some(t) <==> HoldsWrite(At(s, t));
  }

  lemma AdvanceKeepsReturns(s: State, t: Thread)
    requires Inv(s) && CanAdvance(s, t)
    ensures forall r :: r in AdvanceStep(s, t).finished ==> ReturnOk(AdvanceStep(s, t), r)
  {
    AdvanceTouches(s, t);
    assert PcOk(s, At(s, t));
    var s' := AdvanceStep(s, t);
    forall r | r in s'.finished ensures ReturnOk(s', r) {
      if r in s.finished { assert ReturnOk(s, r); }
    }
  }

  lemma AdvanceKeepsOthersPc(s: State, t: Thread, u: Thread)
    requires Inv(s) && CanAdvance(s, t) && u != t
    ensures PcOk(AdvanceStep(s, t), At(AdvanceStep(s, t), u))
  {
    var s' := AdvanceStep(s, t);
    AdvanceTouches(s, t);
    assert At(s', u) == At(s, u) && PcOk(s, At(s, u));
    assert s.refresh == Some(u) <==> HoldsRefresh(At(s, u));
    assert s.refresh == Some(t) <==> HoldsRefresh(At(s, t));
    OthersKeepPc(s, s', At(s, u));
  }

  lemma AdvanceKeepsCounting(s: State, t: Thread)
    requires CanAdvance(s, t) && forall v :: v in s.invalidations ==> v < s.step
    ensures forall v :: v in AdvanceStep(s, t).invalidations ==> v < AdvanceStep(s, t).step
  {
  }

  lemma AdvanceKeepsInv(s: State, t: Thread)
    requires Inv(s) && CanAdvance(s, t)
    ensures Inv(AdvanceStep(s, t))
  {
    AdvanceKeepsLocks(s, t);
    AdvanceKeepsCache(s, t);
    AdvanceKeepsCounting(s, t);
    forall u ensures PcOk(AdvanceStep(s, t), At(AdvanceStep(s, t), u)) {
      if u == t { AdvanceKeepsOwnPc(s, t); } else { AdvanceKeepsOthersPc(s, t, u); }
    }
    AdvanceKeepsReturns(s, t);
  }

  lemma QuietStepKeepsInv(s: State, step: Step)
    requires Inv(s) && Enabled(s, step) && !step.Advance?
    ensures Inv(Apply(s, step))
  {
    QuietStepKeepsLocks(s, step);
    var s' := Apply(s, step);
    forall u ensures PcOk(s', At(s', u)) {
      assert PcOk(s, At(s, u));
      OthersKeepPc(s, s', At(s, u));
      assert step.Tick? || u != step.t ==> At(s', u) == At(s, u);
    }
    forall r | r in s'.finished ensures ReturnOk(s', r) {
      assert ReturnOk(s, r);
    }
  }

  lemma {:induction false} RunKeepsInv(states: seq<State>, steps: seq<Step>, i: nat)
    requires IsRun(states, steps) && i < |states|
    ensures Inv(states[i])
  {
    if i == 0 {
      assert forall t :: At(Init, t) == Idle;
    } else {
      RunKeepsInv(states, steps, i - 1);
      assert Enabled(states[i - 1], steps[i - 1]);
      if steps[i - 1].Advance? {
        AdvanceKeepsInv(states[i - 1], steps[i - 1].t);
      } else {
        QuietStepKeepsInv(states[i - 1], steps[i - 1]);
      }
    }
  }

  // ---------------------------------------------------------------- the promises

  /** A list call begun after an invalidation returned never yields files fetched before it. */
  lemma NoStaleFilesAfterInvalidation(states: seq<State>, steps: seq<Step>, i: nat, r: Return, v: nat)
    requires IsRun(states, steps) && i < |states|
    requires r in states[i].finished && r.result.Some?
    requires v in states[i].invalidations && v < r.start
    ensures r.result.value.Fetched? && v < r.result.value.began
  {
    RunKeepsInv(states, steps, i);
    assert ReturnOk(states[i], r);
  }

  /** A cached hit was fetched less than fifteen seconds before the clock value it was tested with. */
  lemma CachedHitIsRecent(states: seq<State>, steps: seq<Step>, i: nat, r: Return)
    requires IsRun(states, steps) && i < |states|
    requires r in states[i].finished && r.tested.Some?
    ensures r.result.Some? && r.result.value.Fetched?
    ensures r.tested.value - r.result.value.beganAt < 15_000_000_000  // nanoseconds
  {
    RunKeepsInv(states, steps, i);
    assert ReturnOk(states[i], r);
  }

  /** At most one upstream request is in flight, and nobody invalidates meanwhile. */
  lemma SingleFlight(states: seq<State>, steps: seq<Step>, i: nat, t: Thread, u: Thread)
    requires IsRun(states, steps) && i < |states|
    requires At(states[i], t).Fetching? && HoldsRefresh(At(states[i], u))
    ensures t == u
  {
    RunKeepsInv(states, steps, i);
    assert states[i].refresh == Some(t) && states[i].refresh == Some(u);
  }

  predicate CanMove(s: State, t: Thread) {
    CanAdvance(s, t) || At(s, t).Fetching?
  }

  lemma Pick<T>(members: set<T>) returns (t: T)
    requires members != {}
    ensures t in members
  {
    t :| t in members;
  }

  /** No deadlock: whenever a call is under way, some call can take its next step. */
  lemma SomeCallCanMove(states: seq<State>, steps: seq<Step>, i: nat, waiting: Thread)
    requires IsRun(states, steps) && i < |states|
    requires !At(states[i], waiting).Idle?
    ensures exists t :: !At(states[i], t).Idle? && CanMove(states[i], t)
  {
    RunKeepsInv(states, steps, i);
    var s := states[i];
    var t: Thread;
    if s.writer.Some? {
      t := s.writer.value;
      assert HoldsWrite(At(s, t));
    } else if s.readers != {} {
      t := Pick(s.readers);
      assert HoldsRead(At(s, t));
    } else if s.refresh.Some? {
      t := s.refresh.value;
      assert s.readers == {} && HoldsRefresh(At(s, t)) && !HoldsRead(At(s, t));
      assert HoldsWrite(At(s, t)) <==> s.writer == Some(t);
    } else {
      t := waiting;
      assert !HoldsRefresh(At(s, t)) && !HoldsRead(At(s, t));
    }
    assert CanMove(s, t);
  }
}
