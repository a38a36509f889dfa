/** Where the files of the CPA auth file cache come from: every list returned or cached was answered by an upstream
request of the same run, and a call whose own request failed returns nothing. */
module CpaCacheAnswers {
  import opened Options
  import opened CpaCache

  /** This step is an upstream request's answer, and `f` is what was asked for and answered. */
  predicate Delivers(s: State, step: Step, f: Files) {
    && f.Fetched? && step.FetchReturns? && step.response == Some(f.content)
    && var pc := At(s, step.t); pc.Fetching? && pc.began == f.began && pc.beganAt == f.beganAt
  }

  /** This step ends the request of the call begun at `start`: with files, or with none when it failed. */
  predicate EndsFetch(s: State, step: Step, start: nat, result: Option<Files>) {
    && step.FetchReturns? && At(s, step.t).Fetching? && At(s, step.t).c.start == start
    && (result.Some? ==> Delivers(s, step, result.value))
    && (result.None? ==> step.response == None)
  }

  ghost predicate Answered(states: seq<State>, steps: seq<Step>, i: nat, f: Files)
    requires i <= |steps| < |states|
  {
    exists k :: 0 <= k < i && Delivers(states[k], steps[k], f)
  }

  ghost predicate OwnFetch(states: seq<State>, steps: seq<Step>, i: nat, start: nat, result: Option<Files>)
    requires i <= |steps| < |states|
  {
    exists k :: 0 <= k < i && EndsFetch(states[k], steps[k], start, result)
  }

  /** A result served from the cache was answered to some call; any other is the answer to the call's own request. */
  ghost predicate ResultFrom(states: seq<State>, steps: seq<Step>, i: nat, start: nat, result: Option<Files>,
                             tested: Option<nat>)
    requires i <= |steps| < |states|
  {
    if tested.Some? then result.Some? && Answered(states, steps, i, result.value)
    else OwnFetch(states, steps, i, start, result)
  }

  ghost predicate PcFrom(states: seq<State>, steps: seq<Step>, i: nat, pc: PC)
    requires i <= |steps| < |states|
  {
    match pc
    case Hit(c, f) => Answered(states, steps, i, f)
    case HitAgain(c, f, tested) => Answered(states, steps, i, f)
    case WantStore(c, f) => OwnFetch(states, steps, i, c.start, Some(f))
    case StoreFiles(c, f) => OwnFetch(states, steps, i, c.start, Some(f))
    case StoreExpiry(c, f) => OwnFetch(states, steps, i, c.start, Some(f))
    case Stored(c, f) => OwnFetch(states, steps, i, c.start, Some(f))
    case Leaving(c, result, tested) => ResultFrom(states, steps, i, c.start, result, tested)
    case _ => true
  }

  ghost predicate Origins(states: seq<State>, steps: seq<Step>, i: nat)
    requires i <= |steps| < |states|
  {
    && (states[i].files.Fetched? ==> Answered(states, steps, i, states[i].files))
    && (forall t :: PcFrom(states, steps, i, At(states[i], t)))
    && (forall r :: r in states[i].finished ==> ResultFrom(states, steps, i, r.start, r.result, r.tested))
  }

  lemma ResultStays(states: seq<State>, steps: seq<Step>, i: nat, start: nat, result: Option<Files>, tested: Option<nat>)
    requires i < |steps| < |states| && ResultFrom(states, steps, i, start, result, tested)
    ensures ResultFrom(states, steps, i + 1, start, result, tested)
  {
  }

  lemma PcStays(states: seq<State>, steps: seq<Step>, i: nat, pc: PC)
    requires i < |steps| < |states| && PcFrom(states, steps, i, pc)
    ensures PcFrom(states, steps, i + 1, pc)
  {
  }

  lemma OwnIsAnswered(states: seq<State>, steps: seq<Step>, i: nat, start: nat, f: Files)
    requires i <= |steps| < |states| && OwnFetch(states, steps, i, start, Some(f))
    ensures Answered(states, steps, i, f)
  {
    var k :| 0 <= k < i && EndsFetch(states[k], steps[k], start, Some(f));
    assert Delivers(states[k], steps[k], f);
  }

  /** What a request delivers is handed on as it came. */
  lemma FetchFrom(states: seq<State>, steps: seq<Step>, i: nat)
    requires IsRun(states, steps) && i < |steps| && steps[i].FetchReturns?
    ensures PcFrom(states, steps, i + 1, At(states[i + 1], steps[i].t))
  {
    assert Enabled(states[i], steps[i]);
    var pc := At(states[i], steps[i].t);
    var result := if steps[i].response.Some? then Some(Fetched(steps[i].response.value, pc.began, pc.beganAt)) else None;
    assert EndsFetch(states[i], steps[i], pc.c.start, result);
  }

  lemma AdvanceFrom(states: seq<State>, steps: seq<Step>, i: nat)
    requires IsRun(states, steps) && i < |steps| && steps[i].Advance? && Inv(states[i]) && Origins(states, steps, i)
    ensures PcFrom(states, steps, i + 1, At(states[i + 1], steps[i].t))
  {
    var s, t := states[i], steps[i].t;
    assert Enabled(s, steps[i]);
    PcStays(states, steps, i, At(s, t));
    assert PcOk(s, At(s, t));
    assert t in s.readers <==> HoldsRead(At(s, t));
  }

  lemma FilesFrom(states: seq<State>, steps: seq<Step>, i: nat)
    requires IsRun(states, steps) && i < |steps| && Origins(states, steps, i) && states[i + 1].files.Fetched?
    ensures Answered(states, steps, i + 1, states[i + 1].files)
  {
    var s, step := states[i], steps[i];
    assert Enabled(s, step);
    if step.Advance? && At(s, step.t).StoreFiles? {
      assert PcFrom(states, steps, i, At(s, step.t));
      OwnIsAnswered(states, steps, i, At(s, step.t).c.start, At(s, step.t).files);
    }
  }

  lemma FinishedFrom(states: seq<State>, steps: seq<Step>, i: nat, r: Return)
    requires IsRun(states, steps) && i < |steps| && Origins(states, steps, i) && r in states[i + 1].finished
    ensures ResultFrom(states, steps, i + 1, r.start, r.result, r.tested)
  {
    var s, step := states[i], steps[i];
    assert Enabled(s, step);
    if r !in s.finished {
      assert step.Advance? && PcFrom(states, steps, i, At(s, step.t));
    }
    ResultStays(states, steps, i, r.start, r.result, r.tested);
  }

  lemma OthersFrom(states: seq<State>, steps: seq<Step>, i: nat, u: Thread)
    requires IsRun(states, steps) && i < |steps| && Origins(states, steps, i) && (steps[i].Tick? || u != steps[i].t)
    ensures PcFrom(states, steps, i + 1, At(states[i + 1], u))
  {
    StepLeavesOthers(states, steps, i, u);
    PcStays(states, steps, i, At(states[i], u));
  }

  lemma StepLeavesOthers(states: seq<State>, steps: seq<Step>, i: nat, u: Thread)
    requires IsRun(states, steps) && i < |steps| && (steps[i].Tick? || u != steps[i].t)
    ensures At(states[i + 1], u) == At(states[i], u)
  {
    assert Enabled(states[i], steps[i]);
    if steps[i].Advance? { OthersStay(states[i], steps[i].t, u); }
  }

  lemma CallFrom(states: seq<State>, steps: seq<Step>, i: nat)
    requires IsRun(states, steps) && i < |steps| && (steps[i].CallList? || steps[i].CallInvalidate?)
    ensures PcFrom(states, steps, i + 1, At(states[i + 1], steps[i].t))
  {
    assert Enabled(states[i], steps[i]);
  }

  lemma EveryoneFrom(states: seq<State>, steps: seq<Step>, i: nat, t: Thread)
    requires IsRun(states, steps) && i < |steps| && Inv(states[i]) && Origins(states, steps, i)
    ensures PcFrom(states, steps, i + 1, At(states[i + 1], t))
  {
    if steps[i].Tick? || t != steps[i].t {
      OthersFrom(states, steps, i, t);
    } else if steps[i].Advance? {
      AdvanceFrom(states, steps, i);
    } else if steps[i].FetchReturns? {
      FetchFrom(states, steps, i);
    } else {
      CallFrom(states, steps, i);
    }
  }

  lemma OriginsAtStart(states: seq<State>, steps: seq<Step>)
    requires IsRun(states, steps)
    ensures Origins(states, steps, 0)
  {
    forall t ensures PcFrom(states, steps, 0, At(states[0], t)) { assert At(Init, t) == Idle; }
  }

  lemma OriginsStep(states: seq<State>, steps: seq<Step>, i: nat)
    requires IsRun(states, steps) && i < |steps| && Inv(states[i]) && Origins(states, steps, i)
    ensures Origins(states, steps, i + 1)
  {
    var n, s' := i + 1, states[i + 1];
    if s'.files.Fetched? { FilesFrom(states, steps, i); }
    forall t ensures PcFrom(states, steps, n, At(s', t)) { EveryoneFrom(states, steps, i, t); }
    forall r | r in s'.finished ensures ResultFrom(states, steps, n, r.start, r.result, r.tested) {
      FinishedFrom(states, steps, i, r);
    }
  }

  /** In every run all files in the cache, in a goroutine's hands and in a finished call were answered by upstream. */
  lemma {:induction false} RunKeepsOrigins(states: seq<State>, steps: seq<Step>, i: nat)
    requires IsRun(states, steps) && i < |states|
    ensures Origins(states, steps, i)
  {
    if i == 0 {
      OriginsAtStart(states, steps);
    } else {
      RunKeepsOrigins(states, steps, i - 1);
      RunKeepsInv(states, steps, i - 1);
      OriginsStep(states, steps, i - 1);
    }
  }

  /** What a list call returns: the very files some request answered, and without a cached hit the answer to its own
      request, which is none exactly when that failed. */
  lemma ReturnsWhatWasAnswered(states: seq<State>, steps: seq<Step>, i: nat, r: Return) returns (k: nat)
    requires IsRun(states, steps) && i < |states| && r in states[i].finished
    ensures k < i && steps[k].FetchReturns? && At(states[k], steps[k].t).Fetching?
    ensures r.result.Some? ==>
              && r.result.value.Fetched? && steps[k].response == Some(r.result.value.content)
              && At(states[k], steps[k].t).began == r.result.value.began
              && At(states[k], steps[k].t).beganAt == r.result.value.beganAt
    ensures r.result.None? ==> steps[k].response == None
    ensures r.tested.None? ==> At(states[k], steps[k].t).c.start == r.start
    ensures r.tested.Some? ==> r.result.Some?
  {
    RunKeepsOrigins(states, steps, i);
    assert ResultFrom(states, steps, i, r.start, r.result, r.tested);
    if r.tested.Some? {
      k :| 0 <= k < i && Delivers(states[k], steps[k], r.result.value);
    } else {
      k :| 0 <= k < i && EndsFetch(states[k], steps[k], r.start, r.result);
    }
  }

  /** Goroutine `t` takes no step from `k` up to `i`. */
  predicate Rests(steps: seq<Step>, k: nat, i: nat, t: Thread)
    requires i <= |steps|
  {
    forall j :: k <= j < i ==> steps[j].Tick? || steps[j].t != t
  }

  /** Meanwhile it stays where it is. */
  lemma {:induction false} RestsThere(states: seq<State>, steps: seq<Step>, k: nat, i: nat, t: Thread)
    requires IsRun(states, steps) && k <= i < |states|
    ensures Rests(steps, k, i, t) ==> At(states[i], t) == At(states[k], t)
  {
    if k < i && Rests(steps, k, i, t) {
      RestsThere(states, steps, k, i - 1, t);
      StepLeavesOthers(states, steps, i - 1, t);
    }
  }

  /** Step `j` sent the request that goroutine `t` has in flight at `i`. */
  predicate Sent(states: seq<State>, steps: seq<Step>, i: nat, t: Thread, j: nat)
    requires |states| == |steps| + 1 && i < |states| && At(states[i], t).Fetching?
  {
    && j < i && steps[j] == Advance(t) && At(states[j], t) == WantFetch(At(states[i], t).c)
    && states[j].step == At(states[i], t).began && states[j].clock == At(states[i], t).beganAt
    && Rests(steps, j + 1, i, t)
  }

  lemma SendsNow(states: seq<State>, steps: seq<Step>, i: nat, t: Thread)
    requires IsRun(states, steps) && i < |steps|
    ensures At(states[i + 1], t).Fetching? && !steps[i].Tick? && steps[i].t == t ==> Sent(states, steps, i + 1, t, i)
  {
    assert Enabled(states[i], steps[i]);
  }

  lemma StaysSent(states: seq<State>, steps: seq<Step>, i: nat, t: Thread, j: nat)
    requires |states| == |steps| + 1 && i < |steps| && (steps[i].Tick? || steps[i].t != t)
    requires At(states[i], t).Fetching? && Sent(states, steps, i, t, j) && At(states[i + 1], t) == At(states[i], t)
    ensures Sent(states, steps, i + 1, t, j)
  {
  }

  lemma SendStep(states: seq<State>, steps: seq<Step>, i: nat, t: Thread, j: nat) returns (j': nat)
    requires IsRun(states, steps) && i < |steps|
    requires At(states[i], t).Fetching? ==> Sent(states, steps, i, t, j)
    ensures At(states[i + 1], t).Fetching? ==> Sent(states, steps, i + 1, t, j')
  {
    if !steps[i].Tick? && steps[i].t == t {
      j' := i;
      SendsNow(states, steps, i, t);
    } else {
      j' := j;
      StepLeavesOthers(states, steps, i, t);
      if At(states[i], t).Fetching? {
        StaysSent(states, steps, i, t, j);
      }
    }
  }

  /** A request in flight carries the step and the clock value at which it was sent. */
  lemma {:induction false} RequestWasSent(states: seq<State>, steps: seq<Step>, i: nat, t: Thread) returns (j: nat)
    requires IsRun(states, steps) && i < |states|
    ensures At(states[i], t).Fetching? ==> Sent(states, steps, i, t, j)
  {
    j := 0;
    if i == 0 {
      assert At(Init, t) == Idle;
    } else {
      j := RequestWasSent(states, steps, i - 1, t);
      j := SendStep(states, steps, i - 1, t, j);
    }
  }

  /** A call whose own request failed finishes with nothing at its next step, and caches nothing. */
  lemma FailedFetchEndsCall(states: seq<State>, steps: seq<Step>, k: nat, i: nat, t: Thread)
    requires IsRun(states, steps) && k < i < |steps|
    ensures steps[k] == FetchReturns(t, None) && Rests(steps, k + 1, i, t) && steps[i] == Advance(t) ==>
              && At(states[k], t).Fetching?
              && states[i + 1].finished == states[i].finished + {Return(At(states[k], t).c.start, None, None)}
              && At(states[i + 1], t).Idle?
              && states[i + 1].files == states[i].files && states[i + 1].expiresAt == states[i].expiresAt
  {
    if steps[k] == FetchReturns(t, None) && Rests(steps, k + 1, i, t) && steps[i] == Advance(t) {
      assert Enabled(states[k], steps[k]) && Enabled(states[i], steps[i]);
      RestsThere(states, steps, k + 1, i, t);
    }
  }
}
