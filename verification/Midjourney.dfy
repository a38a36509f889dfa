/** Refunding failed Midjourney tasks (controller/midjourney.go, lines 46-109, 153-233 and 241-294), with the
guarded update of model/midjourney.go, lines 173-184.

Pollers on any number of instances load the unfinished task, hear from upstream and write back, guarded by
the status they loaded. The question is how often one task is refunded. Every item of an answer is a step of its
own, with its own clock reading and its own guarded write; the clocks of the instances need not agree. */
module Midjourney {

  const DONE := "100%"
  const FAILURE := "FAILURE"
  const TIMEOUT := 3600000
  const TIMEOUT_REASON := "上游任务超时（超过1小时）"

  /** The stored task; `videoUrls` is its serialised list, empty when there is none. */
  datatype Task = Task(
    code: int, progress: string, promptEn: string, state: string,
    submitTime: int, startTime: int, finishTime: int,
    imageUrl: string, status: string, failReason: string, videoUrl: string, videoUrls: string, quota: int)

  datatype Response = Response(
    progress: string, promptEn: string, state: string,
    submitTime: int, startTime: int, finishTime: int,
    imageUrl: string, status: string, failReason: string, videoUrl: string, videoUrls: string)

  predicate Unfinished(t: Task) { t.progress != DONE }

  /** After an hour an unfinished task counts as failed, whatever upstream says. */
  function Effective(t: Task, r: Response, now: int): Response {
    if now - t.submitTime > TIMEOUT && Unfinished(t) then Timed(r) else r
  }

  /** A response turned into a timeout, which is always a failure. */
  function Timed(r: Response): Response { r.(failReason := TIMEOUT_REASON, status := FAILURE) }

  /** `checkMjTaskNeedUpdate`. */
  predicate NeedsUpdate(t: Task, r: Response) {
    || t.code != 1 || t.progress != r.progress || t.promptEn != r.promptEn || t.state != r.state
    || t.submitTime != r.submitTime || t.startTime != r.startTime || t.finishTime != r.finishTime
    || t.imageUrl != r.imageUrl || t.status != r.status || t.failReason != r.failReason
    || (t.progress != DONE && r.failReason != "")
    || t.videoUrl != r.videoUrl || t.videoUrls != r.videoUrls
  }

  /** The response says the task failed. */
  predicate Failed(r: Response) {
    (r.progress != DONE && r.failReason != "") || (r.progress == DONE && r.status == FAILURE)
  }

  function Updated(t: Task, r: Response): Task {
    Task(1, if Failed(r) then DONE else r.progress, r.promptEn, r.state, r.submitTime, r.startTime, r.finishTime,
         r.imageUrl, r.status, r.failReason, r.videoUrl, r.videoUrls, t.quota)
  }

  /** A response to an unfinished task is skipped exactly when it would change nothing. */
  lemma SkippedIffNothingNew(t: Task, r: Response)
    requires Unfinished(t)
    ensures NeedsUpdate(t, r) <==> Updated(t, r) != t
  {
  }

  /** A skipped response to an unfinished task never reports a failure. */
  lemma SkippedNeverFailed(t: Task, r: Response)
    requires Unfinished(t) && !NeedsUpdate(t, r)
    ensures !Failed(r)
  {
  }

  // ---------------------------------------------------------------- many pollers

  /** A poller's own copy of the task, and whether it has taken in an item of the answer yet. */
  datatype Copy = Copy(task: Task, heard: bool)

  /** The stored task, what each poller has loaded, and how often the quota was given back. */
  datatype System = System(row: Task, loaded: map<nat, Copy>, refunds: nat)

  /** A poller loads the task, takes in one item of its answer (`written`: the database did not fail), or finds the
      channel gone before it asks. */
  datatype Event =
    | Load(p: nat)
    | Hear(p: nat, raw: Response, now: int, written: bool)
    | LoseChannel(p: nat, reason: string)

  /** The responses upstream can send. */
  type Upstream = Response -> bool

  /** One item, taken in by a poller whose copy is `t`: the row, the copy, and whether the quota is given back. */
  function HearItem(row: Task, t: Task, raw: Response, now: int, written: bool): (Task, Task, bool) {
    var heard := Effective(t, raw, now);
    if !NeedsUpdate(t, heard) then (row, t, false)
    else
      var t' := Updated(t, heard);
      if !written || row.status != t.status then (row, t', false)
      else (t', t', Failed(heard) && t.quota != 0)
  }

  /** More than an hour after its submission and not finished. */
  predicate TimedOut(t: Task, now: int) { now > t.submitTime + 3600000 && t.progress != "100%" }

  /** Skipped or not, the poller's copy then carries every field of the response, with the failure in place of status and
      reason after a timeout, and is finished once a failure is reported. */
  lemma CopyCarriesResponse(row: Task, t: Task, raw: Response, now: int, written: bool)
    ensures var (row', t', refunded) := HearItem(row, t, raw, now, written);
            && t'.code == 1 && t'.quota == t.quota
            && t'.promptEn == raw.promptEn && t'.state == raw.state
            && t'.submitTime == raw.submitTime && t'.startTime == raw.startTime && t'.finishTime == raw.finishTime
            && t'.imageUrl == raw.imageUrl && t'.videoUrl == raw.videoUrl && t'.videoUrls == raw.videoUrls
            && t'.status == (if TimedOut(t, now) then "FAILURE" else raw.status)
            && t'.failReason == (if TimedOut(t, now) then TIMEOUT_REASON else raw.failReason)
            && t'.progress == (if t'.failReason != "" && raw.progress != "100%" then "100%" else raw.progress)
  {
  }

  /** The row becomes that copy, or stays as it was: when nothing is new to the poller, the write fails or another poller
      has moved the status. The quota goes back exactly with a write that records a failure. */
  lemma RowBecomesCopy(row: Task, t: Task, raw: Response, now: int, written: bool)
    ensures var (row', t', refunded) := HearItem(row, t, raw, now, written);
            && row' == (if written && row.status == t.status && (t' != t || (t.progress == "100%" && raw.progress != "100%")) then t' else row)
            && (refunded ==> row' == t' && t.quota != 0)
            && (t.progress != "100%" ==>
                  (refunded <==> written && row.status == t.status && t.quota != 0
                                 && ((raw.progress != "100%" && t'.failReason != "") || (raw.progress == "100%" && t'.status == "FAILURE"))))
  {
  }

  /** One event; an event that cannot happen changes nothing. When an answer may name a task repeatedly the poller
      keeps its copy for the next item, else it is done with the task. */
  function Step(s: System, e: Event, upstream: Upstream, repeats: bool): System {
    match e
    case Load(p) =>
      if Unfinished(s.row) then s.(loaded := s.loaded[p := Copy(s.row, false)]) else s
    case Hear(p, raw, now, written) =>
      if p !in s.loaded || !upstream(raw) then s
      else
        var (row, t, refunded) := HearItem(s.row, s.loaded[p].task, raw, now, written);
        System(row, if repeats then s.loaded[p := Copy(t, true)] else s.loaded - {p},
               s.refunds + if refunded then 1 else 0)
    case LoseChannel(p, reason) =>
      if p !in s.loaded || s.loaded[p].heard then s
      else s.(loaded := s.loaded - {p}, row := s.row.(failReason := reason, status := FAILURE, progress := DONE))
  }

  function Run(s: System, events: seq<Event>, upstream: Upstream, repeats: bool): System
    decreases events
  {
    if events == [] then s else Run(Step(s, events[0], upstream, repeats), events[1..], upstream, repeats)
  }

  // ---------------------------------------------------------------- the loop over an answer

  /** One turn of the loop: what other pollers do before it, and the item. */
  datatype Turn = Turn(others: seq<Event>, raw: Response, now: int, written: bool)

  function Turns(p: nat, turns: seq<Turn>): seq<Event> {
    if turns == [] then []
    else
      var n := |turns| - 1;
      Turns(p, turns[..n]) + turns[n].others + [Hear(p, turns[n].raw, turns[n].now, turns[n].written)]
  }

  lemma {:induction false} OthersLeaveCopy(s: System, events: seq<Event>, upstream: Upstream, p: nat)
    requires p in s.loaded && forall e :: e in events ==> e.p != p
    ensures p in Run(s, events, upstream, true).loaded && Run(s, events, upstream, true).loaded[p] == s.loaded[p]
    decreases events
  {
    if events != [] {
      assert events[0] in events;
      OthersLeaveCopy(Step(s, events[0], upstream, true), events[1..], upstream, p);
    }
  }

  lemma TurnTaken(s: System, p: nat, turns: seq<Turn>, n: nat, upstream: Upstream)
    requires n < |turns|
    ensures var hear := Hear(p, turns[n].raw, turns[n].now, turns[n].written);
            Run(s, Turns(p, turns[..n + 1]), upstream, true)
            == Step(Run(Run(s, Turns(p, turns[..n]), upstream, true), turns[n].others, upstream, true), hear, upstream, true)
  {
    var hear := Hear(p, turns[n].raw, turns[n].now, turns[n].written);
    assert turns[..n + 1][..n] == turns[..n] && turns[..n + 1][n] == turns[n];
    var before := Turns(p, turns[..n]) + turns[n].others;
    RunConcat(s, before, [hear], upstream, true);
    RunConcat(s, Turns(p, turns[..n]), turns[n].others, upstream, true);
    OneStep(Run(s, before, upstream, true), hear, upstream, true);
  }

  /** The loop over the items that name the task, with other pollers at work between any two of them. */
  method HandleAnswer(s: System, p: nat, turns: seq<Turn>, upstream: Upstream) returns (s': System)
    requires p in s.loaded && forall i, e :: 0 <= i < |turns| && e in turns[i].others ==> e.p != p
    requires forall i :: 0 <= i < |turns| ==> upstream(turns[i].raw)
    ensures s' == Run(s, Turns(p, turns), upstream, true)
  {
    s' := s;
    var task, i := s.loaded[p].task, 0;
    while i < |turns|
      invariant 0 <= i <= |turns|
      invariant s' == Run(s, Turns(p, turns[..i]), upstream, true)
      invariant p in s'.loaded && s'.loaded[p].task == task
    {
      OthersLeaveCopy(s', turns[i].others, upstream, p);
      TurnTaken(s, p, turns, i, upstream);
      s' := Run(s', turns[i].others, upstream, true);
      var row, refunded;
      row, task, refunded := HandleItem(s'.row, task, turns[i].raw, turns[i].now, turns[i].written);
      s' := System(row, s'.loaded[p := Copy(task, true)], s'.refunds + if refunded then 1 else 0);
      i := i + 1;
    }
    assert turns[..i] == turns;
  }

  /** The body of that loop. */
  method HandleItem(row: Task, task: Task, responseItem: Response, now: int, written: bool)
    returns (row': Task, task': Task, refunded: bool)
    ensures (row', task', refunded) == HearItem(row, task, responseItem, now, written)
  {
    var item, t := responseItem, task;
    row', refunded := row, false;
    if now - t.submitTime > TIMEOUT && t.progress != DONE {
      item := item.(failReason := TIMEOUT_REASON, status := FAILURE);
    }
    if !NeedsUpdate(t, item) {
      return row, task, false;
    }
    var preStatus := t.status;
    t := Task(1, item.progress, item.promptEn, item.state, item.submitTime, item.startTime, item.finishTime,
              item.imageUrl, item.status, item.failReason, item.videoUrl, item.videoUrls, t.quota);
    var shouldReturnQuota := false;
    if (t.progress != DONE && item.failReason != "") || (t.progress == DONE && t.status == FAILURE) {
      t := t.(progress := DONE);
      if t.quota != 0 {
        shouldReturnQuota := true;
      }
    }
    var won := written && row.status == preStatus;
    if won {
      row' := t;
    }
    task', refunded := t, won && shouldReturnQuota;
  }

  // ---------------------------------------------------------------- runs, step by step

  lemma OneStep(s: System, e: Event, upstream: Upstream, repeats: bool)
    ensures Run(s, [e], upstream, repeats) == Step(s, e, upstream, repeats)
  {
    assert [e][1..] == [];
  }

  lemma {:induction false} RunConcat(s: System, a: seq<Event>, b: seq<Event>, upstream: Upstream, repeats: bool)
    ensures Run(s, a + b, upstream, repeats) == Run(Run(s, a, upstream, repeats), b, upstream, repeats)
    decreases a
  {
    if a == [] {
      assert a + b == b;
    } else {
      RunConcat(Step(s, a[0], upstream, repeats), a[1..], b, upstream, repeats);
      assert (a + b)[1..] == a[1..] + b;
    }
  }

  lemma TwoSteps(s: System, a: Event, b: Event, upstream: Upstream, repeats: bool)
    ensures Run(s, [a, b], upstream, repeats) == Step(Step(s, a, upstream, repeats), b, upstream, repeats)
  {
    assert [a, b] == [a] + [b];
    RunConcat(s, [a], [b], upstream, repeats);
    OneStep(s, a, upstream, repeats);
    OneStep(Step(s, a, upstream, repeats), b, upstream, repeats);
  }

  lemma FourSteps(s: System, a: Event, b: Event, c: Event, d: Event, upstream: Upstream, repeats: bool)
    ensures Run(s, [a, b, c, d], upstream, repeats)
            == Step(Step(Step(Step(s, a, upstream, repeats), b, upstream, repeats), c, upstream, repeats), d, upstream, repeats)
  {
    assert [a, b, c, d] == [a, b] + [c, d];
    RunConcat(s, [a, b], [c, d], upstream, repeats);
    TwoSteps(s, a, b, upstream, repeats);
    TwoSteps(Run(s, [a, b], upstream, repeats), c, d, upstream, repeats);
  }

  /** A failure is never skipped, and a poller that still agrees with the row on the status refunds it. */
  lemma FailureHeard(row: Task, t: Task, raw: Response, now: int)
    requires Failed(Effective(t, raw, now)) && Unfinished(t) && row.status == t.status && t.quota != 0
    ensures HearItem(row, t, raw, now, true) == (Updated(t, Effective(t, raw, now)), Updated(t, Effective(t, raw, now)), true)
  {
    assert NeedsUpdate(t, Effective(t, raw, now));
  }

  /** A clock reading at which task `t` has timed out. */
  function Late(t: Task): int { t.submitTime + TIMEOUT + 1 }

  /** A task as it is submitted: unfinished, paid for, loaded by nobody. */
  predicate Fresh(s: System) { Unfinished(s.row) && s.row.quota != 0 && s.loaded == map[] && s.refunds == 0 }

  ghost predicate RefundedAtMostOnce(s: System, upstream: Upstream, repeats: bool) {
    forall events :: Run(s, events, upstream, repeats).refunds <= 1
  }

  // ---------------------------------------------------------------- answers that name a task once

  /** Responses that leave the task unfinished, if they come in time. */
  predicate Continues(r: Response) { !Failed(r) && r.progress != DONE }

  /** Statuses the task can have while it is unfinished. */
  ghost predicate Held(initial: string, upstream: Upstream, status: string) {
    status == initial || exists c :: upstream(c) && Continues(c) && c.status == status
  }

  /** If upstream can say anything at all, and so can say it too late, FAILURE is not a status the task can have while
      it is unfinished; nor is the status of any failure it reports. */
  ghost predicate FailuresAreFinal(initial: string, upstream: Upstream) {
    forall r :: upstream(r) ==> !Held(initial, upstream, FAILURE) && (Failed(r) ==> !Held(initial, upstream, r.status))
  }

  ghost predicate Inv(s: System, initial: string, upstream: Upstream) {
    && (forall p :: p in s.loaded ==> Held(initial, upstream, s.loaded[p].task.status))
    && (Unfinished(s.row) ==> Held(initial, upstream, s.row.status))
    && s.refunds <= 1
    && (s.refunds == 1 ==> !Unfinished(s.row) && !Held(initial, upstream, s.row.status) && !Held(initial, upstream, FAILURE))
  }

  lemma StepKeepsInv(s: System, e: Event, initial: string, upstream: Upstream)
    requires Inv(s, initial, upstream) && FailuresAreFinal(initial, upstream)
    ensures Inv(Step(s, e, upstream, false), initial, upstream)
  {
    if e.Hear? && e.p in s.loaded && upstream(e.raw) {
      var t := s.loaded[e.p].task;
      assert Held(initial, upstream, t.status);
      assert Continues(e.raw) ==> Held(initial, upstream, e.raw.status);
    }
  }

  lemma {:induction false} RunKeepsInv(s: System, events: seq<Event>, initial: string, upstream: Upstream)
    requires Inv(s, initial, upstream) && FailuresAreFinal(initial, upstream)
    ensures Inv(Run(s, events, upstream, false), initial, upstream)
    decreases events
  {
    if events != [] {
      StepKeepsInv(s, events[0], initial, upstream);
      RunKeepsInv(Step(s, events[0], upstream, false), events[1..], initial, upstream);
    }
  }

  /** A status the task can have while unfinished is reached with nobody holding the task. */
  lemma ReachHeld(s: System, upstream: Upstream, status: string) returns (events: seq<Event>)
    requires Fresh(s) && Held(s.row.status, upstream, status)
    ensures Fresh(Run(s, events, upstream, false)) && Run(s, events, upstream, false).row.status == status
  {
    if status == s.row.status {
      events := [];
    } else {
      var c :| upstream(c) && Continues(c) && c.status == status;
      var hear := Hear(0, c, s.row.submitTime, true);
      events := [Load(0), hear];
      TwoSteps(s, Load(0), hear, upstream, false);
      assert Step(s, Load(0), upstream, false).loaded == map[0 := Copy(s.row, false)];
      assert NeedsUpdate(s.row, c);
    }
  }

  /** Two pollers that loaded the same status are both refunded when the failure keeps that status. */
  lemma TwiceByKeepingStatus(s: System, upstream: Upstream, raw: Response, now: int, repeats: bool) returns (events: seq<Event>)
    requires Fresh(s) && upstream(raw)
    requires Failed(Effective(s.row, raw, now)) && Effective(s.row, raw, now).status == s.row.status
    ensures Run(s, events, upstream, repeats).refunds == 2
  {
    var h1, h2 := Hear(1, raw, now, true), Hear(2, raw, now, true);
    events := [Load(1), Load(2), h1, h2];
    FourSteps(s, Load(1), Load(2), h1, h2, upstream, repeats);
    var s2 := Step(Step(s, Load(1), upstream, repeats), Load(2), upstream, repeats);
    FailureHeard(s.row, s.row, raw, now);
    var s3 := Step(s2, h1, upstream, repeats);
    FailureHeard(s3.row, s.row, raw, now);
  }

  /** The exact condition: a submitted task is refunded at most once in every run, with any number of pollers,
      if and only if failures are final. */
  lemma RefundedAtMostOnceIff(s: System, upstream: Upstream)
    requires Fresh(s)
    ensures RefundedAtMostOnce(s, upstream, false) <==> FailuresAreFinal(s.row.status, upstream)
  {
    var initial := s.row.status;
    if FailuresAreFinal(initial, upstream) {
      forall events ensures Run(s, events, upstream, false).refunds <= 1 { RunKeepsInv(s, events, initial, upstream); }
    } else {
      var r :| upstream(r) && (Held(initial, upstream, FAILURE) || (Failed(r) && Held(initial, upstream, r.status)));
      var status := if Held(initial, upstream, FAILURE) then FAILURE else r.status;
      var first := ReachHeld(s, upstream, status);
      var s' := Run(s, first, upstream, false);
      var now := if status == FAILURE then Late(s'.row) else s'.row.submitTime;
      var second := TwiceByKeepingStatus(s', upstream, r, now, false);
      RunConcat(s, first, second, upstream, false);
      assert Run(s, first + second, upstream, false).refunds == 2;
    }
  }

  /** Failures that always change the status are not enough: a status that comes back lets an old poller in. */
  lemma ChangingStatusIsNotEnough(s: System, upstream: Upstream, c: Response, r1: Response, r2: Response)
    requires Fresh(s)
    requires upstream(c) && Continues(c) && c.status != s.row.status
    requires upstream(r1) && Failed(r1) && r1.status == s.row.status
    requires upstream(r2) && Failed(r2) && r2.status != s.row.status
    ensures var now := s.row.submitTime;
            var events := [Load(9), Load(0), Hear(0, c, now, true), Load(1)]
                          + [Hear(1, r1, c.submitTime, true), Hear(9, r2, now, true)];
            Run(s, events, upstream, false).refunds == 2
  {
    var now := s.row.submitTime;
    var hc, h1, h2 := Hear(0, c, now, true), Hear(1, r1, c.submitTime, true), Hear(9, r2, now, true);
    FourSteps(s, Load(9), Load(0), hc, Load(1), upstream, false);
    assert NeedsUpdate(s.row, c);
    var s4 := Run(s, [Load(9), Load(0), hc, Load(1)], upstream, false);
    FailureHeard(s4.row, s4.row, r1, c.submitTime);
    var s5 := Step(s4, h1, upstream, false);
    FailureHeard(s5.row, s.row, r2, now);
    TwoSteps(s4, h1, h2, upstream, false);
    RunConcat(s, [Load(9), Load(0), hc, Load(1)], [h1, h2], upstream, false);
  }

  // ---------------------------------------------------------------- answers that name a task more than once

  lemma RefundsOnlyGrow(s: System, e: Event, upstream: Upstream, repeats: bool)
    ensures Step(s, e, upstream, repeats).refunds >= s.refunds
  {
  }

  /** A response that is not finished, three times at one clock reading: it comes too late and is refunded, the next item
      makes the row unfinished again or fails in its own right, and it is late once more. Upstream need not report any
      failure. */
  lemma TwiceByComingLate(s: System, upstream: Upstream, r: Response)
    requires Fresh(s) && upstream(r) && r.progress != DONE
    ensures var late := Hear(0, r, LateForBoth(s.row, r), true);
            Run(s, [Load(0), late, late, late], upstream, true).refunds >= 2
  {
    var now := LateForBoth(s.row, r);
    var late := Hear(0, r, now, true);
    FourSteps(s, Load(0), late, late, late, upstream, true);
    var s1 := Step(s, Load(0), upstream, true);
    FailureHeard(s.row, s.row, r, now);
    var s2 := Step(s1, late, upstream, true);
    var t1 := Updated(s.row, Timed(r));
    assert s2.row == t1 && s2.loaded[0].task == t1 && s2.refunds == 1;
    assert Effective(t1, r, now) == r && NeedsUpdate(t1, r);
    var s3 := Step(s2, late, upstream, true);
    if Failed(r) {
      RefundsOnlyGrow(s3, late, upstream, true);
    } else {
      FailureHeard(s3.row, s3.loaded[0].task, r, now);
    }
  }

  /** A clock reading at which both the task and what `r` makes of it have timed out. */
  function LateForBoth(t: Task, r: Response): int {
    var again := r.submitTime + TIMEOUT + 1;
    if again > Late(t) then again else Late(t)
  }

  /** A finished failure that differs from its own timeout: first as the timeout, then as itself. */
  lemma TwiceByTwoReasons(s: System, upstream: Upstream, r: Response)
    requires Fresh(s) && upstream(r) && Failed(r) && r.progress == DONE && r != Timed(r)
    ensures var late := Hear(0, r, Late(s.row), true);
            Run(s, [Load(0), late] + [late], upstream, true).refunds == 2
  {
    var late := Hear(0, r, Late(s.row), true);
    TwoSteps(s, Load(0), late, upstream, true);
    FailureHeard(s.row, s.row, r, Late(s.row));
    var s2 := Run(s, [Load(0), late], upstream, true);
    var t1 := Updated(s.row, Timed(r));
    assert s2.row == t1 && s2.loaded[0].task == t1 && s2.refunds == 1;
    assert NeedsUpdate(t1, r);
    OneStep(s2, late, upstream, true);
    RunConcat(s, [Load(0), late], [late], upstream, true);
  }

  /** A failure, anything else, and the failure again: the second item hides from the third that the task has failed. */
  lemma TwiceAroundAnother(s: System, upstream: Upstream, r: Response, x: Response)
    requires Fresh(s) && upstream(r) && Failed(r) && r.progress == DONE && upstream(x) && x.progress == DONE && x != r
    ensures var hr, hx := Hear(0, r, s.row.submitTime, true), Hear(0, x, s.row.submitTime, true);
            Run(s, [Load(0), hr, hx, hr], upstream, true).refunds >= 2
  {
    var hr, hx := Hear(0, r, s.row.submitTime, true), Hear(0, x, s.row.submitTime, true);
    FourSteps(s, Load(0), hr, hx, hr, upstream, true);
    FailureHeard(s.row, s.row, r, s.row.submitTime);
    var s2 := Step(Step(s, Load(0), upstream, true), hr, upstream, true);
    var t1 := Updated(s.row, r);
    assert s2.row == t1 && s2.loaded[0].task == t1 && s2.refunds == 1;
    assert NeedsUpdate(t1, x);
    var s3 := Step(s2, hx, upstream, true);
    var t2 := Updated(t1, x);
    assert s3.row == t2 && s3.loaded[0].task == t2 && NeedsUpdate(t2, r);
  }

  /** A success that carries the submitted status, after a timeout: it overwrites the refunded row and lets an old
      poller in. */
  lemma TwiceByReturningStatus(s: System, upstream: Upstream, r: Response)
    requires Fresh(s) && upstream(r) && !Failed(r) && r.progress == DONE && r.status == s.row.status
    ensures var late1, late2 := Hear(1, r, Late(s.row), true), Hear(2, r, Late(s.row), true);
            Run(s, [Load(1), Load(2), late1, late1] + [late2], upstream, true).refunds == 2
  {
    var late1, late2 := Hear(1, r, Late(s.row), true), Hear(2, r, Late(s.row), true);
    FourSteps(s, Load(1), Load(2), late1, late1, upstream, true);
    FailureHeard(s.row, s.row, r, Late(s.row));
    var s3 := Step(Step(Step(s, Load(1), upstream, true), Load(2), upstream, true), late1, upstream, true);
    var t1 := Updated(s.row, Timed(r));
    assert s3.row == t1 && s3.loaded[1].task == t1 && s3.refunds == 1 && NeedsUpdate(t1, r);
    var s4 := Step(s3, late1, upstream, true);
    assert s4.row == Updated(t1, r) && s4.loaded[2].task == s.row && s4.refunds == 1;
    FailureHeard(s4.row, s.row, r, Late(s.row));
    OneStep(s4, late2, upstream, true);
    RunConcat(s, [Load(1), Load(2), late1, late1], [late2], upstream, true);
  }

  /** Everything upstream can say finishes the task under a new status and without a failure, or a finished timeout is
      the only thing it can say. */
  ghost predicate OnlyFinishes(initial: string, upstream: Upstream) {
    forall r :: upstream(r) ==>
      && initial != FAILURE && r.progress == DONE && r.status != initial
      && (Failed(r) ==> r == Timed(r) && forall x :: upstream(x) ==> x == r)
  }

  /** A poller's copy is the task as submitted, or finished under another status. */
  ghost predicate CopyOk(t: Task, initial: Task, upstream: Upstream) {
    t == initial || (!Unfinished(t) && t.status != initial.status
                     && forall r :: upstream(r) && Failed(r) ==> t == Updated(initial, r))
  }

  ghost predicate FinishInv(s: System, initial: Task, upstream: Upstream) {
    && (forall p :: p in s.loaded ==> CopyOk(s.loaded[p].task, initial, upstream))
    && (Unfinished(s.row) ==> s.row == initial)
    && s.refunds <= 1
    && (s.refunds == 1 ==> s.row.status != initial.status && initial.status != FAILURE)
  }

  lemma HearKeepsCopy(row: Task, t: Task, raw: Response, now: int, written: bool, initial: Task, upstream: Upstream)
    requires OnlyFinishes(initial.status, upstream) && Unfinished(initial) && CopyOk(t, initial, upstream) && upstream(raw)
    ensures var (row', t', refunded) := HearItem(row, t, raw, now, written);
            && CopyOk(t', initial, upstream)
            && (row' == row || (!Unfinished(row') && row'.status != initial.status))
            && (refunded ==> row.status == initial.status && row'.status != initial.status)
  {
    var heard := Effective(t, raw, now);
    if NeedsUpdate(t, heard) {
      forall r | upstream(r) && Failed(r) ensures Updated(t, heard) == Updated(initial, r) { assert raw == r; }
    }
  }

  lemma FinishStep(s: System, e: Event, initial: Task, upstream: Upstream)
    requires OnlyFinishes(initial.status, upstream) && Unfinished(initial) && FinishInv(s, initial, upstream)
    ensures FinishInv(Step(s, e, upstream, true), initial, upstream)
  {
    if e.Hear? && e.p in s.loaded && upstream(e.raw) {
      HearKeepsCopy(s.row, s.loaded[e.p].task, e.raw, e.now, e.written, initial, upstream);
    }
  }

  lemma {:induction false} FinishRun(s: System, events: seq<Event>, initial: Task, upstream: Upstream)
    requires OnlyFinishes(initial.status, upstream) && Unfinished(initial) && FinishInv(s, initial, upstream)
    ensures Run(s, events, upstream, true).refunds <= 1
    decreases events
  {
    if events != [] {
      FinishStep(s, events[0], initial, upstream);
      FinishRun(Step(s, events[0], upstream, true), events[1..], initial, upstream);
    }
  }

  /** A second refund, whenever upstream can say something else. */
  lemma TwiceUnlessOnlyFinishes(s: System, upstream: Upstream, r: Response) returns (events: seq<Event>)
    requires Fresh(s) && upstream(r)
    requires s.row.status == FAILURE || r.progress != DONE || r.status == s.row.status
             || (Failed(r) && (r != Timed(r) || exists x :: upstream(x) && x != r))
    ensures Run(s, events, upstream, true).refunds >= 2
  {
    var late := Hear(0, r, Late(s.row), true);
    if s.row.status == FAILURE {
      events := TwiceByKeepingStatus(s, upstream, r, Late(s.row), true);
    } else if r.progress != DONE {
      TwiceByComingLate(s, upstream, r);
      var lateR := Hear(0, r, LateForBoth(s.row, r), true);
      events := [Load(0), lateR, lateR, lateR];
    } else if !Failed(r) {
      TwiceByReturningStatus(s, upstream, r);
      var late1 := Hear(1, r, Late(s.row), true);
      events := [Load(1), Load(2), late1, late1] + [Hear(2, r, Late(s.row), true)];
    } else if r != Timed(r) {
      TwiceByTwoReasons(s, upstream, r);
      events := [Load(0), late] + [late];
    } else {
      var x :| upstream(x) && x != r;
      if x.progress != DONE {
        TwiceByComingLate(s, upstream, x);
        var lateX := Hear(0, x, LateForBoth(s.row, x), true);
        events := [Load(0), lateX, lateX, lateX];
      } else {
        TwiceAroundAnother(s, upstream, r, x);
        var hr := Hear(0, r, s.row.submitTime, true);
        events := [Load(0), hr, Hear(0, x, s.row.submitTime, true), hr];
      }
    }
  }

  /** The exact condition when an answer may name a task any number of times. */
  lemma RepeatedlyRefundedAtMostOnceIff(s: System, upstream: Upstream)
    requires Fresh(s)
    ensures RefundedAtMostOnce(s, upstream, true) <==> OnlyFinishes(s.row.status, upstream)
  {
    if OnlyFinishes(s.row.status, upstream) {
      forall events ensures Run(s, events, upstream, true).refunds <= 1 { FinishRun(s, events, s.row, upstream); }
    } else {
      var r :| upstream(r) && !(s.row.status != FAILURE && r.progress == DONE && r.status != s.row.status
                                && (Failed(r) ==> r == Timed(r) && forall x :: upstream(x) ==> x == r));
      var events := TwiceUnlessOnlyFinishes(s, upstream, r);
      assert !(Run(s, events, upstream, true).refunds <= 1);
    }
  }
}
