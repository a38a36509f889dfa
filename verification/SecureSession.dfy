/** Step-up verification kept in the login session (controller/secure_verification.go, lines 68-179;
controller/passkey.go, lines 495-503 and 569-586).

A passkey ceremony leaves a short-lived mark; the verification endpoint turns that mark, or a valid code,
into a verification that later checks rely on. `saved` flags say whether writing the session succeeded;
when it did not, the stored session stays as it was. */
module SecureSession {
  import opened Options

  const READY_TIMEOUT := 60
  const VERIFIED_TIMEOUT := 300

  const TWO_FA := "2fa"
  const PASSKEY := "passkey"

  datatype Session = Session(readyAt: Option<int>, verifiedAt: Option<int>, method_: Option<string>)

  const EMPTY := Session(None, None, None)

  /** A verification request: what the user has set up, what they sent, the two clock readings. */
  datatype Request = Request(
    method_: string, has2FA: bool, hasPasskey: bool, code: string, codeIsValid: bool,
    now: int, later: int, consumeSaved: bool, setSaved: bool)

  datatype Event =
    | Finish(now: int, saved: bool)
    | Verify(request: Request)
    | Check(method_: string, now: int, saved: bool)

  // ---------------------------------------------------------------- one step

  function FinishStep(s: Session, now: int, saved: bool): Session {
    if saved then Session(Some(now), None, None) else s
  }

  /** `consumePasskeyReady`: the stored session afterwards, and whether a live mark was used up. */
  function Consume(s: Session, now: int, saved: bool): (Session, bool) {
    if s.readyAt.None? || !saved then (s, false)
    else (s.(readyAt := None), now - s.readyAt.value < READY_TIMEOUT)
  }

  /** `setSecureVerificationSession`. */
  function SetVerified(s: Session, by_: string, now: int, saved: bool): (Session, bool) {
    if saved then (Session(None, Some(now), Some(by_)), true) else (s, false)
  }

  /** The method switch of `UniversalVerify`. */
  function VerifyStep(s: Session, r: Request): (Session, bool) {
    if !r.has2FA && !r.hasPasskey then (s, false)
    else if r.method_ == TWO_FA then
      if !r.has2FA || r.code == "" || !r.codeIsValid then (s, false)
      else SetVerified(s, r.method_, r.later, r.setSaved)
    else if r.method_ == PASSKEY then
      if !r.hasPasskey then (s, false)
      else
        var (s', live) := Consume(s, r.now, r.consumeSaved);
        if !live then (s', false) else SetVerified(s', r.method_, r.later, r.setSaved)
    else (s, false)
  }

  /** `requireSecureVerificationMethod`. */
  function CheckStep(s: Session, by_: string, now: int, saved: bool): (Session, bool) {
    if s.verifiedAt.None? || now - s.verifiedAt.value >= VERIFIED_TIMEOUT then
      (if saved then s.(verifiedAt := None, method_ := None) else s, false)
    else (s, s.method_ == Some(by_))
  }

  function Step(s: Session, e: Event): (Session, bool) {
    match e
    case Finish(now, saved) => (FinishStep(s, now, saved), saved)
    case Verify(r) => VerifyStep(s, r)
    case Check(by_, now, saved) => CheckStep(s, by_, now, saved)
  }

  // ---------------------------------------------------------------- the stored session

  class Store {
    var readyAt: Option<int>
    var verifiedAt: Option<int>
    var method_: Option<string>

    function Now(): Session reads this { Session(readyAt, verifiedAt, method_) }

    constructor ()
      ensures Now() == EMPTY
    {
      readyAt, verifiedAt, method_ := None, None, None;
    }

    method PasskeyVerifyFinish(now: int, saved: bool)
      modifies this
      ensures Now() == FinishStep(old(Now()), now, saved)
    {
      if saved {
        readyAt, verifiedAt, method_ := Some(now), None, None;
      }
    }

    method ConsumePasskeyReady(now: int, saved: bool) returns (live: bool)
      modifies this
      ensures (Now(), live) == Consume(old(Now()), now, saved)
    {
      if readyAt.None? {
        return false;
      }
      var mark := readyAt.value;
      if !saved {
        return false;
      }
      readyAt := None;
      return now - mark < READY_TIMEOUT;
    }

    method SetSecureVerification(by_: string, now: int, saved: bool) returns (ok: bool)
      modifies this
      ensures (Now(), ok) == SetVerified(old(Now()), by_, now, saved)
    {
      if saved {
        readyAt, verifiedAt, method_ := None, Some(now), Some(by_);
      }
      return saved;
    }

    method UniversalVerify(r: Request) returns (ok: bool)
      modifies this
      ensures (Now(), ok) == VerifyStep(old(Now()), r)
    {
      if !r.has2FA && !r.hasPasskey {
        return false;
      }
      if r.method_ == TWO_FA {
        if !r.has2FA || r.code == "" || !r.codeIsValid {
          return false;
        }
      } else if r.method_ == PASSKEY {
        if !r.hasPasskey {
          return false;
        }
        var live := ConsumePasskeyReady(r.now, r.consumeSaved);
        if !live {
          return false;
        }
      } else {
        return false;
      }
      ok := SetSecureVerification(r.method_, r.later, r.setSaved);
    }

    method RequireMethod(by_: string, now: int, saved: bool) returns (ok: bool)
      modifies this
      ensures (Now(), ok) == CheckStep(old(Now()), by_, now, saved)
    {
      if verifiedAt.None? || now - verifiedAt.value >= VERIFIED_TIMEOUT {
        if saved {
          verifiedAt, method_ := None, None;
        }
        return false;
      }
      return method_.Some? && method_.value == by_;
    }
  }

  // ---------------------------------------------------------------- histories

  function SessionAfter(events: seq<Event>): Session {
    if events == [] then EMPTY
    else var n := |events| - 1; Step(SessionAfter(events[..n]), events[n]).0
  }

  // What a verification needs, in terms of the requests made so far.

  /** A valid code from a user who has set up two-factor authentication. */
  predicate CodeAccepted(r: Request) { r.method_ == "2fa" && r.has2FA && r.code != "" && r.codeIsValid }

  /** A passkey verification that gets as far as using up a mark. */
  predicate UsesMark(r: Request) { r.method_ == "passkey" && r.hasPasskey && r.consumeSaved }

  /** This request leaves no earlier mark unused. */
  predicate SpendsMark(e: Event) {
    e.Verify? && (UsesMark(e.request) || (CodeAccepted(e.request) && e.request.setSaved))
  }

  /** When the latest completed ceremony took place, if nothing has used it up since. */
  function Unused(events: seq<Event>): Option<int> {
    if events == [] then None
    else
      var n := |events| - 1;
      var e := events[n];
      if e.Finish? && e.saved then Some(e.now)
      else if SpendsMark(e) then None
      else Unused(events[..n])
  }

  /** After these requests a verification is to succeed. */
  predicate Accepted(events: seq<Event>, r: Request) {
    r.setSaved && (CodeAccepted(r) || (UsesMark(r) && Unused(events).Some? && r.now - Unused(events).value < 60))
  }

  /** The session's mark is the latest ceremony that is unused. */
  lemma {:induction false} MarkIsUnused(events: seq<Event>)
    ensures SessionAfter(events).readyAt == Unused(events)
  {
    if events != [] { MarkIsUnused(events[..|events| - 1]); }
  }

  /** Over every history: a verification succeeds exactly when its session write succeeds and either the method is "2fa",
      set up, with a valid code, or it is "passkey", set up, with the mark saved as used and the latest completed
      ceremony unused and under a minute old. No other method ever succeeds. */
  lemma VerificationSucceedsIff(events: seq<Event>, r: Request)
    ensures Step(SessionAfter(events), Verify(r)).1 <==> Accepted(events, r)
  {
    MarkIsUnused(events);
  }

  /** Event `i` is a verification that succeeded. */
  predicate Verified(events: seq<Event>, i: nat) {
    i < |events| && events[i].Verify? && Accepted(events[..i], events[i].request)
  }

  function Start(e: Event): int { if e.Verify? then e.request.now else e.now }

  function End(e: Event): int { if e.Verify? then e.request.later else e.now }

  /** The clock never goes back. */
  predicate Clocked(events: seq<Event>) {
    && (forall i :: 0 <= i < |events| ==> Start(events[i]) <= End(events[i]))
    && (forall i, j :: 0 <= i < j < |events| ==> End(events[i]) <= Start(events[j]))
  }

  /** The latest completed verification with no passkey ceremony after it: method and time. */
  function Latest(events: seq<Event>): Option<(string, int)> {
    if events == [] then None
    else
      var n := |events| - 1;
      var e := events[n];
      if e.Finish? && e.saved then None
      else if e.Verify? && Accepted(events[..n], e.request) then Some((e.request.method_, e.request.later))
      else Latest(events[..n])
  }

  predicate Expired(at: int, now: int) { now - at >= VERIFIED_TIMEOUT }

  /** The session holds the latest verification, or that one has expired by now. */
  predicate Remembers(s: Session, latest: Option<(string, int)>, now: int) {
    || (latest.None? && s.verifiedAt.None?)
    || (latest.Some? && s.verifiedAt == Some(latest.value.1) && s.method_ == Some(latest.value.0))
    || (latest.Some? && s.verifiedAt.None? && Expired(latest.value.1, now))
  }

  lemma {:induction false} SessionRemembers(events: seq<Event>, now: int)
    requires Clocked(events) && (forall i :: 0 <= i < |events| ==> End(events[i]) <= now)
    ensures Remembers(SessionAfter(events), Latest(events), now)
  {
    if events != [] {
      var n := |events| - 1;
      SessionRemembers(events[..n], Start(events[n]));
      if events[n].Verify? { VerificationSucceedsIff(events[..n], events[n].request); }
    }
  }

  /** A check passes exactly when the latest completed verification used that method less than five minutes ago
      and no passkey ceremony was completed since. */
  lemma CheckPassesIff(events: seq<Event>, by_: string, now: int, saved: bool)
    requires Clocked(events) && (forall i :: 0 <= i < |events| ==> End(events[i]) <= now)
    ensures Step(SessionAfter(events), Check(by_, now, saved)).1
            <==> Latest(events).Some? && Latest(events).value.0 == by_ && now - Latest(events).value.1 < 300
  {
    SessionRemembers(events, now);
  }

  /** A check that is stored leaves a verification in the session only while it is good, and touches nothing else. */
  lemma CheckWipesExpired(s: Session, by_: string, now: int)
    ensures var s' := Step(s, Check(by_, now, true)).0;
            && s'.readyAt == s.readyAt
            && (s'.verifiedAt.Some? <==> s.verifiedAt.Some? && now - s.verifiedAt.value < 300)
            && (if s'.verifiedAt.Some? then s' == s else s'.method_ == None)
  {
  }

  /** Event `i` is the latest completed ceremony and nothing after it has used its mark. */
  predicate LiveMark(events: seq<Event>, i: nat) {
    && i < |events| && events[i].Finish? && events[i].saved
    && forall j :: i < j < |events| ==> !SpendsMark(events[j]) && !(events[j].Finish? && events[j].saved)
  }

  /** A mark in the session was left by the latest ceremony and has not been used. */
  lemma {:induction false} MarkHasOrigin(events: seq<Event>) returns (i: nat)
    requires SessionAfter(events).readyAt.Some?
    ensures LiveMark(events, i) && events[i].now == SessionAfter(events).readyAt.value
  {
    var n := |events| - 1;
    MarkIsUnused(events);
    MarkIsUnused(events[..n]);
    if events[n].Finish? && events[n].saved {
      i := n;
    } else {
      i := MarkHasOrigin(events[..n]);
      assert forall j :: i < j < n ==> events[..n][j] == events[j];
    }
  }

  /** Verification `j` rests on the mark of ceremony `i`: less than a minute old and not used in between. */
  predicate RestsOn(events: seq<Event>, i: nat, j: nat) {
    && i < j < |events| && events[i].Finish? && events[i].saved && events[j].Verify?
    && events[j].request.now - events[i].now < 60
    && forall k :: i < k < j ==> !SpendsMark(events[k]) && !(events[k].Finish? && events[k].saved)
  }

  predicate PasskeyVerified(events: seq<Event>, j: nat) {
    Verified(events, j) && events[j].request.method_ == "passkey"
  }

  /** Every successful passkey verification rests on an earlier ceremony. */
  lemma PasskeyVerificationHasMark(events: seq<Event>, j: nat) returns (i: nat)
    requires PasskeyVerified(events, j)
    ensures RestsOn(events, i, j)
  {
    MarkIsUnused(events[..j]);
    i := MarkHasOrigin(events[..j]);
    assert forall k :: i < k < j ==> events[..j][k] == events[k];
  }

  /** Marks are used once: to every successful passkey verification belongs a ceremony of its own. */
  lemma PasskeyVerificationsUseOwnMarks(events: seq<Event>, j: nat, k: nat) returns (markJ: nat, markK: nat)
    requires PasskeyVerified(events, j) && PasskeyVerified(events, k) && j < k
    ensures RestsOn(events, markJ, j) && RestsOn(events, markK, k)
    ensures markJ < j < markK < k
  {
    markJ := PasskeyVerificationHasMark(events, j);
    markK := PasskeyVerificationHasMark(events, k);
    assert SpendsMark(events[j]);
  }

  // ---------------------------------------------------------------- sessions that are sent again

  /** A request together with the session it carries: that which the `from`-th request left, or the empty one. The
      session travels in a cookie, so a client may send an earlier one again. */
  datatype Carried = Carried(event: Event, from: nat)

  predicate Earlier(requests: seq<Carried>) { forall i :: 0 <= i < |requests| ==> requests[i].from <= i }

  /** The session the `n`-th request leaves. */
  function SessionAt(requests: seq<Carried>, n: nat): Session
    requires Earlier(requests) && n <= |requests|
  {
    if n == 0 then EMPTY else Step(SessionAt(requests, requests[n - 1].from), requests[n - 1].event).0
  }

  /** The requests whose sessions led to that one. */
  function Chain(requests: seq<Carried>, n: nat): seq<Event>
    requires Earlier(requests) && n <= |requests|
  {
    if n == 0 then [] else Chain(requests, requests[n - 1].from) + [requests[n - 1].event]
  }

  /** A session knows its own chain and nothing else. */
  lemma {:induction false} SessionOfChain(requests: seq<Carried>, n: nat)
    requires Earlier(requests) && n <= |requests|
    ensures SessionAt(requests, n) == SessionAfter(Chain(requests, n))
  {
    if n > 0 {
      var before, e := Chain(requests, requests[n - 1].from), requests[n - 1].event;
      SessionOfChain(requests, requests[n - 1].from);
      assert (before + [e])[..|before|] == before;
    }
  }

  predicate ClockedRequests(requests: seq<Carried>) {
    && (forall i :: 0 <= i < |requests| ==> Start(requests[i].event) <= End(requests[i].event))
    && (forall i, j :: 0 <= i < j < |requests| ==> End(requests[i].event) <= Start(requests[j].event))
  }

  lemma {:induction false} ChainClocked(requests: seq<Carried>, n: nat, now: int)
    requires Earlier(requests) && ClockedRequests(requests) && n <= |requests|
    requires forall i :: 0 <= i < n ==> End(requests[i].event) <= now
    ensures Clocked(Chain(requests, n)) && forall i :: 0 <= i < |Chain(requests, n)| ==> End(Chain(requests, n)[i]) <= now
  {
    if n > 0 {
      var e := requests[n - 1].event;
      assert End(e) <= now;
      ChainClocked(requests, requests[n - 1].from, Start(e));
    }
  }

  /** With sessions sent again at will: a check passes exactly when, on the chain of the session it carries, the latest
      completed verification used that method less than five minutes ago and no ceremony was completed since. */
  lemma CarriedCheckPassesIff(requests: seq<Carried>, n: nat, by_: string, now: int, saved: bool)
    requires Earlier(requests) && ClockedRequests(requests) && n <= |requests|
    requires forall i :: 0 <= i < |requests| ==> End(requests[i].event) <= now
    ensures var latest := Latest(Chain(requests, n));
            Step(SessionAt(requests, n), Check(by_, now, saved)).1
            <==> latest.Some? && latest.value.0 == by_ && now - latest.value.1 < 300
  {
    SessionOfChain(requests, n);
    ChainClocked(requests, n, now);
    CheckPassesIff(Chain(requests, n), by_, now, saved);
  }

  /** With sessions sent again at will: a verification succeeds exactly when the chain of the session it carries says so. */
  lemma CarriedVerificationSucceedsIff(requests: seq<Carried>, n: nat, r: Request)
    requires Earlier(requests) && n <= |requests|
    ensures Step(SessionAt(requests, n), Verify(r)).1 <==> Accepted(Chain(requests, n), r)
  {
    SessionOfChain(requests, n);
    VerificationSucceedsIff(Chain(requests, n), r);
  }

  /** Every successful passkey verification still rests on a ceremony less than a minute old on its own chain. */
  lemma CarriedVerificationHasMark(requests: seq<Carried>, n: nat) returns (i: nat)
    requires Earlier(requests) && 0 < n <= |requests|
    requires var r := requests[n - 1];
             r.event.Verify? && r.event.request.method_ == "passkey" && Step(SessionAt(requests, r.from), r.event).1
    ensures RestsOn(Chain(requests, n), i, |Chain(requests, n)| - 1)
  {
    var before, e := Chain(requests, requests[n - 1].from), requests[n - 1].event;
    SessionOfChain(requests, requests[n - 1].from);
    VerificationSucceedsIff(before, e.request);
    assert (before + [e])[..|before|] == before;
    i := PasskeyVerificationHasMark(before + [e], |before|);
  }

  /** But a session sent again uses its mark again: two verifications rest on one ceremony. */
  lemma ResentSessionExample(r: Request, ready: int)
    requires r.method_ == PASSKEY && r.hasPasskey && r.consumeSaved && r.setSaved && r.now - ready < READY_TIMEOUT
    ensures var requests := [Carried(Finish(ready, true), 0), Carried(Verify(r), 1), Carried(Verify(r), 1)];
            && Earlier(requests)
            && Step(SessionAt(requests, requests[1].from), requests[1].event).1
            && Step(SessionAt(requests, requests[2].from), requests[2].event).1
  {
    var requests := [Carried(Finish(ready, true), 0), Carried(Verify(r), 1), Carried(Verify(r), 1)];
    assert SessionAt(requests, 1) == Session(Some(ready), None, None);
  }
}
