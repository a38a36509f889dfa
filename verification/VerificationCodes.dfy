/** Expiring verification codes (common/verification.go). Times are nanoseconds. */
module VerificationCodes {
  import opened Options

  const EMAIL := "v"
  const PASSWORD_RESET := "r"
  const MAX_SIZE := 10
  const VALID: int := 600_000_000_000  // ten minutes

  datatype Entry = Entry(code: string, time: int)

  predicate Expired(e: Entry, now: int) { now - e.time >= VALID }

  /** A registration reads the clock once for the entry and once more if it sweeps. */
  datatype Event =
    | Register(key: string, code: string, purpose: string, now: int, later: int)
    | Verify(key: string, code: string, purpose: string, now: int)
    | Delete(key: string, purpose: string, now: int)

  type Codes = map<string, Entry>

  // ---------------------------------------------------------------- one step

  function Swept(codes: Codes, now: int): Codes {
    map k | k in codes && !Expired(codes[k], now) :: codes[k]
  }

  function RegisterStep(codes: Codes, key: string, code: string, purpose: string, now: int, later: int): Codes {
    var added := codes[purpose + key := Entry(code, now)];
    if |added| > MAX_SIZE then Swept(added, later) else added
  }

  predicate Verifies(codes: Codes, key: string, code: string, purpose: string, now: int) {
    purpose + key in codes && !Expired(codes[purpose + key], now) && codes[purpose + key].code == code
  }

  function Step(codes: Codes, e: Event): Codes {
    match e
    case Register(key, code, purpose, now, later) => RegisterStep(codes, key, code, purpose, now, later)
    case Verify(_, _, _, _) => codes
    case Delete(key, purpose, _) => codes - {purpose + key}
  }

  // ---------------------------------------------------------------- the object

  class Store {
    var codes: Codes

    constructor ()
      ensures codes == map[]
    {
      codes := map[];
    }

    method RegisterCode(key: string, code: string, purpose: string, now: int, later: int)
      modifies this
      ensures codes == RegisterStep(old(codes), key, code, purpose, now, later)
    {
      codes := codes[purpose + key := Entry(code, now)];
      if |codes| > MAX_SIZE {
        RemoveExpired(later);
      }
    }

    method VerifyCode(key: string, code: string, purpose: string, now: int) returns (ok: bool)
      ensures ok == Verifies(codes, key, code, purpose, now)
    {
      if purpose + key !in codes || now - codes[purpose + key].time >= VALID {
        return false;
      }
      return code == codes[purpose + key].code;
    }

    method DeleteKey(key: string, purpose: string)
      modifies this
      ensures codes == old(codes) - {purpose + key}
    {
      codes := codes - {purpose + key};
    }

    method RemoveExpired(now: int)
      modifies this
      ensures codes == Swept(old(codes), now)
    {
      var keys := codes.Keys;
      while keys != {}
        invariant keys <= old(codes).Keys
        invariant codes == map k | k in old(codes) && (k in keys || !Expired(old(codes)[k], now)) :: old(codes)[k]
        decreases |keys|
      {
        var key :| key in keys;
        keys := keys - {key};
        if Expired(codes[key], now) {
          codes := codes - {key};
        }
      }
    }
  }

  /** After a registration the store holds at most ten entries, or none that has expired; the new one is among them unless
      it expired on the spot. */
  lemma RegistrationKeepsStoreSmall(codes: Codes, key: string, code: string, purpose: string, now: int, later: int)
    ensures var after := RegisterStep(codes, key, code, purpose, now, later);
            && (|after| <= 10 || forall k :: k in after ==> later - after[k].time < 600_000_000_000)
            && (later - now < 600_000_000_000 ==> purpose + key in after && after[purpose + key] == Entry(code, now))
  {
  }

  // ---------------------------------------------------------------- names do not collide

  /** Concatenating purpose and key tells all keys of the two purposes apart exactly when neither purpose is a
      prefix of the other. */
  lemma NoCrossTalkIff(p: string, q: string)
    requires p != q
    ensures (forall j, k :: p + j != q + k) <==> !(p <= q) && !(q <= p)
  {
    if p <= q {
      var rest := q[|p|..];
      assert p + rest == q + [];
    } else if q <= p {
      var rest := p[|q|..];
      assert p + [] == q + rest;
    } else {
      forall j, k ensures p + j != q + k {
        var n := if |p| < |q| then |p| else |q|;
        assert (p + j)[..n] == p[..n] && (q + k)[..n] == q[..n];
      }
    }
  }

  predicate KnownPurpose(purpose: string) { purpose == EMAIL || purpose == PASSWORD_RESET }

  lemma SameSlot(p: string, j: string, q: string, k: string)
    requires KnownPurpose(p) && KnownPurpose(q)
    ensures p + j == q + k <==> p == q && j == k
  {
    assert (p + j)[0] == p[0] && (q + k)[0] == q[0];
    assert (p + j)[1..] == j && (q + k)[1..] == k;
  }

  // ---------------------------------------------------------------- histories

  function CodesAfter(events: seq<Event>): Codes {
    if events == [] then map[]
    else var n := |events| - 1; Step(CodesAfter(events[..n]), events[n])
  }

  function End(e: Event): int { if e.Register? then e.later else e.now }

  predicate Clocked(events: seq<Event>) {
    && (forall i :: 0 <= i < |events| ==> events[i].now <= End(events[i]))
    && (forall i, j :: 0 <= i < j < |events| ==> End(events[i]) <= events[j].now)
  }

  predicate KnownPurposes(events: seq<Event>) { forall e :: e in events ==> KnownPurpose(e.purpose) }

  /** The latest registration for this key and purpose, unless deleted since. */
  function Latest(events: seq<Event>, key: string, purpose: string): Option<Entry> {
    if events == [] then None
    else
      var n := |events| - 1;
      var e := events[n];
      if !e.Verify? && e.key == key && e.purpose == purpose then
        if e.Register? then Some(Entry(e.code, e.now)) else None
      else Latest(events[..n], key, purpose)
  }

  /** The stored entry is the latest registration, or that one has expired and been swept. */
  predicate Remembers(codes: Codes, key: string, purpose: string, latest: Option<Entry>, now: int) {
    if purpose + key in codes then latest == Some(codes[purpose + key])
    else latest.None? || Expired(latest.value, now)
  }

  lemma {:induction false} StoreRemembers(events: seq<Event>, key: string, purpose: string, now: int)
    requires Clocked(events) && KnownPurposes(events) && KnownPurpose(purpose)
    requires forall i :: 0 <= i < |events| ==> End(events[i]) <= now
    ensures Remembers(CodesAfter(events), key, purpose, Latest(events, key, purpose), now)
  {
    if events != [] {
      var n := |events| - 1;
      var e := events[n];
      assert e in events;
      StoreRemembers(events[..n], key, purpose, e.now);
      SameSlot(e.purpose, e.key, purpose, key);
    }
  }

  /** A code verifies exactly when the latest registration for that key and purpose carried it, was not deleted since
      and is less than ten minutes old; the sweep cannot be noticed. */
  lemma VerifiesIff(events: seq<Event>, key: string, code: string, purpose: string, now: int)
    requires Clocked(events) && KnownPurposes(events) && KnownPurpose(purpose)
    requires forall i :: 0 <= i < |events| ==> End(events[i]) <= now
    ensures Verifies(CodesAfter(events), key, code, purpose, now)
            <==> exists at :: Latest(events, key, purpose) == Some(Entry(code, at)) && now - at < 600_000_000_000
  {
    StoreRemembers(events, key, purpose, now);
    if Verifies(CodesAfter(events), key, code, purpose, now) {
      var e := CodesAfter(events)[purpose + key];
      assert Latest(events, key, purpose) == Some(Entry(code, e.time)) && now - e.time < VALID;
    }
  }
}
