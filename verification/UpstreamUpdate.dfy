/** Reconciling a channel's models with its upstream (controller/channel_upstream_update.go).

A row holds the stored models, the ignore rules and the two pending lists. A check compares the
row with an upstream list (or fails, or is skipped); an apply adopts the selected pending changes.
Regular-expression matching is a parameter: nothing below depends on which names a pattern matches.
*/
module UpstreamUpdate {
  import opened Strings
  import opened ModelNames
  import opened Options

  type Matcher = (string, string) -> bool

  datatype Row = Row(
    models: string,
    ignored: seq<string>,
    detected: seq<string>,
    removed: seq<string>,
    lastCheck: int,
    autoSync: bool)

  /** One call of the check; `upstream` is `None` when the fetch failed. */
  datatype Check = Check(
    now: int,
    minInterval: int,
    force: bool,
    allowAuto: bool,
    mapping: map<string, string>,
    upstream: Option<seq<string>>,
    persisted: bool)

  datatype Selection = Selection(add: seq<string>, ignore: seq<string>, remove: seq<string>)

  // ---------------------------------------------------------------- what is pending

  const REGEX_PREFIX := "regex:"

  predicate RuleMatches(rule: string, name: string, rx: Matcher) {
    if HasPrefix(rule, REGEX_PREFIX) then rx(TrimSpace(rule[|REGEX_PREFIX|..]), name) else rule == name
  }

  predicate IgnoredBy(name: string, rules: seq<string>, rx: Matcher) {
    exists r :: r in rules && RuleMatches(r, name, rx)
  }

  predicate Wanted(u: string, local: seq<string>, rules: seq<string>, mapping: map<string, string>, rx: Matcher) {
    u !in local && u !in mapping.Values && !IgnoredBy(u, rules, rx)
  }

  /** `collectPendingUpstreamModelChangesFromModels`. */
  function PendingAdd(local: seq<string>, upstream: seq<string>, ignored: seq<string>,
                      mapping: map<string, string>, rx: Matcher): (r: seq<string>)
    ensures Normalized(r)
  {
    var l, rules := Normalize(local), Normalize(ignored);
    NormalizeIsNormalized(Filter(Normalize(upstream), u => Wanted(u, l, rules, mapping, rx)));
    Normalize(Filter(Normalize(upstream), u => Wanted(u, l, rules, mapping, rx)))
  }

  function PendingRemove(local: seq<string>, upstream: seq<string>, mapping: map<string, string>): (r: seq<string>)
    ensures Normalized(r)
  {
    var u := Normalize(upstream);
    NormalizeIsNormalized(Filter(Normalize(local), l => l !in mapping.Keys && l !in u));
    Normalize(Filter(Normalize(local), l => l !in mapping.Keys && l !in u))
  }

  lemma PendingAddMember(local: seq<string>, upstream: seq<string>, ignored: seq<string>,
                         mapping: map<string, string>, rx: Matcher, x: string)
    ensures x in PendingAdd(local, upstream, ignored, mapping, rx)
            <==> x in Normalize(upstream) && Wanted(x, Normalize(local), Normalize(ignored), mapping, rx)
  {
    var l, rules := Normalize(local), Normalize(ignored);
    var f := u => Wanted(u, l, rules, mapping, rx);
    NormalizeIsNormalized(upstream);
    FilterNormalized(Normalize(upstream), f);
    NormalizeFixed(Filter(Normalize(upstream), f));
  }

  lemma PendingRemoveMember(local: seq<string>, upstream: seq<string>, mapping: map<string, string>, x: string)
    ensures x in PendingRemove(local, upstream, mapping)
            <==> x in Normalize(local) && x !in mapping.Keys && x !in Normalize(upstream)
  {
    var u := Normalize(upstream);
    var f := l => l !in mapping.Keys && l !in u;
    NormalizeIsNormalized(local);
    FilterNormalized(Normalize(local), f);
    NormalizeFixed(Filter(Normalize(local), f));
  }

  // ---------------------------------------------------------------- one step

  predicate Skips(row: Row, c: Check) {
    !c.force && row.lastCheck > 0 && c.now - row.lastCheck < c.minInterval
  }

  /** The additions and removals a successful check finds. */
  function Found(row: Row, c: Check, rx: Matcher): (seq<string>, seq<string>)
    requires c.upstream.Some?
  {
    (PendingAdd(GetModels(row.models), c.upstream.value, row.ignored, c.mapping, rx),
     PendingRemove(GetModels(row.models), c.upstream.value, c.mapping))
  }

  datatype Outcome = Outcome(row: Row, modelsChanged: bool, autoAdded: int)

  /** `checkAndPersistChannelUpstreamModelUpdates`, as the stored row sees it. */
  function CheckStep(row: Row, c: Check, rx: Matcher): Outcome {
    if Skips(row, c) then Outcome(row, false, 0)
    else if c.upstream.None? then Outcome(if c.persisted then row.(lastCheck := c.now) else row, false, 0)
    else
      var (add, remove) := Found(row, c, rx);
      Record(row, c, add, remove)
  }

  /** A successful check records what it found, or adopts the additions at once. */
  function Record(row: Row, c: Check, add: seq<string>, remove: seq<string>): Outcome {
    if c.allowAuto && row.autoSync && |add| > 0 then
      var origin := Local(row.models);
      var merged := Merge(origin, add);
      var changed := |merged| > |origin|;
      var row' := row.(models := if changed then Join(merged, COMMA) else row.models,
                       detected := [], removed := remove, lastCheck := c.now);
      var autoAdded := if changed then |merged| - |origin| else 0;
      if c.persisted then Outcome(row', changed, autoAdded) else Outcome(row, false, autoAdded)
    else
      var row' := row.(detected := add, removed := remove, lastCheck := c.now);
      Outcome(if c.persisted then row' else row, false, 0)
  }

  datatype Applied = Applied(
    row: Row,
    added: seq<string>,
    removed: seq<string>,
    remaining: seq<string>,
    remainingRemove: seq<string>,
    modelsChanged: bool)

  function SelectedAdd(row: Row, s: Selection): (r: seq<string>)
    ensures Normalized(r)
  { Intersect(s.add, Normalize(row.detected)) }

  function SelectedIgnore(row: Row, s: Selection): (r: seq<string>)
    ensures Normalized(r)
  { Intersect(s.ignore, Normalize(row.detected)) }

  function SelectedRemove(row: Row, s: Selection): (r: seq<string>)
    ensures Normalized(r)
  { Subtract(Intersect(s.remove, Normalize(row.removed)), SelectedAdd(row, s)) }

  /** `applyChannelUpstreamModelUpdates` when the write succeeds. */
  function ApplyStep(row: Row, s: Selection, now: int): Applied {
    Adopt(row, SelectedAdd(row, s), SelectedIgnore(row, s), SelectedRemove(row, s), now)
  }

  function Adopt(row: Row, add: seq<string>, ignore: seq<string>, remove: seq<string>, now: int): Applied {
    var origin := Local(row.models);
    var next := ApplySelected(origin, add, remove);
    Rewrite(row, add, remove, origin != next, Join(next, COMMA),
            NextIgnored(row.ignored, add, ignore),
            Subtract(Normalize(row.detected), add + ignore),
            Subtract(Normalize(row.removed), remove),
            now)
  }

  /** The row and the answer once the new lists are known. */
  function Rewrite(row: Row, add: seq<string>, remove: seq<string>, changed: bool, joined: string,
                   ignored: seq<string>, remaining: seq<string>, remainingRemove: seq<string>, now: int): Applied {
    var row' := row.(models := if changed then joined else row.models,
                     ignored := ignored, detected := remaining, removed := remainingRemove, lastCheck := now);
    Applied(row', add, remove, remaining, remainingRemove, changed)
  }

  function NextIgnored(ignored: seq<string>, add: seq<string>, ignore: seq<string>): (r: seq<string>)
    ensures Normalized(r)
  {
    var rules := Merge(ignored, ignore);
    if |add| > 0 then Subtract(rules, add) else rules
  }

  method UpdateIgnored(ignored: seq<string>, add: seq<string>, ignore: seq<string>) returns (r: seq<string>)
    ensures r == NextIgnored(ignored, add, ignore)
  {
    r := MergeModelNames(ignored, ignore);
    if |add| > 0 {
      r := Subtract(r, add);
    }
  }

  // ---------------------------------------------------------------- the channel object

  class Channel {
    var models: string
    var ignored: seq<string>
    var detected: seq<string>
    var removed: seq<string>
    var lastCheck: int
    var autoSync: bool

    function Stored(): Row reads this { Row(models, ignored, detected, removed, lastCheck, autoSync) }

    method CheckAndPersist(c: Check, rx: Matcher) returns (modelsChanged: bool, autoAdded: int)
      modifies this
      ensures Outcome(Stored(), modelsChanged, autoAdded) == CheckStep(old(Stored()), c, rx)
    {
      modelsChanged, autoAdded := false, 0;
      if !c.force {
        if lastCheck > 0 && c.now - lastCheck < c.minInterval {
          return;
        }
      }
      if c.upstream.None? {
        if c.persisted { lastCheck := c.now; }
        return;
      }
      var (pendingAdd, pendingRemove) := Found(Stored(), c, rx);
      modelsChanged, autoAdded := RecordFound(c, pendingAdd, pendingRemove);
    }

    method RecordFound(c: Check, pendingAdd: seq<string>, pendingRemove: seq<string>)
      returns (modelsChanged: bool, autoAdded: int)
      modifies this
      ensures Outcome(Stored(), modelsChanged, autoAdded) == Record(old(Stored()), c, pendingAdd, pendingRemove)
    {
      modelsChanged, autoAdded := false, 0;
      var newModels, newDetected := models, pendingAdd;
      if c.allowAuto && autoSync && |pendingAdd| > 0 {
        var origin := Local(models);
        var merged := MergeModelNames(origin, pendingAdd);
        if |merged| > |origin| {
          newModels := Join(merged, COMMA);
          autoAdded := |merged| - |origin|;
          modelsChanged := true;
        }
        newDetected := [];
      }
      if !c.persisted {
        modelsChanged := false;
        return;
      }
      models, detected, removed, lastCheck := newModels, newDetected, pendingRemove, c.now;
    }

    method ApplyUpdates(s: Selection, now: int, persisted: bool) returns (r: Applied)
      modifies this
      ensures r.row == Stored()
      ensures persisted ==> r == ApplyStep(old(Stored()), s, now)
      ensures !persisted ==> r == Applied(old(Stored()), [], [], [], [], false)
    {
      var added := SelectedAdd(Stored(), s);
      var ignore := SelectedIgnore(Stored(), s);
      var dropped := SelectedRemove(Stored(), s);
      r := AdoptSelected(added, ignore, dropped, now, persisted);
    }

    method AdoptSelected(add: seq<string>, ignore: seq<string>, remove: seq<string>, now: int, persisted: bool)
      returns (r: Applied)
      modifies this
      ensures r.row == Stored()
      ensures persisted ==> r == Adopt(old(Stored()), add, ignore, remove, now)
      ensures !persisted ==> r == Applied(old(Stored()), [], [], [], [], false)
    {
      var origin := Local(models);
      var next := ApplySelected(origin, add, remove);
      var newIgnored := UpdateIgnored(ignored, add, ignore);
      var remaining := Subtract(Normalize(detected), add + ignore);
      var remainingRemove := Subtract(Normalize(removed), remove);
      if !persisted {
        return Applied(Stored(), [], [], [], [], false);
      }
      r := Write(add, remove, origin != next, Join(next, COMMA), newIgnored, remaining, remainingRemove, now);
    }

    method Write(add: seq<string>, remove: seq<string>, modelsChanged: bool, joined: string, newIgnored: seq<string>,
                 remaining: seq<string>, remainingRemove: seq<string>, now: int)
      returns (r: Applied)
      modifies this
      ensures r.row == Stored()
      ensures r == Rewrite(old(Stored()), add, remove, modelsChanged, joined, newIgnored, remaining, remainingRemove, now)
    {
      if modelsChanged {
        models := joined;
      }
      ignored, detected, removed, lastCheck := newIgnored, remaining, remainingRemove, now;
      r := Applied(Stored(), add, remove, remaining, remainingRemove, modelsChanged);
    }
  }

  // ---------------------------------------------------------------- what every step keeps

  predicate Disjoint(a: seq<string>, b: seq<string>) { forall x :: x in a ==> x !in b }

  predicate Within(a: seq<string>, b: seq<string>) { forall x :: x in a ==> x in b }

  /** Ignore entries that name a model outright. */
  predicate LiterallyIgnored(x: string, ignored: seq<string>) {
    x in Normalize(ignored) && !HasPrefix(x, REGEX_PREFIX)
  }

  predicate Consistent(row: Row) {
    && Normalized(row.detected) && Normalized(row.removed)
    && Disjoint(row.detected, Local(row.models))
    && Disjoint(row.detected, row.removed)
    && Within(row.removed, Local(row.models))
    && (forall x :: x in row.detected ==> !LiterallyIgnored(x, row.ignored))
  }

  /** Storing a list keeps its comma-free names. */
  lemma StoredKeeps(list: seq<string>, x: string)
    requires x in list && Clean(x) && COMMA !in x
    ensures x in Local(Join(list, COMMA))
  {
    PiecesOfPlainName(x);
    StoredNames(list, x);
  }

  lemma FoundIsConsistent(row: Row, c: Check, rx: Matcher)
    requires c.upstream.Some?
    ensures var (add, remove) := Found(row, c, rx);
            Consistent(row.(detected := add, removed := remove)) && Within(add, Normalize(c.upstream.value))
  {
    var (add, remove) := Found(row, c, rx);
    forall x ensures x in add <==> x in Normalize(c.upstream.value)
                                   && Wanted(x, Local(row.models), Normalize(row.ignored), c.mapping, rx) {
      PendingAddMember(GetModels(row.models), c.upstream.value, row.ignored, c.mapping, rx, x);
    }
    forall x ensures x in remove ==> x in Local(row.models) {
      PendingRemoveMember(GetModels(row.models), c.upstream.value, c.mapping, x);
    }
    forall x | x in add ensures !LiterallyIgnored(x, row.ignored) {
      assert !IgnoredBy(x, Normalize(row.ignored), rx);
    }
  }

  lemma CheckKeepsConsistent(row: Row, c: Check, rx: Matcher)
    requires Consistent(row)
    ensures Consistent(CheckStep(row, c, rx).row)
  {
    if !Skips(row, c) && c.upstream.Some? {
      FoundIsConsistent(row, c, rx);
      var (add, remove) := Found(row, c, rx);
      var row' := CheckStep(row, c, rx).row;
      if row'.models != row.models {
        var origin := Local(row.models);
        MergeNames(origin, add);
        LocalCommaFree(row.models);
        forall x | x in remove ensures x in Local(row'.models) {
          StoredKeeps(Merge(origin, add), x);
        }
      }
    }
  }

  // ---------------------------------------------------------------- what an apply does

  lemma SelectedMember(row: Row, s: Selection, x: string)
    requires Normalized(row.detected) && Normalized(row.removed)
    ensures x in SelectedAdd(row, s) <==> x in Normalize(s.add) && x in row.detected
    ensures x in SelectedIgnore(row, s) <==> x in Normalize(s.ignore) && x in row.detected
    ensures x in SelectedRemove(row, s) <==> x in Normalize(s.remove) && x in row.removed && x !in SelectedAdd(row, s)
  {
    NormalizeFixed(row.detected);
    NormalizeFixed(row.removed);
    IntersectMember(s.add, row.detected, x);
    IntersectMember(s.ignore, row.detected, x);
    IntersectMember(s.remove, row.removed, x);
    SubtractMember(Intersect(s.remove, row.removed), SelectedAdd(row, s), x);
  }

  lemma NextIgnoredMember(ignored: seq<string>, add: seq<string>, ignore: seq<string>, x: string)
    requires Normalized(add) && Normalized(ignore)
    ensures x in NextIgnored(ignored, add, ignore) <==> (x in Normalize(ignored) || x in ignore) && x !in add
  {
    NormalizeConcatMember(ignored, ignore, x);
    NormalizeFixed(ignore);
    if |add| > 0 {
      SubtractMember(Merge(ignored, ignore), add, x);
    }
  }

  lemma RemainingMember(row: Row, s: Selection, now: int, x: string)
    requires Normalized(row.detected) && Normalized(row.removed)
    ensures x in ApplyStep(row, s, now).row.detected
            <==> x in row.detected && x !in SelectedAdd(row, s) && x !in SelectedIgnore(row, s)
    ensures x in ApplyStep(row, s, now).row.removed <==> x in row.removed && x !in SelectedRemove(row, s)
  {
    var add, ignore := SelectedAdd(row, s), SelectedIgnore(row, s);
    NormalizeFixed(row.detected);
    NormalizeFixed(row.removed);
    NormalizeFixed(add);
    NormalizeFixed(ignore);
    NormalizeConcatMember(add, ignore, x);
    SubtractMember(row.removed, SelectedRemove(row, s), x);
  }

  /** The stored models after an apply, read back: what stays, and the pieces of what is added. */
  lemma LocalAfterApply(row: Row, s: Selection, now: int, x: string)
    ensures x in Local(ApplyStep(row, s, now).row.models)
            <==> (x in Local(row.models) && x !in SelectedRemove(row, s))
                 || exists a :: a in SelectedAdd(row, s) && x in Pieces(a)
  {
    var add, remove := SelectedAdd(row, s), SelectedRemove(row, s);
    var origin := Local(row.models);
    var next := ApplySelected(origin, add, remove);
    LocalCommaFree(row.models);
    if origin == next {
      assert CommaFree(next);
      StoreRoundTrip(next);
    }
    StoredNames(next, x);
    assert Local(ApplyStep(row, s, now).row.models) == Local(Join(next, COMMA));
    if x in Local(Join(next, COMMA)) {
      var n :| n in next && x in Pieces(n);
      ApplySelectedMember(origin, add, remove, n);
      if n !in add { PiecesOfPlainName(n); }
    }
    if x in origin && x !in remove {
      ApplySelectedMember(origin, add, remove, x);
      StoredKeeps(next, x);
    }
    if a :| a in add && x in Pieces(a) {
      ApplySelectedMember(origin, add, remove, a);
    }
  }

  /** No added name splits into a pending name that is neither added nor ignored with it. */
  predicate StaysClear(row: Row, s: Selection) {
    LeavesNone(SelectedAdd(row, s), SelectedIgnore(row, s), row.detected)
  }

  predicate LeavesNone(add: seq<string>, ignore: seq<string>, pending: seq<string>) {
    forall a, x :: a in add && x in Pieces(a) && x in pending ==> x in add || x in ignore
  }

  /** No added name splits into a name that stays pending. */
  predicate PiecesStayClear(add: seq<string>, pending: seq<string>) {
    forall a, x :: a in add && x in Pieces(a) ==> x !in pending
  }

  lemma StaysClearIff(row: Row, s: Selection, now: int)
    requires Normalized(row.detected) && Normalized(row.removed)
    ensures StaysClear(row, s) <==> PiecesStayClear(SelectedAdd(row, s), ApplyStep(row, s, now).row.detected)
  {
    forall x ensures x in ApplyStep(row, s, now).row.detected
                     <==> x in row.detected && x !in SelectedAdd(row, s) && x !in SelectedIgnore(row, s) {
      RemainingMember(row, s, now, x);
    }
    ClearIff(SelectedAdd(row, s), SelectedIgnore(row, s), row.detected, ApplyStep(row, s, now).row.detected);
  }

  lemma ClearIff(add: seq<string>, ignore: seq<string>, detected: seq<string>, remaining: seq<string>)
    requires forall x :: x in remaining <==> x in detected && x !in add && x !in ignore
    ensures LeavesNone(add, ignore, detected) <==> PiecesStayClear(add, remaining)
  {
  }

  /** What an apply always keeps about one name. */
  lemma ApplyKeepsRest(row: Row, s: Selection, now: int, x: string)
    requires Consistent(row)
    ensures var row' := ApplyStep(row, s, now).row;
            && (x in row'.detected ==> x in row.detected && x !in row'.removed && !LiterallyIgnored(x, row'.ignored))
            && (x in row'.removed ==> x in Local(row'.models))
  {
    SelectedMember(row, s, x);
    RemainingMember(row, s, now, x);
    if x in ApplyStep(row, s, now).row.removed {
      LocalAfterApply(row, s, now, x);
    }
    var ignored' := ApplyStep(row, s, now).row.ignored;
    NextIgnoredMember(row.ignored, SelectedAdd(row, s), SelectedIgnore(row, s), x);
    NormalizeFixed(ignored');
  }

  /** A pending name meets the local ones after an apply only as a piece of an added name. */
  lemma PendingMeetsLocal(row: Row, s: Selection, now: int, x: string)
    requires Consistent(row)
    ensures x in ApplyStep(row, s, now).row.detected ==>
              (x in Local(ApplyStep(row, s, now).row.models) <==> exists a :: a in SelectedAdd(row, s) && x in Pieces(a))
  {
    RemainingMember(row, s, now, x);
    LocalAfterApply(row, s, now, x);
  }

  lemma ConsistentIff(row: Row, add: seq<string>)
    requires Normalized(row.detected) && Normalized(row.removed)
    requires forall x :: x in row.detected ==> x !in row.removed && !LiterallyIgnored(x, row.ignored)
    requires Within(row.removed, Local(row.models))
    requires forall x :: x in row.detected ==> (x in Local(row.models) <==> exists a :: a in add && x in Pieces(a))
    ensures Consistent(row) <==> PiecesStayClear(add, row.detected)
  {
    if PiecesStayClear(add, row.detected) {
    } else {
      var a, x :| a in add && x in Pieces(a) && x in row.detected;
    }
  }

  /** An apply keeps the row consistent exactly when no added name splits into a pending one that is left alone. */
  lemma ApplyKeepsConsistentIff(row: Row, s: Selection, now: int)
    requires Consistent(row)
    ensures Consistent(ApplyStep(row, s, now).row) <==> StaysClear(row, s)
  {
    var row' := ApplyStep(row, s, now).row;
    forall x
      ensures x in row'.detected ==> x !in row'.removed && !LiterallyIgnored(x, row'.ignored)
      ensures x in row'.removed ==> x in Local(row'.models)
    {
      ApplyKeepsRest(row, s, now, x);
    }
    forall x | x in row'.detected
      ensures x in Local(row'.models) <==> exists a :: a in SelectedAdd(row, s) && x in Pieces(a)
    {
      PendingMeetsLocal(row, s, now, x);
    }
    ConsistentIff(row', SelectedAdd(row, s));
    StaysClearIff(row, s, now);
  }

  lemma CommaFreeStaysClear(row: Row, s: Selection, now: int)
    requires Consistent(row) && CommaFree(row.detected)
    ensures StaysClear(row, s)
    ensures CommaFree(ApplyStep(row, s, now).row.detected)
  {
    forall a, x | a in SelectedAdd(row, s) && x in Pieces(a) ensures x in SelectedAdd(row, s) {
      SelectedMember(row, s, a);
      PiecesOfPlainName(a);
    }
    forall x | x in ApplyStep(row, s, now).row.detected ensures COMMA !in x { RemainingMember(row, s, now, x); }
  }
}
