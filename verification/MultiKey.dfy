/** Managing the keys of a multi-key channel (controller/channel.go, lines 1486-1912 and 976-1050), with
the write-back in `channel.Update()` (model/channel.go, lines 544-591).

The stored row holds the key text and three sparse maps indexed by key position. `Update` writes a
struct, and so leaves a stored column alone when the new value is the zero value: an empty key text
does not replace the stored one. */
module MultiKey {
  import opened Options
  import opened Strings
  import opened ModelNames
  import opened KeyText

  const ENABLED := 1
  const MANUALLY_DISABLED := 2
  const AUTO_DISABLED := 3

  datatype Info = Info(size: nat, status: map<nat, int>, time: map<nat, int>, reason: map<nat, string>)

  datatype Row = Row(key: string, info: Info)

  function StatusAt(info: Info, i: nat): int { if i in info.status then info.status[i] else ENABLED }

  // ---------------------------------------------------------------- what an operator sees

  /** One line of the key status page. */
  datatype KeyStatus = KeyStatus(key: string, status: int, time: int, reason: string)

  function StatusLine(info: Info, key: string, i: nat): KeyStatus {
    var s := StatusAt(info, i);
    KeyStatus(key, s,
              if s != ENABLED && i in info.time then info.time[i] else 0,
              if s != ENABLED && i in info.reason then info.reason[i] else "")
  }

  function Page(keys: seq<string>, info: Info): (r: seq<KeyStatus>)
    ensures |r| == |keys| && forall i :: 0 <= i < |keys| ==> r[i] == StatusLine(info, keys[i], i)
  {
    seq(|keys|, i requires 0 <= i < |keys| => StatusLine(info, keys[i], i))
  }

  /** The whole key status page. */
  function Report(row: Row, json: Json): seq<KeyStatus> { Page(GetKeys(row.key, json), row.info) }

  // ---------------------------------------------------------------- writing back

  /** `channel.Update()`: the stored row after writing `mem` over `stored`. */
  function Update(stored: Row, mem: Row, json: Json): Row {
    var key := if mem.key != [] then mem.key else stored.key;
    var size := |CountedKeys(key, json)|;
    Row(key, mem.info.(size := size, status := Below(mem.info.status, size)))
  }

  function Below(entries: map<nat, int>, size: nat): map<nat, int> { map i | i in entries && i < size :: entries[i] }

  // ---------------------------------------------------------------- deleting keys

  /** The positions below `n` that are kept. */
  function Kept(n: nat, keep: nat -> bool): (r: seq<nat>)
    ensures |r| <= n
    ensures forall j :: 0 <= j < |r| ==> r[j] < n
  {
    if n == 0 then [] else Kept(n - 1, keep) + if keep(n - 1) then [n - 1] else []
  }

  /** They are exactly the wanted ones, in order. */
  lemma {:induction false} KeptFacts(n: nat, keep: nat -> bool)
    ensures forall i: nat :: i in Kept(n, keep) <==> i < n && keep(i)
    ensures forall i, j :: 0 <= i < j < |Kept(n, keep)| ==> Kept(n, keep)[i] < Kept(n, keep)[j]
  {
    if n > 0 { KeptFacts(n - 1, keep); }
  }

  function Pick<T>(list: seq<T>, kept: seq<nat>): (r: seq<T>)
    requires forall j :: 0 <= j < |kept| ==> kept[j] < |list|
    ensures |r| == |kept| && forall j :: 0 <= j < |r| ==> r[j] == list[kept[j]]
  {
    seq(|kept|, j requires 0 <= j < |kept| => list[kept[j]])
  }

  /** Entry `j` of the result is entry `kept[j]` of `m`, where that exists and is wanted. */
  function Reindex<V>(m: map<nat, V>, kept: seq<nat>, wanted: nat -> bool): map<nat, V> {
    if kept == [] then map[]
    else
      var n := |kept| - 1;
      var r := Reindex(m, kept[..n], wanted);
      if kept[n] in m && wanted(kept[n]) then r[n := m[kept[n]]] else r
  }

  lemma {:induction false} ReindexEntry<V>(m: map<nat, V>, kept: seq<nat>, wanted: nat -> bool, j: nat)
    ensures j in Reindex(m, kept, wanted) <==> j < |kept| && kept[j] in m && wanted(kept[j])
    ensures j in Reindex(m, kept, wanted) ==> Reindex(m, kept, wanted)[j] == m[kept[j]]
  {
    if kept != [] {
      ReindexEntry(m, kept[..|kept| - 1], wanted, j);
    }
  }

  function Not(index: nat): nat -> bool { i => i != index }

  function Always(): nat -> bool { i => true }

  function NotEnabled(info: Info): nat -> bool { (i: nat) => StatusAt(info, i) != ENABLED }

  function NotAuto(info: Info): nat -> bool { (i: nat) => StatusAt(info, i) != AUTO_DISABLED }

  /** Delete-key keeps every time and reason; delete-disabled keeps those of keys that are not enabled. */
  function Rebuilt(keys: seq<string>, info: Info, keep: nat -> bool, wanted: nat -> bool): Row {
    var kept := Kept(|keys|, keep);
    Row(Join(Pick(keys, kept), NEWLINE),
        Info(|kept|, Reindex(info.status, kept, NotEnabled(info)),
             Reindex(info.time, kept, wanted), Reindex(info.reason, kept, wanted)))
  }

  datatype Outcome = Outcome(row: Row, ok: bool)

  function DeleteKeyStep(row: Row, index: Option<int>, json: Json): Outcome {
    var keys := GetKeys(row.key, json);
    if index.None? || index.value < 0 || index.value >= row.info.size then Outcome(row, false)
    else if Kept(|keys|, Not(index.value)) == [] then Outcome(row, false)
    else Outcome(Update(row, Rebuilt(keys, row.info, Not(index.value), Always()), json), true)
  }

  function DeleteDisabledStep(row: Row, json: Json): Outcome {
    var keys := GetKeys(row.key, json);
    if |Kept(|keys|, NotAuto(row.info))| == |keys| then Outcome(row, false)
    else Outcome(Update(row, Rebuilt(keys, row.info, NotAuto(row.info), NotEnabled(row.info)), json), true)
  }

  // ---------------------------------------------------------------- the other actions

  function DisableKeyStep(row: Row, index: Option<int>, json: Json): Outcome {
    if index.None? || index.value < 0 || index.value >= row.info.size then Outcome(row, false)
    else
      var i: nat := index.value;
      Outcome(Update(row, row.(info := row.info.(status := row.info.status[i := MANUALLY_DISABLED])), json), true)
  }

  function EnableKeyStep(row: Row, index: Option<int>, json: Json): Outcome {
    if index.None? || index.value < 0 || index.value >= row.info.size then Outcome(row, false)
    else
      var i: nat := index.value;
      var info := row.info.(status := row.info.status - {i}, time := row.info.time - {i}, reason := row.info.reason - {i});
      Outcome(Update(row, row.(info := info), json), true)
  }

  function EnableAllStep(row: Row, json: Json): Outcome {
    Outcome(Update(row, row.(info := row.info.(status := map[], time := map[], reason := map[])), json), true)
  }

  function Positions(n: nat): (r: set<nat>)
    ensures forall i: nat :: i in r <==> i < n
  {
    if n == 0 then {} else Positions(n - 1) + {n - 1}
  }

  /** Every enabled position below `n` becomes manually disabled. */
  function DisabledBelow(info: Info, n: nat): map<nat, int> {
    map i | i in info.status.Keys + Positions(n) ::
      if i < n && StatusAt(info, i) == ENABLED then MANUALLY_DISABLED else StatusAt(info, i)
  }

  function DisableAllStep(row: Row, json: Json): Outcome {
    if forall i: nat :: i < row.info.size ==> StatusAt(row.info, i) != ENABLED then Outcome(row, false)
    else Outcome(Update(row, row.(info := row.info.(status := DisabledBelow(row.info, row.info.size))), json), true)
  }

  /** A failing key is disabled, or re-enabled, by position of its first occurrence (`handlerMultiKeyUpdate`). */
  function AutoStatusStep(row: Row, key: string, status: int, reason: string, now: int, json: Json): Row {
    var keys := GetKeys(row.key, json);
    if key !in keys then row
    else
      var i := IndexOf(keys, key);
      if status == ENABLED then row.(info := row.info.(status := row.info.status - {i}))
      else row.(info := row.info.(status := row.info.status[i := status],
                                  time := row.info.time[i := now], reason := row.info.reason[i := reason]))
  }

  function IndexOf(keys: seq<string>, key: string): (i: nat)
    requires key in keys
    ensures i < |keys| && keys[i] == key && key !in keys[..i]
  {
    if keys[0] == key then 0
    else
      var i := IndexOf(keys[1..], key);
      assert keys[..i + 1] == [keys[0]] + keys[1..][..i];
      i + 1
  }

  // ---------------------------------------------------------------- appending keys

  /** The distinct trimmed keys of `text` that no existing key equals once trimmed. */
  function FreshKeys(existing: seq<string>, text: string): seq<string> {
    Filter(Normalize(Split(text, NEWLINE)), NotIn(Names(Normalize(existing))))
  }

  /** The existing keys as the append branch reads them; an unreadable array counts as no keys. */
  function ExistingKeys(key: string, json: Json): seq<string> {
    if LooksLikeArray(key) then (if json(TrimSpace(key)).Some? then json(TrimSpace(key)).value else [])
    else Lines(key)
  }

  /** The append branch of `UpdateChannel`. */
  function AppendStep(row: Row, text: string, json: Json): Row {
    if row.key == [] then Update(row, row.(key := text), json)
    else
      var existing := ExistingKeys(row.key, json);
      Update(row, row.(key := Join(existing + FreshKeys(existing, text), NEWLINE)), json)
  }

  /** Status entries beyond the last key are deleted one by one. */
  method DropBeyond(entries: map<nat, int>, size: nat) returns (status: map<nat, int>)
    ensures status == Below(entries, size)
  {
    status := entries;
    var left := entries.Keys;
    while left != {}
      invariant left <= entries.Keys
      invariant status == map i | i in entries && (i < size || i in left) :: entries[i]
      decreases |left|
    {
      var i :| i in left;
      left := left - {i};
      if i >= size {
        status := status - {i};
      }
    }
  }

  // ---------------------------------------------------------------- the object

  class Channel {
    var key: string
    var info: Info

    function Stored(): Row reads this { Row(key, info) }

    /** `channel.Update()` after the in-memory row `mem` has been prepared. */
    method Save(mem: Row, json: Json)
      modifies this
      ensures Stored() == Update(old(Stored()), mem, json)
    {
      var text := mem.key;
      if text == [] {
        text := key;
      }
      var size := |CountedKeys(text, json)|;
      var status := DropBeyond(mem.info.status, size);
      key := text;
      info := mem.info.(size := size, status := status);
    }

    method DisableKey(index: Option<int>, json: Json) returns (ok: bool)
      modifies this
      ensures Outcome(Stored(), ok) == DisableKeyStep(old(Stored()), index, json)
    {
      if index.None? || index.value < 0 || index.value >= info.size {
        return false;
      }
      Save(Row(key, info.(status := info.status[index.value := MANUALLY_DISABLED])), json);
      return true;
    }

    method EnableKey(index: Option<int>, json: Json) returns (ok: bool)
      modifies this
      ensures Outcome(Stored(), ok) == EnableKeyStep(old(Stored()), index, json)
    {
      if index.None? || index.value < 0 || index.value >= info.size {
        return false;
      }
      var i: nat := index.value;
      Save(Row(key, info.(status := info.status - {i}, time := info.time - {i}, reason := info.reason - {i})), json);
      return true;
    }

    method EnableAllKeys(json: Json) returns (ok: bool)
      modifies this
      ensures Outcome(Stored(), ok) == EnableAllStep(old(Stored()), json)
    {
      Save(Row(key, info.(status := map[], time := map[], reason := map[])), json);
      return true;
    }

    method DisableAllKeys(json: Json) returns (ok: bool)
      modifies this
      ensures Outcome(Stored(), ok) == DisableAllStep(old(Stored()), json)
    {
      var status, disabledCount := DisableBelow(info);
      if disabledCount == 0 {
        return false;
      }
      Save(Row(key, info.(status := status)), json);
      return true;
    }

    /** The append branch of `UpdateChannel`: `text` is the key text of the request. */
    method AppendKeys(text: string, json: Json)
      modifies this
      ensures Stored() == AppendStep(old(Stored()), text, json)
    {
      var joined := text;
      if key != [] {
        var existing := ExistingKeys(key, json);
        var fresh_ := CollectFresh(existing, text);
        joined := Join(existing + fresh_, NEWLINE);
      }
      Save(Row(joined, info), json);
    }

    method DeleteKey(index: Option<int>, json: Json) returns (ok: bool)
      modifies this
      ensures Outcome(Stored(), ok) == DeleteKeyStep(old(Stored()), index, json)
    {
      if index.None? || index.value < 0 || index.value >= info.size {
        return false;
      }
      var mem := WithoutKey(GetKeys(key, json), info, index.value);
      if mem.info.size == 0 {
        return false;
      }
      Save(mem, json);
      return true;
    }

    method DeleteDisabledKeys(json: Json) returns (ok: bool)
      modifies this
      ensures Outcome(Stored(), ok) == DeleteDisabledStep(old(Stored()), json)
    {
      var keys := GetKeys(key, json);
      var mem, deletedCount := WithoutAutoDisabled(keys, info);
      if deletedCount == 0 {
        return false;
      }
      Save(mem, json);
      return true;
    }
  }

  lemma DisabledStep(info: Info, n: nat)
    ensures DisabledBelow(info, 0) == info.status
    ensures StatusAt(info, n) == ENABLED ==> DisabledBelow(info, n + 1) == DisabledBelow(info, n)[n := MANUALLY_DISABLED]
    ensures StatusAt(info, n) != ENABLED ==> DisabledBelow(info, n + 1) == DisabledBelow(info, n)
    ensures n in DisabledBelow(info, n) <==> n in info.status
    ensures n in info.status ==> DisabledBelow(info, n)[n] == info.status[n]
  {
  }

  /** The loop of `disable_all_keys`. */
  method DisableBelow(info: Info) returns (status: map<nat, int>, disabledCount: nat)
    ensures status == DisabledBelow(info, info.size)
    ensures disabledCount == 0 <==> forall i: nat :: i < info.size ==> StatusAt(info, i) != ENABLED
  {
    status, disabledCount := info.status, 0;
    DisabledStep(info, 0);
    var i: nat := 0;
    while i < info.size
      invariant i <= info.size
      invariant status == DisabledBelow(info, i)
      invariant disabledCount == 0 <==> forall j: nat :: j < i ==> StatusAt(info, j) != ENABLED
    {
      DisabledStep(info, i);
      var current := ENABLED;
      if i in status {
        current := status[i];
      }
      if current == ENABLED {
        status := status[i := MANUALLY_DISABLED];
        disabledCount := disabledCount + 1;
      }
      i := i + 1;
    }
  }

  /** The trimmed keys among the first `n`. */
  function Noted(existing: seq<string>, n: nat): seq<string>
    requires n <= |existing|
  {
    if n == 0 then [] else Noted(existing, n - 1) + Cleaned(existing[n - 1])
  }

  lemma {:induction false} NotedIsNonBlank(existing: seq<string>, n: nat)
    requires n <= |existing|
    ensures Noted(existing, n) == NonBlank(existing[..n])
  {
    if n > 0 {
      NotedIsNonBlank(existing, n - 1);
      SnocCleaned(existing[..n - 1], existing[n - 1]);
      assert existing[..n] == existing[..n - 1] + [existing[n - 1]];
    }
  }

  lemma NotedNames(existing: seq<string>, n: nat)
    requires n < |existing|
    ensures Names(Noted(existing, n + 1))
            == Names(Noted(existing, n)) + if TrimSpace(existing[n]) != [] then {TrimSpace(existing[n])} else {}
  {
    NamesConcat(Noted(existing, n), Cleaned(existing[n]));
  }

  /** The first loop of the append branch: note the keys that are known, trimmed. */
  method KnownKeys(existing: seq<string>) returns (known: set<string>)
    ensures known == Names(NonBlank(existing))
  {
    known := {};
    var i := 0;
    while i < |existing|
      invariant 0 <= i <= |existing|
      invariant known == Names(Noted(existing, i))
    {
      var normalized := TrimSpace(existing[i]);
      NotedNames(existing, i);
      if normalized != [] {
        known := known + {normalized};
      }
      i := i + 1;
    }
    NotedIsNonBlank(existing, |existing|);
    assert existing[..|existing|] == existing;
  }

  /** The keys of the request: every line trimmed, blank ones left out. */
  method TrimKeys(lines: seq<string>) returns (newKeys: seq<string>)
    ensures newKeys == NonBlank(lines)
  {
    newKeys := [];
    var i := 0;
    while i < |lines|
      invariant 0 <= i <= |lines|
      invariant newKeys == Noted(lines, i)
    {
      var key := TrimSpace(lines[i]);
      if key != [] {
        newKeys := newKeys + [key];
      }
      i := i + 1;
    }
    NotedIsNonBlank(lines, |lines|);
    assert lines[..|lines|] == lines;
  }

  /** The new keys of a list, one by one. */
  function FreshOf(known: set<string>, list: seq<string>): seq<string> {
    if list == [] then []
    else
      var n := |list| - 1;
      Noticed(known, FreshOf(known, list[..n]), list[n])
  }

  function Noticed(known: set<string>, kept: seq<string>, t: string): seq<string> {
    if t != [] && t !in known && t !in kept then kept + [t] else kept
  }

  /** The last loop: take each new key once. The keys are trimmed, so trimming them again changes nothing. */
  method TakeFresh(known: set<string>, newKeys: seq<string>) returns (kept: seq<string>)
    ensures kept == FreshOf(known, newKeys)
  {
    kept := [];
    var seen := known;
    var n := 0;
    while n < |newKeys|
      invariant 0 <= n <= |newKeys|
      invariant kept == FreshOf(known, newKeys[..n])
      invariant seen == known + Names(kept)
    {
      var normalized := newKeys[n];
      NamesSnoc(kept, normalized);
      assert newKeys[..n + 1][..n] == newKeys[..n];
      if normalized != [] && normalized !in seen {
        seen := seen + {normalized};
        kept := kept + [normalized];
      }
      n := n + 1;
    }
    assert newKeys[..n] == newKeys;
  }

  /** They are the distinct keys that are not known, in order. */
  lemma {:induction false} FreshOfIs(known: set<string>, list: seq<string>)
    requires [] !in list
    ensures FreshOf(known, list) == Filter(Uniq(list), NotIn(known))
  {
    if list != [] {
      var n := |list| - 1;
      var before, k := list[..n], list[n];
      assert list == before + [k] && k in list;
      FreshOfIs(known, before);
      FreshStep(known, before, k, FreshOf(known, before));
    }
  }

  lemma FreshStep(known: set<string>, before: seq<string>, k: string, kept: seq<string>)
    requires k != [] && kept == Filter(Uniq(before), NotIn(known))
    ensures Noticed(known, kept, k) == Filter(Uniq(before + [k]), NotIn(known))
  {
    TakingCleaned(before, k);
    NoticedStep(known, Uniq(before), k);
  }

  lemma NoticedStep(known: set<string>, met: seq<string>, t: string)
    ensures Noticed(known, Filter(met, NotIn(known)), t) == Filter(Taking(met, t), NotIn(known))
  {
    if t != [] && t !in met { FilterSnoc(met, t, NotIn(known)); }
  }

  method CollectFresh(existing: seq<string>, text: string) returns (kept: seq<string>)
    ensures kept == FreshKeys(existing, text)
  {
    var known := KnownKeys(existing);
    var newKeys := TrimKeys(Split(text, NEWLINE));
    kept := TakeFresh(known, newKeys);
    NonBlankClean(Split(text, NEWLINE));
    FreshOfIs(known, newKeys);
    KnownNames(existing);
  }

  function NotIn(known: set<string>): string -> bool { k => k !in known }

  lemma SnocCleaned(list: seq<string>, x: string)
    ensures NonBlank(list + [x]) == NonBlank(list) + Cleaned(x)
  {
    NonBlankConcat(list, [x]);
    SingleCleaned(x);
  }

  lemma SingleCleaned(x: string)
    ensures NonBlank([x]) == Cleaned(x)
  {
    assert [x][1..] == [];
    assert FlatMap([x], Cleaned) == Cleaned(x) + FlatMap([], Cleaned);
  }

  lemma NamesConcat(a: seq<string>, b: seq<string>)
    ensures Names(a + b) == Names(a) + Names(b)
  {
  }

  /** A list of distinct names after meeting `t`. */
  function Taking(taken: seq<string>, t: string): seq<string> {
    if t != [] && t !in taken then taken + [t] else taken
  }

  lemma TakingCleaned(list: seq<string>, t: string)
    ensures Uniq(list + (if t != [] then [t] else [])) == Taking(Uniq(list), t)
  {
    if t != [] {
      UniqSnoc(list, t);
      InUniq(list, t);
    } else {
      assert list + [] == list;
    }
  }

  lemma FilterSnoc(list: seq<string>, x: string, keep: string -> bool)
    ensures Filter(list + [x], keep) == Filter(list, keep) + if keep(x) then [x] else []
  {
    assert (list + [x])[..|list|] == list;
  }

  lemma NamesSnoc(list: seq<string>, x: string)
    ensures Names(list + [x]) == Names(list) + {x}
  {
  }

  lemma KnownNames(existing: seq<string>)
    ensures Names(Normalize(existing)) == Names(NonBlank(existing))
  {
    forall x ensures x in Normalize(existing) <==> x in NonBlank(existing) { InUniq(NonBlank(existing), x); }
  }

  lemma PickSnoc<T>(keys: seq<T>, kept: seq<nat>, i: nat)
    requires i < |keys| && forall j :: 0 <= j < |kept| ==> kept[j] < |keys|
    ensures Pick(keys, kept + [i]) == Pick(keys, kept) + [keys[i]]
  {
  }

  lemma ReindexSnoc<V>(m: map<nat, V>, kept: seq<nat>, i: nat, wanted: nat -> bool)
    ensures var r := Reindex(m, kept, wanted);
            Reindex(m, kept + [i], wanted) == if i in m && wanted(i) then r[|kept| := m[i]] else r
  {
    assert (kept + [i])[..|kept|] == kept;
  }

  /** A copy in progress: the keys at the kept positions, and their entries under the new positions. */
  ghost predicate Copied(keys: seq<string>, info: Info, kept: seq<nat>, wanted: nat -> bool,
                         remaining: seq<string>, copy: Info) {
    && (forall j :: 0 <= j < |kept| ==> kept[j] < |keys|)
    && remaining == Pick(keys, kept)
    && copy.size == |kept|
    && copy.status == Reindex(info.status, kept, NotEnabled(info))
    && copy.time == Reindex(info.time, kept, wanted)
    && copy.reason == Reindex(info.reason, kept, wanted)
  }

  lemma Extend<V>(m: map<nat, V>, kept: seq<nat>, wanted: nat -> bool, before: map<nat, V>, i: nat, after: map<nat, V>)
    requires before == Reindex(m, kept, wanted)
    requires after == if i in m && wanted(i) then before[|kept| := m[i]] else before
    ensures after == Reindex(m, kept + [i], wanted)
  {
    ReindexSnoc(m, kept, i, wanted);
  }

  /** `next` is `copy` with the entries of position `i` under the next new position. */
  ghost predicate Extends(info: Info, wanted: nat -> bool, copy: Info, i: nat, next: Info) {
    && next.size == copy.size + 1
    && next.status == (if StatusAt(info, i) != ENABLED then copy.status[copy.size := StatusAt(info, i)] else copy.status)
    && next.time == (if i in info.time && wanted(i) then copy.time[copy.size := info.time[i]] else copy.time)
    && next.reason == (if i in info.reason && wanted(i) then copy.reason[copy.size := info.reason[i]] else copy.reason)
  }

  lemma CopySnoc(keys: seq<string>, info: Info, kept: seq<nat>, wanted: nat -> bool, remaining: seq<string>, copy: Info,
                 i: nat, next: Info)
    requires Copied(keys, info, kept, wanted, remaining, copy) && i < |keys| && Extends(info, wanted, copy, i, next)
    ensures Copied(keys, info, kept + [i], wanted, remaining + [keys[i]], next)
  {
    PickSnoc(keys, kept, i);
    Extend(info.status, kept, NotEnabled(info), copy.status, i, next.status);
    Extend(info.time, kept, wanted, copy.time, i, next.time);
    Extend(info.reason, kept, wanted, copy.reason, i, next.reason);
  }

  lemma CopiedIsRebuilt(keys: seq<string>, info: Info, keep: nat -> bool, wanted: nat -> bool,
                        remaining: seq<string>, copy: Info)
    requires Copied(keys, info, Kept(|keys|, keep), wanted, remaining, copy)
    ensures Row(Join(remaining, NEWLINE), copy) == Rebuilt(keys, info, keep, wanted)
  {
  }

  method CopyAll(info: Info, copy: Info, i: nat) returns (next: Info)
    ensures Extends(info, Always(), copy, i, next)
  {
    var status, time, reason := copy.status, copy.time, copy.reason;
    if i in info.status && info.status[i] != ENABLED {
      status := status[copy.size := info.status[i]];
    }
    if i in info.time {
      time := time[copy.size := info.time[i]];
    }
    if i in info.reason {
      reason := reason[copy.size := info.reason[i]];
    }
    next := Info(copy.size + 1, status, time, reason);
  }

  method CopyIfDisabled(info: Info, copy: Info, i: nat, current: int) returns (next: Info)
    requires current == StatusAt(info, i)
    ensures Extends(info, NotEnabled(info), copy, i, next)
  {
    var status, time, reason := copy.status, copy.time, copy.reason;
    if current != ENABLED {
      status := status[copy.size := current];
      if i in info.time {
        time := time[copy.size := info.time[i]];
      }
      if i in info.reason {
        reason := reason[copy.size := info.reason[i]];
      }
    }
    next := Info(copy.size + 1, status, time, reason);
  }

  const EMPTY_INFO := Info(0, map[], map[], map[])

  lemma NothingCopied(keys: seq<string>, info: Info, wanted: nat -> bool)
    ensures Copied(keys, info, [], wanted, [], EMPTY_INFO)
  {
  }

  /** The loop of `delete_key`: copy every key but one, moving its entries to the new position. */
  method WithoutKey(keys: seq<string>, info: Info, index: nat) returns (mem: Row)
    ensures mem == Rebuilt(keys, info, Not(index), Always())
    ensures mem.info.size == |Kept(|keys|, Not(index))|
  {
    var remaining: seq<string>, copy := [], EMPTY_INFO;
    ghost var kept: seq<nat> := [];
    NothingCopied(keys, info, Always());
    var i := 0;
    while i < |keys|
      invariant 0 <= i <= |keys|
      invariant kept == Kept(i, Not(index))
      invariant Copied(keys, info, kept, Always(), remaining, copy)
    {
      if i != index {
        var next := CopyAll(info, copy, i);
        CopySnoc(keys, info, kept, Always(), remaining, copy, i, next);
        remaining, copy, kept := remaining + [keys[i]], next, kept + [i];
      }
      i := i + 1;
    }
    CopiedIsRebuilt(keys, info, Not(index), Always(), remaining, copy);
    mem := Row(Join(remaining, NEWLINE), copy);
  }

  /** The loop of `delete_disabled_keys`. */
  method WithoutAutoDisabled(keys: seq<string>, info: Info) returns (mem: Row, deletedCount: nat)
    ensures mem == Rebuilt(keys, info, NotAuto(info), NotEnabled(info))
    ensures deletedCount == |keys| - |Kept(|keys|, NotAuto(info))|
  {
    var remaining: seq<string>, copy := [], EMPTY_INFO;
    deletedCount := 0;
    NothingCopied(keys, info, NotEnabled(info));
    var i := 0;
    while i < |keys|
      invariant 0 <= i <= |keys|
      invariant deletedCount == i - |Kept(i, NotAuto(info))|
      invariant Copied(keys, info, Kept(i, NotAuto(info)), NotEnabled(info), remaining, copy)
    {
      var current := ENABLED;
      if i in info.status {
        current := info.status[i];
      }
      KeptStep(i, NotAuto(info));
      if current == AUTO_DISABLED {
        deletedCount := deletedCount + 1;
      } else {
        var next := CopyIfDisabled(info, copy, i, current);
        CopySnoc(keys, info, Kept(i, NotAuto(info)), NotEnabled(info), remaining, copy, i, next);
        remaining, copy := remaining + [keys[i]], next;
      }
      i := i + 1;
    }
    CopiedIsRebuilt(keys, info, NotAuto(info), NotEnabled(info), remaining, copy);
    mem := Row(Join(remaining, NEWLINE), copy);
  }

  lemma KeptStep(n: nat, keep: nat -> bool)
    ensures Kept(n + 1, keep) == if keep(n) then Kept(n, keep) + [n] else Kept(n, keep)
  {
  }
}
