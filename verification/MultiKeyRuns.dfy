/** What every run of multi-key actions keeps, and what deletion and appending do to the key status page. Nothing is
assumed about the key text: keys may be blank or hold newlines, and the text may be one key per line or an array. */
module MultiKeyRuns {
  import opened Options
  import opened Strings
  import opened ModelNames
  import opened KeyText
  import opened MultiKey

  datatype Action =
    | Disable(index: Option<int>)
    | Enable(index: Option<int>)
    | EnableAll
    | DisableAll
    | Delete(index: Option<int>)
    | DeleteDisabled
    | Append(text: string)
    | AutoStatus(key: string, status: int, reason: string, now: int)

  function Step(row: Row, a: Action, json: Json): Row {
    match a
    case Disable(index) => DisableKeyStep(row, index, json).row
    case Enable(index) => EnableKeyStep(row, index, json).row
    case EnableAll => EnableAllStep(row, json).row
    case DisableAll => DisableAllStep(row, json).row
    case Delete(index) => DeleteKeyStep(row, index, json).row
    case DeleteDisabled => DeleteDisabledStep(row, json).row
    case Append(text) => AppendStep(row, text, json)
    case AutoStatus(key, status, reason, now) => AutoStatusStep(row, key, status, reason, now, json)
  }

  function RowAfter(row: Row, actions: seq<Action>, json: Json): Row
    decreases actions
  {
    if actions == [] then row else RowAfter(Step(row, actions[0], json), actions[1..], json)
  }

  /** Appended keys must not look like the start of a JSON array. */
  predicate PlainAction(a: Action) { a.Append? ==> Plain(Normalize(Split(a.text, NEWLINE))) }

  // ---------------------------------------------------------------- the size, for any row

  /** The stored size is the number of keys, and no status points outside it. */
  predicate SizeOk(row: Row, json: Json) {
    row.info.size == |CountedKeys(row.key, json)| && forall i :: i in row.info.status ==> i < row.info.size
  }

  predicate EmptyArray(key: string, json: Json) {
    LooksLikeArray(key) && json(TrimSpace(key)) == Some([])
  }

  /** After any write-back the size is right, except that an empty array counts as its lines. */
  lemma SizeIsKeyCountIff(stored: Row, mem: Row, json: Json)
    ensures var row := Update(stored, mem, json);
            && SizeOk(row, json)
            && (row.info.size == |GetKeys(row.key, json)| <==> row.key == [] || !EmptyArray(row.key, json))
  {
  }

  lemma AutoStatusKeepsSize(row: Row, key: string, status: int, reason: string, now: int, json: Json)
    requires SizeOk(row, json)
    ensures SizeOk(AutoStatusStep(row, key, status, reason, now, json), json)
  {
    var keys := GetKeys(row.key, json);
    if key in keys {
      var i := IndexOf(keys, key);
      assert |keys| == |CountedKeys(row.key, json)| && i < row.info.size;
    }
  }

  /** The row is as it was, or it has been written back. */
  ghost predicate KeptOrWritten(row: Row, row': Row, json: Json) {
    row' == row || exists mem :: row' == Update(row, mem, json)
  }

  lemma KeptOrWrittenSize(row: Row, row': Row, json: Json)
    requires SizeOk(row, json) && KeptOrWritten(row, row', json)
    ensures SizeOk(row', json)
  {
    if row' != row {
      var mem :| row' == Update(row, mem, json);
      SizeIsKeyCountIff(row, mem, json);
    }
  }

  lemma IndexActionsKeepSize(row: Row, index: Option<int>, json: Json)
    requires SizeOk(row, json)
    ensures SizeOk(DisableKeyStep(row, index, json).row, json) && SizeOk(EnableKeyStep(row, index, json).row, json)
  {
    KeptOrWrittenSize(row, DisableKeyStep(row, index, json).row, json);
    KeptOrWrittenSize(row, EnableKeyStep(row, index, json).row, json);
  }

  lemma AllActionsKeepSize(row: Row, json: Json)
    requires SizeOk(row, json)
    ensures SizeOk(EnableAllStep(row, json).row, json) && SizeOk(DisableAllStep(row, json).row, json)
  {
    KeptOrWrittenSize(row, EnableAllStep(row, json).row, json);
    KeptOrWrittenSize(row, DisableAllStep(row, json).row, json);
  }

  lemma KeyActionsKeepSize(row: Row, index: Option<int>, text: string, json: Json)
    requires SizeOk(row, json)
    ensures SizeOk(DeleteKeyStep(row, index, json).row, json) && SizeOk(DeleteDisabledStep(row, json).row, json)
    ensures SizeOk(AppendStep(row, text, json), json)
  {
    KeptOrWrittenSize(row, DeleteKeyStep(row, index, json).row, json);
    KeptOrWrittenSize(row, DeleteDisabledStep(row, json).row, json);
    KeptOrWrittenSize(row, AppendStep(row, text, json), json);
  }

  /** The keys an append writes, for a key text that is not empty. */
  function Appended(row: Row, text: string, json: Json): seq<string> {
    var existing := ExistingKeys(row.key, json);
    existing + FreshKeys(existing, text)
  }

  lemma StepKeepsSize(row: Row, a: Action, json: Json)
    requires SizeOk(row, json)
    ensures SizeOk(Step(row, a, json), json)
  {
    if a.Disable? || a.Enable? || a.EnableAll? || a.DisableAll? {
      StatusStepKeepsSize(row, a, json);
    } else if a.AutoStatus? {
      AutoStatusKeepsSize(row, a.key, a.status, a.reason, a.now, json);
    } else {
      KeyActionsKeepSize(row, if a.Delete? then a.index else None, if a.Append? then a.text else [], json);
    }
  }

  lemma StatusStepKeepsSize(row: Row, a: Action, json: Json)
    requires SizeOk(row, json) && (a.Disable? || a.Enable? || a.EnableAll? || a.DisableAll?)
    ensures SizeOk(Step(row, a, json), json)
  {
    if a.Disable? || a.Enable? {
      IndexActionsKeepSize(row, a.index, json);
    } else {
      AllActionsKeepSize(row, json);
    }
  }

  /** Over every run, whatever the key text and the parser: the size is the number of keys and no status points outside. */
  lemma {:induction false} RunKeepsSize(row: Row, actions: seq<Action>, json: Json)
    requires SizeOk(row, json)
    ensures SizeOk(RowAfter(row, actions, json), json)
    decreases actions
  {
    if actions != [] {
      StepKeepsSize(row, actions[0], json);
      RunKeepsSize(Step(row, actions[0], json), actions[1..], json);
    }
  }

  // ---------------------------------------------------------------- writing keys back

  /** The keys read after `all` has been written: an empty text is not written. */
  function KeysAfter(row: Row, all: seq<string>, json: Json): seq<string> {
    if Join(all, NEWLINE) == [] then GetKeys(row.key, json) else KeysOf(all, json)
  }

  /** The size that is stored with them. */
  function CountAfter(row: Row, all: seq<string>, json: Json): nat {
    if Join(all, NEWLINE) == [] then |CountedKeys(row.key, json)| else CountOf(all, json)
  }

  /** Any row after keys have been written over it. */
  lemma WrittenRow(row: Row, all: seq<string>, info: Info, json: Json)
    ensures var row', n := Update(row, Row(Join(all, NEWLINE), info), json), CountAfter(row, all, json);
            && GetKeys(row'.key, json) == KeysAfter(row, all, json)
            && row'.info == info.(size := n, status := Below(info.status, n))
  {
    if Join(all, NEWLINE) != [] { JoinedKeysRead(all, json); }
  }

  /** The keys that are kept. */
  function Left(row: Row, keep: nat -> bool, json: Json): seq<string> {
    var keys := GetKeys(row.key, json);
    Pick(keys, Kept(|keys|, keep))
  }

  /** Any row after keys have been deleted. */
  lemma RebuiltRow(row: Row, keep: nat -> bool, wanted: nat -> bool, json: Json)
    ensures var mem := Rebuilt(GetKeys(row.key, json), row.info, keep, wanted);
            var row', n := Update(row, mem, json), CountAfter(row, Left(row, keep, json), json);
            && GetKeys(row'.key, json) == KeysAfter(row, Left(row, keep, json), json)
            && row'.info == mem.info.(size := n, status := Below(mem.info.status, n))
  {
    WrittenRow(row, Left(row, keep, json), Rebuilt(GetKeys(row.key, json), row.info, keep, wanted).info, json);
  }

  // ---------------------------------------------------------------- deletion, as the status page shows it

  predicate WellIndexed(info: Info, n: nat) {
    && info.size == n
    && (forall i :: i in info.status ==> i < n)
    && (forall i :: i in info.time ==> i < n)
    && (forall i :: i in info.reason ==> i < n)
  }

  lemma RebuiltIndexed(keys: seq<string>, info: Info, keep: nat -> bool, wanted: nat -> bool)
    ensures WellIndexed(Rebuilt(keys, info, keep, wanted).info, |Kept(|keys|, keep)|)
  {
    var kept := Kept(|keys|, keep);
    forall j: nat
      ensures j in Reindex(info.status, kept, NotEnabled(info)) ==> j < |kept|
      ensures j in Reindex(info.time, kept, wanted) ==> j < |kept|
      ensures j in Reindex(info.reason, kept, wanted) ==> j < |kept|
    {
      ReindexEntry(info.status, kept, NotEnabled(info), j);
      ReindexEntry(info.time, kept, wanted, j);
      ReindexEntry(info.reason, kept, wanted, j);
    }
  }

  lemma RebuiltLine(keys: seq<string>, info: Info, keep: nat -> bool, wanted: nat -> bool, j: nat)
    requires j < |Kept(|keys|, keep)|
    requires forall i: nat :: StatusAt(info, i) != ENABLED ==> wanted(i)
    ensures var kept := Kept(|keys|, keep);
            StatusLine(Rebuilt(keys, info, keep, wanted).info, keys[kept[j]], j) == StatusLine(info, keys[kept[j]], kept[j])
  {
    var kept := Kept(|keys|, keep);
    ReindexEntry(info.status, kept, NotEnabled(info), j);
    ReindexEntry(info.time, kept, wanted, j);
    ReindexEntry(info.reason, kept, wanted, j);
  }

  lemma RebuiltPage(keys: seq<string>, info: Info, keep: nat -> bool, wanted: nat -> bool)
    requires forall i: nat :: StatusAt(info, i) != ENABLED ==> wanted(i)
    ensures var kept := Kept(|keys|, keep);
            Page(Pick(keys, kept), Rebuilt(keys, info, keep, wanted).info) == Pick(Page(keys, info), kept)
  {
    var kept := Kept(|keys|, keep);
    var after := Page(Pick(keys, kept), Rebuilt(keys, info, keep, wanted).info);
    var picked := Pick(Page(keys, info), kept);
    assert |after| == |kept| == |picked|;
    forall j | 0 <= j < |kept| ensures after[j] == picked[j] {
      RebuiltLine(keys, info, keep, wanted, j);
      assert after[j] == StatusLine(Rebuilt(keys, info, keep, wanted).info, keys[kept[j]], j);
      assert picked[j] == Page(keys, info)[kept[j]] == StatusLine(info, keys[kept[j]], kept[j]);
    }
  }

  lemma LeftReadBackIff(row: Row, left: seq<string>, json: Json)
    requires |left| < |GetKeys(row.key, json)|
    ensures KeysAfter(row, left, json) == left <==> ReadBackWhole(left, json)
    ensures ReadBackWhole(left, json) ==> CountAfter(row, left, json) == |left|
  {
    if Join(left, NEWLINE) != [] { ReadBackWholeIff(left, json); }
  }

  lemma PageTellsKeys(a: seq<string>, i: Info, b: seq<string>, j: Info)
    requires Page(a, i) == Page(b, j)
    ensures a == b
  {
    assert |a| == |b|;
    forall n | 0 <= n < |a| ensures a[n] == b[n] { assert Page(a, i)[n].key == a[n] && Page(b, j)[n].key == b[n]; }
  }

  lemma BelowAll(entries: map<nat, int>, n: nat)
    requires forall i :: i in entries ==> i < n
    ensures Below(entries, n) == entries
  {
  }

  /** The survivors keep their order, status, disable time and reason exactly when what is written is read back whole. */
  lemma RebuiltReportIff(row: Row, keep: nat -> bool, wanted: nat -> bool, json: Json)
    requires |Left(row, keep, json)| < |GetKeys(row.key, json)|
    requires forall i: nat :: StatusAt(row.info, i) != ENABLED ==> wanted(i)
    ensures Report(Update(row, Rebuilt(GetKeys(row.key, json), row.info, keep, wanted), json), json)
            == Pick(Report(row, json), Kept(|GetKeys(row.key, json)|, keep))
            <==> ReadBackWhole(Left(row, keep, json), json)
  {
    var keys, left := GetKeys(row.key, json), Left(row, keep, json);
    var mem := Rebuilt(keys, row.info, keep, wanted);
    var row' := Update(row, mem, json);
    RebuiltRow(row, keep, wanted, json);
    RebuiltPage(keys, row.info, keep, wanted);
    LeftReadBackIff(row, left, json);
    if ReadBackWhole(left, json) {
      RebuiltIndexed(keys, row.info, keep, wanted);
      BelowAll(mem.info.status, |left|);
    } else if Page(KeysAfter(row, left, json), row'.info) == Page(left, mem.info) {
      PageTellsKeys(KeysAfter(row, left, json), row'.info, left, mem.info);
    }
  }

  lemma {:induction false} PickAllButOne<T>(list: seq<T>, n: nat, index: nat)
    requires n <= |list| && index < |list|
    ensures Pick(list, Kept(n, Not(index))) == if n <= index then list[..n] else list[..index] + list[index + 1..n]
  {
    if n > 0 {
      PickAllButOne(list, n - 1, index);
      if n - 1 != index {
        PickSnoc(list, Kept(n - 1, Not(index)), n - 1);
        if n > index { assert list[index + 1..n] == list[index + 1..n - 1] + [list[n - 1]]; }
      }
    }
  }

  function Without<T>(list: seq<T>, index: nat): seq<T>
    requires index < |list|
  {
    list[..index] + list[index + 1..]
  }

  lemma OneLeftOut<T>(list: seq<T>, index: nat)
    requires index < |list|
    ensures |Kept(|list|, Not(index))| == |list| - 1 && Pick(list, Kept(|list|, Not(index))) == Without(list, index)
  {
    PickAllButOne(list, |list|, index);
    assert list[index + 1..|list|] == list[index + 1..];
  }

  /** `delete_key` refuses to delete the last key. Otherwise it removes exactly the chosen line from the status page if and
      only if what is left is read back whole. */
  lemma DeleteKeyReportIff(row: Row, index: nat, json: Json)
    requires index < row.info.size && index < |GetKeys(row.key, json)|
    ensures var o, keys := DeleteKeyStep(row, Some(index), json), GetKeys(row.key, json);
            && |Report(row, json)| == |keys|
            && (o.ok <==> |keys| > 1) && (!o.ok ==> o.row == row)
            && (o.ok ==> (Report(o.row, json) == Without(Report(row, json), index) <==> ReadBackWhole(Without(keys, index), json)))
  {
    var keys := GetKeys(row.key, json);
    OneLeftOut(keys, index);
    OneLeftOut(Page(keys, row.info), index);
    if |keys| > 1 { RebuiltReportIff(row, Not(index), Always(), json); }
  }

  function DropAuto(page: seq<KeyStatus>): seq<KeyStatus> {
    if page == [] then []
    else
      var n := |page| - 1;
      DropAuto(page[..n]) + if page[n].status != AUTO_DISABLED then [page[n]] else []
  }

  lemma {:induction false} PickNotAuto(page: seq<KeyStatus>, info: Info, n: nat)
    requires n <= |page| && forall i: nat :: i < |page| ==> page[i].status == StatusAt(info, i)
    ensures Pick(page, Kept(n, NotAuto(info))) == DropAuto(page[..n])
  {
    if n > 0 {
      PickNotAuto(page, info, n - 1);
      assert page[..n][..n - 1] == page[..n - 1];
      var before := Kept(n - 1, NotAuto(info));
      if StatusAt(info, n - 1) != AUTO_DISABLED {
        assert Pick(page, before + [n - 1]) == Pick(page, before) + [page[n - 1]];
      }
    }
  }

  lemma {:induction false} DropAutoLength(page: seq<KeyStatus>)
    ensures |DropAuto(page)| <= |page|
  {
    if page != [] { DropAutoLength(page[..|page| - 1]); }
  }

  lemma {:induction false} DropAutoNothing(page: seq<KeyStatus>)
    requires !SomeAuto(page)
    ensures DropAuto(page) == page
  {
    if page != [] {
      var n := |page| - 1;
      assert forall i :: 0 <= i < n ==> page[..n][i] == page[i];
      DropAutoNothing(page[..n]);
      assert page == page[..n] + [page[n]];
    }
  }

  lemma {:induction false} DropAutoSomething(page: seq<KeyStatus>, i: nat)
    requires i < |page| && page[i].status == AUTO_DISABLED
    ensures |DropAuto(page)| < |page|
  {
    var n := |page| - 1;
    if i < n { DropAutoSomething(page[..n], i); } else { DropAutoLength(page[..n]); }
  }

  lemma {:induction false} DropAutoEmpty(page: seq<KeyStatus>)
    ensures DropAuto(page) == [] <==> AllAuto(page)
  {
    if page != [] {
      var n := |page| - 1;
      DropAutoEmpty(page[..n]);
      assert forall i :: 0 <= i < n ==> page[..n][i] == page[i];
    }
  }

  predicate AllAuto(page: seq<KeyStatus>) { forall i :: 0 <= i < |page| ==> page[i].status == AUTO_DISABLED }

  predicate SomeAuto(page: seq<KeyStatus>) { exists i :: 0 <= i < |page| && page[i].status == AUTO_DISABLED }

  function Reenabled(page: seq<KeyStatus>): seq<KeyStatus> {
    seq(|page|, i requires 0 <= i < |page| => KeyStatus(page[i].key, ENABLED, 0, ""))
  }

  lemma NotAutoPage(keys: seq<string>, info: Info)
    ensures var page, kept := Page(keys, info), Kept(|keys|, NotAuto(info));
            && Pick(page, kept) == DropAuto(page)
            && (kept == [] <==> AllAuto(page))
            && (|kept| == |keys| <==> !SomeAuto(page))
  {
    var page := Page(keys, info);
    PickNotAuto(page, info, |keys|);
    assert page[..|keys|] == page;
    DropAutoEmpty(page);
    if i :| 0 <= i < |page| && page[i].status == AUTO_DISABLED {
      DropAutoSomething(page, i);
    } else {
      DropAutoNothing(page);
    }
  }

  /** `delete_disabled_keys` reports success exactly when some key is auto-disabled. It removes exactly the auto-disabled
      lines if and only if there are none, or what is left is read back whole. */
  lemma DeleteDisabledReportIff(row: Row, json: Json)
    ensures var before, o := Report(row, json), DeleteDisabledStep(row, json);
            && (o.ok <==> SomeAuto(before))
            && (Report(o.row, json) == DropAuto(before)
                <==> !SomeAuto(before) || ReadBackWhole(Left(row, NotAuto(row.info), json), json))
  {
    var keys := GetKeys(row.key, json);
    NotAutoPage(keys, row.info);
    if SomeAuto(Page(keys, row.info)) {
      assert |Kept(|keys|, NotAuto(row.info))| < |keys|;
      RebuiltReportIff(row, NotAuto(row.info), NotEnabled(row.info), json);
    } else {
      DropAutoNothing(Page(keys, row.info));
    }
  }

  /** When every key is auto-disabled nothing is deleted and every key shows as enabled. */
  lemma AllAutoDisabledReport(row: Row, json: Json)
    requires AllAuto(Report(row, json))
    ensures Report(DeleteDisabledStep(row, json).row, json) == Reenabled(Report(row, json))
  {
    var keys := GetKeys(row.key, json);
    NotAutoPage(keys, row.info);
    if keys != [] {
      assert Page(keys, row.info)[0].status == AUTO_DISABLED;
      RebuiltRow(row, NotAuto(row.info), NotEnabled(row.info), json);
      assert Rebuilt(keys, row.info, NotAuto(row.info), NotEnabled(row.info)) == Row([], EMPTY_INFO);
      EmptiedPage(keys, DeleteDisabledStep(row, json).row.info, row.info);
    }
  }

  lemma EmptiedPage(keys: seq<string>, after: Info, before: Info)
    requires forall i :: i !in after.status
    ensures Page(keys, after) == Reenabled(Page(keys, before))
  {
  }

  // ---------------------------------------------------------------- the status actions, as the status page shows them

  /** Other entries under the same key text: every line shows its entries, none is cut off. */
  lemma SameKeysReport(row: Row, info: Info, json: Json)
    ensures var row' := Update(row, row.(info := info), json);
            && row'.key == row.key && Report(row', json) == Page(GetKeys(row.key, json), info)
            && row'.info.time == info.time && row'.info.reason == info.reason
  {
    var keys, row' := GetKeys(row.key, json), Update(row, row.(info := info), json);
    assert |keys| <= |CountedKeys(row.key, json)|;
    forall i | 0 <= i < |keys| ensures Page(keys, row'.info)[i] == Page(keys, info)[i] { }
  }

  /** The disable time and reason that are on record for a position, whatever its status. */
  function TimeOf(info: Info, i: nat): int { if i in info.time then info.time[i] else 0 }

  function ReasonOf(info: Info, i: nat): string { if i in info.reason then info.reason[i] else "" }

  /** A line as it shows when its key is manually disabled. */
  function Disabled(info: Info, line: KeyStatus, i: nat): KeyStatus { KeyStatus(line.key, 2, TimeOf(info, i), ReasonOf(info, i)) }

  /** `disable_key` is refused exactly without an index below the size. Else it shows exactly that line as manually
      disabled, with the time and reason on record, and every other line as before. */
  lemma DisableKeyReport(row: Row, index: Option<int>, json: Json)
    ensures var before, o := Report(row, json), DisableKeyStep(row, index, json);
            && (o.ok <==> index.Some? && 0 <= index.value < row.info.size) && (!o.ok ==> o.row == row)
            && (o.ok ==>
                  && o.row.key == row.key && o.row.info.time == row.info.time && o.row.info.reason == row.info.reason
                  && var i := index.value;
                     Report(o.row, json) == if i < |before| then before[i := Disabled(row.info, before[i], i)] else before)
  {
    if index.Some? && 0 <= index.value < row.info.size {
      var i: nat := index.value;
      var info := row.info.(status := row.info.status[i := 2]);
      SameKeysReport(row, info, json);
      OneLineChanged(GetKeys(row.key, json), row.info, info, i);
    }
  }

  /** Pages that differ in the entries of one position only differ in that line. */
  lemma OneLineChanged(keys: seq<string>, info: Info, info': Info, i: nat)
    requires forall j: nat :: j != i ==>
               StatusAt(info', j) == StatusAt(info, j) && TimeOf(info', j) == TimeOf(info, j) && ReasonOf(info', j) == ReasonOf(info, j)
    ensures Page(keys, info') == if i < |keys| then Page(keys, info)[i := StatusLine(info', keys[i], i)] else Page(keys, info)
  {
    var before, after := Page(keys, info), Page(keys, info');
    forall j | 0 <= j < |keys| && j != i ensures after[j] == before[j] {
      assert StatusLine(info', keys[j], j) == StatusLine(info, keys[j], j);
    }
  }

  /** So disabling changes nothing but the status exactly when the key was not enabled, or no time or reason of an earlier
      disabling is still on record. */
  lemma DisableChangesStatusOnlyIff(row: Row, i: nat, json: Json)
    requires i < row.info.size && i < |Report(row, json)|
    ensures var before, after := Report(row, json), Report(DisableKeyStep(row, Some(i), json).row, json);
            after[i] == before[i].(status := 2)
            <==> before[i].status != 1 || (TimeOf(row.info, i) == 0 && ReasonOf(row.info, i) == "")
  {
    DisableKeyReport(row, Some(i), json);
  }

  /** `enable_key` is refused likewise. Else it shows exactly that line as enabled, without time and reason, also on record. */
  lemma EnableKeyReport(row: Row, index: Option<int>, json: Json)
    ensures var before, o := Report(row, json), EnableKeyStep(row, index, json);
            && (o.ok <==> index.Some? && 0 <= index.value < row.info.size) && (!o.ok ==> o.row == row)
            && (o.ok ==>
                  && o.row.key == row.key && TimeOf(o.row.info, index.value) == 0 && ReasonOf(o.row.info, index.value) == ""
                  && var i := index.value;
                     Report(o.row, json) == if i < |before| then before[i := KeyStatus(before[i].key, 1, 0, "")] else before)
  {
    if index.Some? && 0 <= index.value < row.info.size {
      var i: nat := index.value;
      var info := row.info.(status := row.info.status - {i}, time := row.info.time - {i}, reason := row.info.reason - {i});
      SameKeysReport(row, info, json);
      OneLineChanged(GetKeys(row.key, json), row.info, info, i);
    }
  }

  /** `enable_all_keys` shows every line as enabled and leaves nothing on record. */
  lemma EnableAllReport(row: Row, json: Json)
    ensures var o := EnableAllStep(row, json);
            && o.ok && o.row.key == row.key && o.row.info.time == map[] && o.row.info.reason == map[]
            && Report(o.row, json) == Reenabled(Report(row, json))
  {
    var info := row.info.(status := map[], time := map[], reason := map[]);
    SameKeysReport(row, info, json);
    EmptiedPage(GetKeys(row.key, json), info, row.info);
  }

  /** `disable_all_keys` is refused exactly when no position below the size is enabled. Else it shows exactly the enabled
      lines below the size as manually disabled, with the time and reason on record. */
  lemma DisableAllReport(row: Row, json: Json)
    ensures var before, o := Report(row, json), DisableAllStep(row, json);
            && (o.ok <==> exists i: nat :: i < row.info.size && StatusAt(row.info, i) == 1) && (!o.ok ==> o.row == row)
            && o.row.key == row.key && o.row.info.time == row.info.time && o.row.info.reason == row.info.reason
            && |Report(o.row, json)| == |before|
            && forall j :: 0 <= j < |before| ==>
                 Report(o.row, json)[j]
                 == if j < row.info.size && before[j].status == 1 then Disabled(row.info, before[j], j) else before[j]
  {
    var keys := GetKeys(row.key, json);
    var info := row.info.(status := DisabledBelow(row.info, row.info.size));
    SameKeysReport(row, info, json);
    forall j: nat | j < |keys|
      ensures StatusLine(info, keys[j], j)
              == if j < row.info.size && StatusAt(row.info, j) == 1 then Disabled(row.info, StatusLine(row.info, keys[j], j), j)
                 else StatusLine(row.info, keys[j], j)
    {
      DisabledBelowAt(row.info, row.info.size, j);
    }
  }

  lemma DisabledBelowAt(info: Info, n: nat, j: nat)
    ensures StatusAt(info.(status := DisabledBelow(info, n)), j) == if j < n && StatusAt(info, j) == 1 then 2 else StatusAt(info, j)
  {
  }

  /** An automatic status change touches exactly the first line of that key: the new status with its time and reason, or
      enabled without. A key that is not listed changes nothing. */
  lemma AutoStatusReport(row: Row, key: string, status: int, reason: string, now: int, json: Json)
    ensures var before, after := Report(row, json), AutoStatusStep(row, key, status, reason, now, json);
            var keys := GetKeys(row.key, json);
            && after.key == row.key
            && (key !in keys ==> after == row)
            && (key in keys ==>
                  exists i :: 0 <= i < |keys| && keys[i] == key && key !in keys[..i]
                              && Report(after, json) == before[i := if status == 1 then KeyStatus(key, 1, 0, "") else KeyStatus(key, status, now, reason)])
  {
    var keys := GetKeys(row.key, json);
    if key in keys {
      var i, info := IndexOf(keys, key), AutoStatusStep(row, key, status, reason, now, json).info;
      if status == 1 { ClearedLine(keys, row.info, info, i); } else { OneLineChanged(keys, row.info, info, i); }
      assert 0 <= i < |keys| && keys[i] == key && key !in keys[..i];
    }
  }

  lemma ClearedLine(keys: seq<string>, info: Info, info': Info, i: nat)
    requires i < |keys| && info' == info.(status := info.status - {i})
    ensures Page(keys, info') == Page(keys, info)[i := KeyStatus(keys[i], 1, 0, "")]
  {
    OneLineChanged(keys, info, info', i);
  }

  /** A key that failed at time `at`, recovered by itself and is now disabled by hand shows the old time and reason. */
  lemma StaleReasonExample(row: Row, key: string, reason: string, at: int, json: Json)
    requires SizeOk(row, json) && |GetKeys(row.key, json)| > 0 && GetKeys(row.key, json)[0] == key
    ensures var failed := AutoStatusStep(row, key, 3, reason, at, json);
            var recovered := AutoStatusStep(failed, key, 1, "", at + 1, json);
            && Report(recovered, json)[0] == KeyStatus(key, 1, 0, "")
            && Report(DisableKeyStep(recovered, Some(0), json).row, json)[0] == KeyStatus(key, 2, at, reason)
  {
    var failed := AutoStatusStep(row, key, 3, reason, at, json);
    var recovered := AutoStatusStep(failed, key, 1, "", at + 1, json);
    var keys := GetKeys(row.key, json);
    FirstIsFirst(keys, key);
    AutoStatusReport(failed, key, 1, "", at + 1, json);
    ClearedLine(keys, failed.info, recovered.info, 0);
    AutoStatusKeepsSize(row, key, 3, reason, at, json);
    AutoStatusKeepsSize(failed, key, 1, "", at + 1, json);
    DisableKeyReport(recovered, Some(0), json);
  }

  lemma FirstIsFirst(keys: seq<string>, key: string)
    requires |keys| > 0 && keys[0] == key
    ensures IndexOf(keys, key) == 0
  {
  }

  // ---------------------------------------------------------------- appending

  lemma FreshKeysPlain(existing: seq<string>, text: string)
    requires Plain(Normalize(Split(text, NEWLINE)))
    ensures OneLine(FreshKeys(existing, text)) && Plain(FreshKeys(existing, text))
    ensures forall k :: k in FreshKeys(existing, text) ==> k != []
  {
    forall k | k in FreshKeys(existing, text) ensures k != [] && NEWLINE !in k && FirstVisible(k) != Some('[') {
      assert k in Normalize(Split(text, NEWLINE));
      NormalizeMember(Split(text, NEWLINE), k);
      var y :| y in Split(text, NEWLINE) && TrimSpace(y) == k;
      SplitFields(text, NEWLINE, y);
      TrimmedMembers(y, NEWLINE);
    }
  }

  /** The new keys: distinct, and exactly the trimmed lines that no existing key equals. */
  lemma FreshKeysAre(existing: seq<string>, text: string)
    ensures Normalized(FreshKeys(existing, text))
    ensures forall k :: k in FreshKeys(existing, text)
                        <==> k in Normalize(Split(text, NEWLINE)) && k !in Normalize(existing)
  {
    NormalizeIsNormalized(Split(text, NEWLINE));
    FilterNormalized(Normalize(Split(text, NEWLINE)), NotIn(Names(Normalize(existing))));
  }

  function EnabledLines(keys: seq<string>): seq<KeyStatus> {
    seq(|keys|, i requires 0 <= i < |keys| => KeyStatus(keys[i], ENABLED, 0, ""))
  }

  lemma AppendedPage(existing: seq<string>, more: seq<string>, info: Info)
    requires forall i :: i in info.status ==> i < |existing|
    ensures Page(existing + more, info.(size := |existing + more|)) == Page(existing, info) + EnabledLines(more)
  {
  }

  /** An append leaves every old key at its position, with its status, disable time and reason, and adds the new keys
      below, enabled, if and only if all of them together are read back whole, or one blank key is all there is. */
  lemma AppendReportIff(row: Row, text: string, json: Json)
    requires row.key != [] && SizeOk(row, json) && (LooksLikeArray(row.key) ==> IsArray(row.key, json) && !EmptyArray(row.key, json))
    ensures var keys := GetKeys(row.key, json);
            var all := keys + FreshKeys(keys, text);
            Report(AppendStep(row, text, json), json) == Report(row, json) + EnabledLines(FreshKeys(keys, text))
            <==> ReadBackWhole(all, json) || all == [[]]
  {
    var keys := GetKeys(row.key, json);
    var added := FreshKeys(keys, text);
    var all, row' := keys + added, AppendStep(row, text, json);
    WrittenRow(row, all, row.info, json);
    FreshKeysAre(keys, text);
    AppendedPage(keys, added, row.info);
    AppendedKeysIff(row, added, json);
    if KeysAfter(row, all, json) == all {
      BelowAll(row.info.status, CountAfter(row, all, json));
    } else if Page(KeysAfter(row, all, json), row'.info) == Page(all, row.info.(size := |all|)) {
      PageTellsKeys(KeysAfter(row, all, json), row'.info, all, row.info.(size := |all|));
    }
  }

  lemma AppendedKeysIff(row: Row, added: seq<string>, json: Json)
    requires Filled(added) && GetKeys(row.key, json) != [] && GetKeys(row.key, json) == CountedKeys(row.key, json)
    ensures var all := GetKeys(row.key, json) + added;
            && (KeysAfter(row, all, json) == all <==> ReadBackWhole(all, json) || all == [[]])
            && (KeysAfter(row, all, json) == all ==> CountAfter(row, all, json) == |all|)
  {
    var keys := GetKeys(row.key, json);
    var all := keys + added;
    JoinIsEmptyIff(all);
    if Join(all, NEWLINE) != [] {
      ReadBackWholeIff(all, json);
    } else {
      assert |all| == 1;
      assert all == keys;
    }
  }

  /** An array that cannot be read counts as no keys: after an append only the new keys are left. */
  lemma UnreadableArrayIsReplaced(row: Row, text: string, json: Json)
    requires LooksLikeArray(row.key) && !IsArray(row.key, json)
    requires Plain(Normalize(Split(text, NEWLINE))) && FreshKeys([], text) != []
    ensures GetKeys(AppendStep(row, text, json).key, json) == FreshKeys([], text)
  {
    var added := FreshKeys([], text);
    FreshKeysPlain([], text);
    assert added[0] in added && added[|added| - 1] in added;
    assert [] + added == added;
    PlainReadBackWholeIff(added, json);
    WrittenRow(row, added, row.info, json);
    ReadBackWholeIff(added, json);
  }

  // ---------------------------------------------------------------- times and reasons stay inside

  /** Every disable time and reason belongs to one of `n` keys. */
  predicate NotesUpTo(info: Info, n: nat) {
    (forall i :: i in info.time ==> i < n) && (forall i :: i in info.reason ==> i < n)
  }

  predicate Inside(info: Info) { NotesUpTo(info, info.size) }

  predicate HasNote(info: Info, i: nat) { i in info.time || i in info.reason }

  /** Of the kept positions, those that keep a time or a reason are the new positions below `n`. */
  predicate NotesBelow(info: Info, kept: seq<nat>, wanted: nat -> bool, n: nat) {
    forall j :: 0 <= j < |kept| && HasNote(info, kept[j]) && wanted(kept[j]) ==> j < n
  }

  /** No key that is left and keeps a time or a reason lies beyond the number of keys that will be counted. */
  predicate NotesFit(row: Row, keep: nat -> bool, wanted: nat -> bool, json: Json) {
    NotesBelow(row.info, Kept(|GetKeys(row.key, json)|, keep), wanted, CountAfter(row, Left(row, keep, json), json))
  }

  /** A reindexed map stays below `n` exactly when the entries that are kept do. */
  lemma ReindexInsideIff<V>(m: map<nat, V>, kept: seq<nat>, wanted: nat -> bool, n: nat)
    ensures (forall j :: j in Reindex(m, kept, wanted) ==> j < n)
            <==> forall j :: 0 <= j < |kept| && kept[j] in m && wanted(kept[j]) ==> j < n
  {
    if forall j :: j in Reindex(m, kept, wanted) ==> j < n {
      forall j | 0 <= j < |kept| && kept[j] in m && wanted(kept[j]) ensures j < n {
        ReindexEntry(m, kept, wanted, j);
        assert j in Reindex(m, kept, wanted);
      }
    } else {
      var j :| j in Reindex(m, kept, wanted) && j >= n;
      ReindexEntry(m, kept, wanted, j);
      assert 0 <= j < |kept| && kept[j] in m && wanted(kept[j]);
    }
  }

  lemma InsideIff(info: Info, kept: seq<nat>, wanted: nat -> bool, n: nat, after: Info)
    requires after.size == n
    requires after.time == Reindex(info.time, kept, wanted) && after.reason == Reindex(info.reason, kept, wanted)
    ensures Inside(after) <==> NotesBelow(info, kept, wanted, n)
  {
    ReindexInsideIff(info.time, kept, wanted, n);
    ReindexInsideIff(info.reason, kept, wanted, n);
    NotesBelowIff(info, kept, wanted, n);
  }

  lemma NotesBelowIff(info: Info, kept: seq<nat>, wanted: nat -> bool, n: nat)
    ensures NotesBelow(info, kept, wanted, n)
            <==> (forall j :: 0 <= j < |kept| && kept[j] in info.time && wanted(kept[j]) ==> j < n)
                 && (forall j :: 0 <= j < |kept| && kept[j] in info.reason && wanted(kept[j]) ==> j < n)
  {
  }

  lemma RebuiltInsideIff(row: Row, keep: nat -> bool, wanted: nat -> bool, json: Json)
    ensures Inside(Update(row, Rebuilt(GetKeys(row.key, json), row.info, keep, wanted), json).info)
            <==> NotesFit(row, keep, wanted, json)
  {
    RebuiltRow(row, keep, wanted, json);
    InsideIff(row.info, Kept(|GetKeys(row.key, json)|, keep), wanted, CountAfter(row, Left(row, keep, json), json),
              Update(row, Rebuilt(GetKeys(row.key, json), row.info, keep, wanted), json).info);
  }

  predicate Deletes(row: Row, index: Option<int>, json: Json) {
    index.Some? && 0 <= index.value < row.info.size && |GetKeys(row.key, json)| > 1
  }

  predicate DeletesDisabled(row: Row, json: Json) {
    exists i: nat :: i < |GetKeys(row.key, json)| && StatusAt(row.info, i) == AUTO_DISABLED
  }

  /** The number of keys after an append. */
  function AppendCount(row: Row, text: string, json: Json): nat {
    if row.key == [] then |CountedKeys(text, json)| else CountAfter(row, Appended(row, text, json), json)
  }

  /** An action that changes the keys leaves no time or reason behind. */
  predicate FitsAction(row: Row, a: Action, json: Json) {
    match a
    case Delete(index) => Deletes(row, index, json) ==> NotesFit(row, Not(index.value), Always(), json)
    case DeleteDisabled => DeletesDisabled(row, json) ==> NotesFit(row, NotAuto(row.info), NotEnabled(row.info), json)
    case Append(text) => NotesUpTo(row.info, AppendCount(row, text, json))
    case _ => true
  }

  predicate IndexedRow(row: Row, json: Json) { SizeOk(row, json) && Inside(row.info) }

  lemma DeletesIff(row: Row, index: Option<int>, json: Json)
    requires SizeOk(row, json)
    ensures DeleteKeyStep(row, index, json).ok <==> Deletes(row, index, json)
    ensures DeleteKeyStep(row, index, json).row
            == if Deletes(row, index, json) then Update(row, Rebuilt(GetKeys(row.key, json), row.info, Not(index.value), Always()), json)
               else row
  {
    var keys := GetKeys(row.key, json);
    if index.Some? && 0 <= index.value < row.info.size && keys != [] { OneLeftOut(keys, index.value); }
  }

  lemma DeletesDisabledIff(row: Row, json: Json)
    ensures DeleteDisabledStep(row, json).ok <==> DeletesDisabled(row, json)
    ensures DeleteDisabledStep(row, json).row
            == if DeletesDisabled(row, json)
               then Update(row, Rebuilt(GetKeys(row.key, json), row.info, NotAuto(row.info), NotEnabled(row.info)), json) else row
  {
    DeleteDisabledReportIff(row, json);
    SomeAutoIff(GetKeys(row.key, json), row.info);
  }

  lemma SomeAutoIff(keys: seq<string>, info: Info)
    ensures SomeAuto(Page(keys, info)) <==> exists i: nat :: i < |keys| && StatusAt(info, i) == AUTO_DISABLED
  {
    var page := Page(keys, info);
    if i: nat :| i < |keys| && StatusAt(info, i) == AUTO_DISABLED {
      assert page[i].status == AUTO_DISABLED;
    }
    if i :| 0 <= i < |page| && page[i].status == AUTO_DISABLED {
      assert StatusAt(info, i) == AUTO_DISABLED;
    }
  }

  lemma AppendInsideIff(row: Row, text: string, json: Json)
    ensures Inside(AppendStep(row, text, json).info) <==> NotesUpTo(row.info, AppendCount(row, text, json))
  {
    if row.key != [] { WrittenRow(row, Appended(row, text, json), row.info, json); }
  }

  lemma StatusActionInside(row: Row, a: Action, json: Json)
    requires IndexedRow(row, json) && (a.Disable? || a.Enable? || a.EnableAll? || a.DisableAll?)
    ensures Inside(Step(row, a, json).info)
  {
  }

  lemma AutoStatusInside(row: Row, key: string, status: int, reason: string, now: int, json: Json)
    requires IndexedRow(row, json)
    ensures Inside(AutoStatusStep(row, key, status, reason, now, json).info)
  {
    var keys := GetKeys(row.key, json);
    if key in keys {
      var i := IndexOf(keys, key);
      assert |keys| == |CountedKeys(row.key, json)| && i < row.info.size;
    }
  }

  /** One action keeps every map inside the key list exactly when it leaves no time or reason behind. */
  lemma StepIndexedIff(row: Row, a: Action, json: Json)
    requires IndexedRow(row, json)
    ensures IndexedRow(Step(row, a, json), json) <==> FitsAction(row, a, json)
  {
    StepKeepsSize(row, a, json);
    match a
    case Delete(index) => DeletesIff(row, index, json);
      if Deletes(row, index, json) { RebuiltInsideIff(row, Not(index.value), Always(), json); }
    case DeleteDisabled => DeletesDisabledIff(row, json);
      RebuiltInsideIff(row, NotAuto(row.info), NotEnabled(row.info), json);
    case Append(text) => AppendInsideIff(row, text, json);
    case AutoStatus(key, status, reason, now) => AutoStatusInside(row, key, status, reason, now, json);
    case _ => StatusActionInside(row, a, json);
  }

  predicate IndexedThroughout(row: Row, actions: seq<Action>, json: Json)
    decreases actions
  {
    IndexedRow(row, json) && (actions == [] || IndexedThroughout(Step(row, actions[0], json), actions[1..], json))
  }

  predicate AllFit(row: Row, actions: seq<Action>, json: Json)
    decreases actions
  {
    actions == [] || (FitsAction(row, actions[0], json) && AllFit(Step(row, actions[0], json), actions[1..], json))
  }

  /** Main invariant, for any key text and any parser: over every run of actions the size is the number of keys and all
      three maps stay inside the key list, exactly when no action leaves a time or a reason behind. */
  lemma {:induction false} RunIndexedIff(row: Row, actions: seq<Action>, json: Json)
    requires IndexedRow(row, json)
    ensures IndexedThroughout(row, actions, json) <==> AllFit(row, actions, json)
    decreases actions
  {
    if actions != [] {
      StepIndexedIff(row, actions[0], json);
      if IndexedRow(Step(row, actions[0], json), json) {
        RunIndexedIff(Step(row, actions[0], json), actions[1..], json);
      }
    }
  }

  // ---------------------------------------------------------------- one key per line

  predicate PlainRow(row: Row) {
    row.key != [] && !LooksLikeArray(row.key) && Plain(Lines(row.key))
  }

  lemma PlainReads(row: Row, json: Json)
    requires PlainRow(row)
    ensures GetKeys(row.key, json) == CountedKeys(row.key, json) == ExistingKeys(row.key, json) == Lines(row.key)
  {
  }

  lemma LeftIsPlain(row: Row, keep: nat -> bool, json: Json)
    requires PlainRow(row)
    ensures OneLine(Left(row, keep, json)) && Plain(Left(row, keep, json))
  {
    LinesOneLine(row.key);
    LeftAmongKeys(row, keep, json);
  }

  lemma LeftAmongKeys(row: Row, keep: nat -> bool, json: Json)
    ensures forall k :: k in Left(row, keep, json) ==> k in GetKeys(row.key, json)
  {
    var keys, left := GetKeys(row.key, json), Left(row, keep, json);
    forall k | k in left ensures k in keys {
      var j :| 0 <= j < |left| && left[j] == k;
      assert keys[Kept(|keys|, keep)[j]] in keys;
    }
  }

  /** With one key per line a deletion keeps the rest of the page exactly when the ends of what is left are not blank. */
  lemma PlainDeletionIff(row: Row, keep: nat -> bool, json: Json)
    requires PlainRow(row)
    ensures ReadBackWhole(Left(row, keep, json), json) <==> FilledEnds(Left(row, keep, json))
  {
    LeftIsPlain(row, keep, json);
    PlainReadBackWholeIff(Left(row, keep, json), json);
  }

  lemma PlainAppended(row: Row, text: string)
    requires PlainRow(row) && Plain(Normalize(Split(text, NEWLINE)))
    ensures var all := Lines(row.key) + FreshKeys(Lines(row.key), text); OneLine(all) && Plain(all) && all != []
    ensures Filled(FreshKeys(Lines(row.key), text))
  {
    LinesOneLine(row.key);
    FreshKeysPlain(Lines(row.key), text);
  }

  lemma EndsAfterAppend(key: string, added: seq<string>)
    requires Filled(added)
    ensures var all := Lines(key) + added;
            FilledEnds(all) || all == [[]] <==> TrimSep(key, NEWLINE) != [] || added == []
  {
    LinesOneLine(key);
    LinesEnds(key);
    if added == [] {
      assert Lines(key) + added == Lines(key);
    } else {
      assert added[|added| - 1] in added;
    }
  }

  /** And an append keeps it exactly when the old text holds more than newlines or nothing is added. */
  lemma PlainAppendIff(row: Row, text: string, json: Json)
    requires PlainRow(row) && Plain(Normalize(Split(text, NEWLINE)))
    ensures var all := Lines(row.key) + FreshKeys(Lines(row.key), text);
            ReadBackWhole(all, json) || all == [[]] <==> TrimSep(row.key, NEWLINE) != [] || FreshKeys(Lines(row.key), text) == []
  {
    PlainAppended(row, text);
    PlainReadBackWholeIff(Lines(row.key) + FreshKeys(Lines(row.key), text), json);
    EndsAfterAppend(row.key, FreshKeys(Lines(row.key), text));
  }

  /** No key is blank. */
  predicate Filled(keys: seq<string>) { forall k :: k in keys ==> k != [] }

  /** Keys one per line, none blank, and every map indexed inside the key list. */
  predicate TidyRow(row: Row, json: Json) { PlainRow(row) && Filled(Lines(row.key)) && IndexedRow(row, json) }

  lemma WrittenTidy(row: Row, all: seq<string>, info: Info, json: Json)
    requires PlainRow(row) && Filled(Lines(row.key)) && OneLine(all) && Plain(all) && Filled(all)
    ensures var row' := Update(row, Row(Join(all, NEWLINE), info), json);
            PlainRow(row') && Filled(Lines(row'.key)) && (all != [] ==> CountAfter(row, all, json) == |all|)
  {
    JoinIsEmptyIff(all);
    if all != [] {
      assert all[0] in all && all[|all| - 1] in all;
      PlainReadBackWholeIff(all, json);
      ReadBackIff(all);
      LinesOfOneLiners(all);
    }
  }

  lemma DeletionTidy(row: Row, keep: nat -> bool, wanted: nat -> bool, json: Json)
    requires TidyRow(row, json)
    ensures var row' := Update(row, Rebuilt(GetKeys(row.key, json), row.info, keep, wanted), json);
            PlainRow(row') && Filled(Lines(row'.key)) && NotesFit(row, keep, wanted, json)
  {
    PlainReads(row, json);
    LeftIsPlain(row, keep, json);
    LeftAmongKeys(row, keep, json);
    WrittenTidy(row, Left(row, keep, json), Rebuilt(GetKeys(row.key, json), row.info, keep, wanted).info, json);
  }

  lemma AppendTidy(row: Row, text: string, json: Json)
    requires TidyRow(row, json) && Plain(Normalize(Split(text, NEWLINE)))
    ensures var row' := AppendStep(row, text, json);
            PlainRow(row') && Filled(Lines(row'.key)) && NotesUpTo(row.info, AppendCount(row, text, json))
  {
    var keys := Lines(row.key);
    PlainReads(row, json);
    PlainAppended(row, text);
    WrittenTidy(row, keys + FreshKeys(keys, text), row.info, json);
  }

  lemma StatusActionKeepsKey(row: Row, a: Action, json: Json)
    requires row.key != [] && !a.Delete? && !a.DeleteDisabled? && !a.Append?
    ensures Step(row, a, json).key == row.key
  {
  }

  lemma StepKeepsTidy(row: Row, a: Action, json: Json)
    requires TidyRow(row, json) && PlainAction(a)
    ensures FitsAction(row, a, json) && TidyRow(Step(row, a, json), json)
  {
    StepIndexedIff(row, a, json);
    match a
    case Delete(index) => DeletesIff(row, index, json);
      if Deletes(row, index, json) { DeletionTidy(row, Not(index.value), Always(), json); }
    case DeleteDisabled => DeletesDisabledIff(row, json);
      DeletionTidy(row, NotAuto(row.info), NotEnabled(row.info), json);
    case Append(text) => AppendTidy(row, text, json);
    case _ => StatusActionKeepsKey(row, a, json);
  }

  /** With one key per line and no blank ones to begin with there never are any, and all three maps stay inside. */
  lemma {:induction false} RunWithoutBlanks(row: Row, actions: seq<Action>, json: Json)
    requires TidyRow(row, json) && forall a :: a in actions ==> PlainAction(a)
    ensures AllFit(row, actions, json) && IndexedThroughout(row, actions, json) && TidyRow(RowAfter(row, actions, json), json)
    decreases actions
  {
    if actions != [] {
      assert actions[0] in actions;
      StepKeepsTidy(row, actions[0], json);
      RunWithoutBlanks(Step(row, actions[0], json), actions[1..], json);
    }
  }

  // ---------------------------------------------------------------- two inputs that go wrong

  /** An array whose first key holds a newline (a pretty-printed key, say): deleting the second key tears the first apart. */
  lemma ArrayKeyExample(row: Row, a: string, b: string, c: string, json: Json)
    requires IsArray(row.key, json) && json(TrimSpace(row.key)).value == [a + [NEWLINE] + b, c] && row.info.size == 2
    requires OneLine([a, b]) && a != [] && b != [] && FirstVisible(a).Some? && FirstVisible(a) != Some('[')
    ensures var o := DeleteKeyStep(row, Some(1), json);
            o.ok && GetKeys(o.row.key, json) == [a, b] && o.row.info.size == 2
  {
    var whole := a + [NEWLINE] + b;
    var keys := [whole, c];
    assert row.key != [] by { ArrayIffBracketFirst(row.key); }
    assert GetKeys(row.key, json) == keys;
    OneLeftOut(keys, 1);
    assert Without(keys, 1) == [whole];
    RebuiltRow(row, Not(1), Always(), json);
    TornApart(a, b, json);
  }

  lemma TornApart(a: string, b: string, json: Json)
    requires OneLine([a, b]) && a != [] && b != [] && FirstVisible(a).Some? && FirstVisible(a) != Some('[')
    ensures var torn := [a + [NEWLINE] + b];
            Join(torn, NEWLINE) != [] && KeysOf(torn, json) == [a, b] && CountOf(torn, json) == 2
  {
    var torn := [a + [NEWLINE] + b];
    FirstVisibleConcat(a + [NEWLINE], b);
    FirstVisibleConcat(a, [NEWLINE]);
    ArrayIffBracketFirst(Join(torn, NEWLINE));
    assert [a, b][0] == a && [a, b][1] == b;
    SplitAtSeparator(a, b, NEWLINE);
    SplitWithoutSeparator(a, NEWLINE);
    SplitWithoutSeparator(b, NEWLINE);
    OnlyFields(torn);
    ReadBackIff([a, b]);
  }

  lemma OnlyFields(one: seq<string>)
    requires |one| == 1
    ensures SplitEach(one, NEWLINE) == Split(one[0], NEWLINE)
  {
    assert one[1..] == [];
  }

  /** Three keys one per line, the middle one blank and the last auto-disabled ("a", "", "b", say): deleting the first
      leaves the last alone, shown as enabled, with its disable time beyond the key list. */
  lemma BlankKeyExample(row: Row, time: int, reason: string, json: Json)
    requires PlainRow(row) && |Lines(row.key)| == 3 && Lines(row.key)[1] == []
    requires row.info == Info(3, map[2 := AUTO_DISABLED], map[2 := time], map[2 := reason])
    ensures IndexedRow(row, json) && Report(row, json)[2] == KeyStatus(Lines(row.key)[2], AUTO_DISABLED, time, reason)
    ensures var after := DeleteKeyStep(row, Some(0), json).row;
            && Report(after, json) == [KeyStatus(Lines(row.key)[2], ENABLED, 0, "")]
            && after.info.size == 1 && 1 in after.info.time && !Inside(after.info)
  {
    PlainReads(row, json);
    FirstOfThreeDeleted(row, json);
    ShownEnabled(DeleteKeyStep(row, Some(0), json).row.info, Lines(row.key)[2]);
  }

  lemma FirstOfThreeDeleted(row: Row, json: Json)
    requires PlainRow(row) && |Lines(row.key)| == 3 && Lines(row.key)[1] == []
    requires row.info.size == 3 && row.info.status == map[2 := AUTO_DISABLED] && 2 in row.info.time
    ensures var after := DeleteKeyStep(row, Some(0), json).row;
            && GetKeys(after.key, json) == [Lines(row.key)[2]]
            && after.info.size == 1 && 1 in after.info.time && 0 !in after.info.status
  {
    PlainReads(row, json);
    LastKeyAlone(row, json);
    RebuiltRow(row, Not(0), Always(), json);
    KeptAllButFirst();
    NotesMove(row.info, Kept(3, Not(0)));
  }

  lemma ShownEnabled(info: Info, b: string)
    requires 0 !in info.status
    ensures Page([b], info) == [KeyStatus(b, ENABLED, 0, "")]
  {
    assert Page([b], info)[0] == StatusLine(info, b, 0);
  }

  lemma LastKeyAlone(row: Row, json: Json)
    requires PlainRow(row) && |Lines(row.key)| == 3 && Lines(row.key)[1] == []
    ensures KeysAfter(row, Left(row, Not(0), json), json) == [Lines(row.key)[2]] && CountAfter(row, Left(row, Not(0), json), json) == 1
  {
    LinesEnds(row.key);
    LeftIsAllButFirst(row, json);
    LeftIsPlain(row, Not(0), json);
    OnlySecond(row, Left(row, Not(0), json), json);
  }

  lemma LeftIsAllButFirst(row: Row, json: Json)
    requires PlainRow(row)
    ensures Left(row, Not(0), json) == Lines(row.key)[1..]
  {
    PlainReads(row, json);
    LinesOneLine(row.key);
    OneLeftOut(Lines(row.key), 0);
    AllButFirst(Lines(row.key));
  }

  lemma AllButFirst<T>(list: seq<T>)
    requires list != []
    ensures Without(list, 0) == list[1..]
  {
  }

  lemma OnlySecond(row: Row, left: seq<string>, json: Json)
    requires |left| == 2 && left[0] == [] && left[1] != [] && OneLine(left) && Plain(left)
    ensures KeysAfter(row, left, json) == [left[1]] && CountAfter(row, left, json) == 1
  {
    JoinIsEmptyIff(left);
    PlainReadBackWholeIff(left, json);
    BlankThenKey(left);
  }

  lemma NotesMove(info: Info, kept: seq<nat>)
    requires kept == [1, 2] && info.status == map[2 := AUTO_DISABLED] && 2 in info.time
    ensures 0 !in Reindex(info.status, kept, NotEnabled(info)) && 1 in Reindex(info.time, kept, Always())
  {
    ReindexEntry(info.time, kept, Always(), 1);
    ReindexEntry(info.status, kept, NotEnabled(info), 0);
  }

  lemma KeptAllButFirst()
    ensures Kept(3, Not(0)) == [1, 2]
  {
    assert Kept(1, Not(0)) == [] && Kept(2, Not(0)) == [1];
  }
}
