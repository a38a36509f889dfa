/** Whole runs of upstream reconciliation: what every run keeps, what the change flag means, and when
detecting again after applying finds nothing. */
module UpstreamRuns {
  import opened Strings
  import opened ModelNames
  import opened Options
  import opened UpstreamUpdate

  datatype Action =
    | DoCheck(check: Check)
    | DoApply(selection: Selection, now: int, persisted: bool)

  function Step(row: Row, a: Action, rx: Matcher): Row {
    match a
    case DoCheck(c) => CheckStep(row, c, rx).row
    case DoApply(s, now, persisted) => if persisted then ApplyStep(row, s, now).row else row
  }

  function RowAfter(row: Row, actions: seq<Action>, rx: Matcher): Row
    decreases actions
  {
    if actions == [] then row else RowAfter(Step(row, actions[0], rx), actions[1..], rx)
  }

  /** Upstream names without commas. */
  predicate PlainUpstream(a: Action) {
    a.DoCheck? && a.check.upstream.Some? ==> CommaFree(Normalize(a.check.upstream.value))
  }

  predicate RowOk(row: Row) { Consistent(row) && CommaFree(row.detected) }

  lemma CheckKeepsCommaFree(row: Row, c: Check, rx: Matcher)
    requires CommaFree(row.detected) && PlainUpstream(DoCheck(c))
    ensures CommaFree(CheckStep(row, c, rx).row.detected)
  {
    if !Skips(row, c) && c.upstream.Some? {
      FoundIsConsistent(row, c, rx);
    }
  }

  lemma StepKeepsRowOk(row: Row, a: Action, rx: Matcher)
    requires RowOk(row) && PlainUpstream(a)
    ensures RowOk(Step(row, a, rx))
    ensures Normalized(row.ignored) ==> Normalized(Step(row, a, rx).ignored)
  {
    match a
    case DoCheck(c) =>
      CheckKeepsConsistent(row, c, rx);
      CheckKeepsCommaFree(row, c, rx);
    case DoApply(s, now, persisted) =>
      if persisted {
        CommaFreeStaysClear(row, s, now);
        ApplyKeepsConsistentIff(row, s, now);
      }
  }

  /** With upstream names free of commas every run keeps the row consistent. */
  lemma {:induction false} RunKeepsRowOk(row: Row, actions: seq<Action>, rx: Matcher)
    requires RowOk(row) && forall a :: a in actions ==> PlainUpstream(a)
    ensures RowOk(RowAfter(row, actions, rx))
    ensures Normalized(row.ignored) ==> Normalized(RowAfter(row, actions, rx).ignored)
    decreases actions
  {
    if actions != [] {
      assert actions[0] in actions;
      StepKeepsRowOk(row, actions[0], rx);
      RunKeepsRowOk(Step(row, actions[0], rx), actions[1..], rx);
    }
  }

  /** An apply that is stored adds no name that splits into a pending one it leaves alone. */
  predicate ClearAction(row: Row, a: Action) {
    a.DoApply? && a.persisted ==> StaysClear(row, a.selection)
  }

  predicate AllClear(row: Row, actions: seq<Action>, rx: Matcher)
    decreases actions
  {
    actions == [] || (ClearAction(row, actions[0]) && AllClear(Step(row, actions[0], rx), actions[1..], rx))
  }

  predicate ConsistentThroughout(row: Row, actions: seq<Action>, rx: Matcher)
    decreases actions
  {
    Consistent(row) && (actions == [] || ConsistentThroughout(Step(row, actions[0], rx), actions[1..], rx))
  }

  lemma StepConsistentIff(row: Row, a: Action, rx: Matcher)
    requires Consistent(row)
    ensures Consistent(Step(row, a, rx)) <==> ClearAction(row, a)
  {
    match a
    case DoCheck(c) => CheckKeepsConsistent(row, c, rx);
    case DoApply(s, now, persisted) => if persisted { ApplyKeepsConsistentIff(row, s, now); }
  }

  /** Main invariant, for any upstream lists and any selections: a run of checks and applies keeps the row consistent
      throughout exactly when every stored apply stays clear. */
  lemma {:induction false} RunConsistentIff(row: Row, actions: seq<Action>, rx: Matcher)
    requires Consistent(row)
    ensures ConsistentThroughout(row, actions, rx) <==> AllClear(row, actions, rx)
    decreases actions
  {
    if actions != [] {
      StepConsistentIff(row, actions[0], rx);
      if Consistent(Step(row, actions[0], rx)) {
        RunConsistentIff(Step(row, actions[0], rx), actions[1..], rx);
      }
    }
  }

  /** A row with nothing pending, whatever its models and ignore rules. */
  predicate NothingPending(row: Row) { row.detected == [] && row.removed == [] }

  /** From a row with nothing pending: consistent throughout exactly when every stored apply stays clear, and so always
      when no upstream name holds a comma. */
  lemma FreshRunConsistentIff(row: Row, actions: seq<Action>, rx: Matcher)
    requires NothingPending(row)
    ensures ConsistentThroughout(row, actions, rx) <==> AllClear(row, actions, rx)
    ensures (forall a :: a in actions ==> PlainUpstream(a)) ==>
              ConsistentThroughout(row, actions, rx) && RowOk(RowAfter(row, actions, rx))
  {
    RunConsistentIff(row, actions, rx);
    if forall a :: a in actions ==> PlainUpstream(a) {
      RunKeepsRowOk(row, actions, rx);
      PlainThroughout(row, actions, rx);
    }
  }

  lemma {:induction false} PlainThroughout(row: Row, actions: seq<Action>, rx: Matcher)
    requires RowOk(row) && forall a :: a in actions ==> PlainUpstream(a)
    ensures ConsistentThroughout(row, actions, rx)
    decreases actions
  {
    if actions != [] {
      assert actions[0] in actions;
      StepKeepsRowOk(row, actions[0], rx);
      PlainThroughout(Step(row, actions[0], rx), actions[1..], rx);
    }
  }

  /** A name applied while one of its pieces stays pending breaks the row: `name` is "a,b" and `piece` is "a", say. */
  lemma SplitNameExample(name: string, piece: string, row: Row, now: int)
    requires Clean(name) && piece in Pieces(name) && piece != name
    requires row == Row("", [], [name, piece], [], 0, false)
    ensures Consistent(row) && !Consistent(ApplyStep(row, Selection([name], [], []), now).row)
  {
    var s := Selection([name], [], []);
    NormalizeIsNormalized(Split(name, COMMA));
    assert Normalized(row.detected);
    assert Local(row.models) == [] && Normalize(row.ignored) == [] && Normalize([]) == [];
    ApplyKeepsConsistentIff(row, s, now);
    NormalizeFixed([name]);
    assert name in [name] && row.detected[0] == name && row.detected[1] == piece;
    SelectedMember(row, s, name);
    SelectedMember(row, s, piece);
  }

  // ---------------------------------------------------------------- the change flag

  /** The list an apply stores. */
  function NextModels(row: Row, s: Selection): (r: seq<string>)
    ensures Normalized(r)
  {
    ApplySelected(Local(row.models), SelectedAdd(row, s), SelectedRemove(row, s))
  }

  lemma NextUnchanged(row: Row, s: Selection)
    ensures NextModels(row, s) == Local(row.models) <==> SameNames(NextModels(row, s), Local(row.models))
  {
    ApplySelectedUnchanged(Local(row.models), SelectedAdd(row, s), SelectedRemove(row, s));
  }

  predicate AllPiecesIn(add: seq<string>, list: seq<string>) {
    forall a, x :: a in add && x in Pieces(a) ==> x in list
  }

  predicate IsPiece(x: string, add: seq<string>) { exists a :: a in add && x in Pieces(a) }

  /** Every local name that is removed is a piece of an added one. */
  predicate RemovedComeBack(remove: seq<string>, origin: seq<string>, add: seq<string>) {
    forall r :: r in remove && r in origin ==> IsPiece(r, add)
  }

  /** Names that are not local are added, or local ones removed. */
  predicate Selects(add: seq<string>, remove: seq<string>, origin: seq<string>) {
    !Within(add, origin) || exists r :: r in remove && r in origin
  }

  /** The list differs, but what is added only splits into names that are there already, among them all that is removed. */
  predicate AddsNothingNew(row: Row, s: Selection) {
    var add, remove, origin := SelectedAdd(row, s), SelectedRemove(row, s), Local(row.models);
    Selects(add, remove, origin) && AllPiecesIn(add, origin) && RemovedComeBack(remove, origin, add)
  }

  lemma SelectedApart(row: Row, s: Selection, x: string)
    ensures x in SelectedRemove(row, s) ==> x !in SelectedAdd(row, s)
  {
    SubtractMember(Intersect(s.remove, Normalize(row.removed)), SelectedAdd(row, s), x);
  }

  /** The flag is set exactly when names that are not local are added or local ones removed. */
  lemma FlagMeansSelected(row: Row, s: Selection, now: int)
    ensures ApplyStep(row, s, now).modelsChanged <==> Selects(SelectedAdd(row, s), SelectedRemove(row, s), Local(row.models))
  {
    var add, remove, origin := SelectedAdd(row, s), SelectedRemove(row, s), Local(row.models);
    NextUnchanged(row, s);
    forall x ensures x in NextModels(row, s) <==> x in add || (x in origin && x !in remove) {
      ApplySelectedMember(origin, add, remove, x);
    }
    forall x ensures x in remove ==> x !in add { SelectedApart(row, s, x); }
    SelectsIff(add, remove, origin, NextModels(row, s));
  }

  lemma SelectsIff(add: seq<string>, remove: seq<string>, origin: seq<string>, next: seq<string>)
    requires forall x :: x in next <==> x in add || (x in origin && x !in remove)
    requires forall x :: x in remove ==> x !in add
    ensures Selects(add, remove, origin) <==> !SameNames(next, origin)
  {
    if SameNames(next, origin) {
      forall x | x in add ensures x in origin { assert x in next; }
      forall r | r in remove ensures r !in origin { assert r !in next; }
    }
  }

  lemma SameNamesIff(row: Row, s: Selection, now: int)
    ensures SameNames(Local(ApplyStep(row, s, now).row.models), Local(row.models))
            <==> AllPiecesIn(SelectedAdd(row, s), Local(row.models))
                 && RemovedComeBack(SelectedRemove(row, s), Local(row.models), SelectedAdd(row, s))
  {
    var after, origin := Local(ApplyStep(row, s, now).row.models), Local(row.models);
    forall x
      ensures x in after <==> (x in origin && x !in SelectedRemove(row, s)) || IsPiece(x, SelectedAdd(row, s))
    {
      LocalAfterApply(row, s, now, x);
    }
    SameAfterIff(origin, after, SelectedAdd(row, s), SelectedRemove(row, s));
  }

  lemma SameAfterIff(origin: seq<string>, after: seq<string>, add: seq<string>, remove: seq<string>)
    requires forall x :: x in after <==> (x in origin && x !in remove) || IsPiece(x, add)
    ensures SameNames(after, origin) <==> AllPiecesIn(add, origin) && RemovedComeBack(remove, origin, add)
  {
    if SameNames(after, origin) {
      forall a, x | a in add && x in Pieces(a) ensures x in origin { assert IsPiece(x, add) && x in after; }
      forall x | x in remove && x in origin ensures IsPiece(x, add) { assert x in after; }
    }
  }

  /** For every row: an apply reports a change exactly when the set of local names changes, except when it adds nothing new. */
  lemma ApplyReportsChangeIff(row: Row, s: Selection, now: int)
    ensures (ApplyStep(row, s, now).modelsChanged
             <==> !SameNames(Local(ApplyStep(row, s, now).row.models), Local(row.models)))
            <==> !AddsNothingNew(row, s)
  {
    FlagMeansSelected(row, s, now);
    SameNamesIff(row, s, now);
    assert !ApplyStep(row, s, now).modelsChanged ==> ApplyStep(row, s, now).row.models == row.models;
  }

  lemma CommaFreeAddsNew(row: Row, s: Selection)
    requires RowOk(row)
    ensures !AddsNothingNew(row, s)
  {
    var add := SelectedAdd(row, s);
    if add != [] {
      SelectedMember(row, s, add[0]);
      PieceOfPlainIsItself(add[0], add[0]);
    }
  }

  /** Without commas the flag is always right. */
  lemma ApplyReportsChange(row: Row, s: Selection, now: int)
    requires RowOk(row)
    ensures ApplyStep(row, s, now).modelsChanged
            <==> !SameNames(Local(ApplyStep(row, s, now).row.models), Local(row.models))
  {
    ApplyReportsChangeIff(row, s, now);
    CommaFreeAddsNew(row, s);
  }

  /** The pending name is spelled like the stored models, "a,b" say: applying it reports a change and changes nothing. */
  lemma FlagExample(name: string, row: Row, now: int)
    requires Clean(name) && COMMA in name && row == Row(name, [], [name], [], 0, false)
    ensures var r := ApplyStep(row, Selection([name], [], []), now);
            Consistent(row) && r.modelsChanged && SameNames(Local(r.row.models), Local(row.models))
  {
    var s := Selection([name], [], []);
    OwnPieces(name);
    NormalizeFixed([name]);
    assert Normalize(row.ignored) == [] && Normalize([]) == [];
    assert name in [name];
    SelectedMember(row, s, name);
    forall a ensures a in SelectedAdd(row, s) ==> a == name { SelectedMember(row, s, a); }
    forall x ensures x !in SelectedRemove(row, s) { SelectedMember(row, s, x); }
    assert name in SelectedAdd(row, s) && name !in Local(row.models);
    FlagMeansSelected(row, s, now);
    SameNamesIff(row, s, now);
  }

  lemma OwnPieces(name: string)
    requires COMMA in name
    ensures Local(name) == Pieces(name) && name !in Local(name)
  {
    LocalIsSplit(name);
    LocalCommaFree(name);
  }

  lemma MergedIsLonger(origin: seq<string>, add: seq<string>)
    requires Normalized(origin) && Normalized(add) && Disjoint(add, origin)
    ensures Merge(origin, add) == origin + add
  {
    NonBlankConcat(origin, add);
    NonBlankFixed(origin);
    NonBlankFixed(add);
    var all := origin + add;
    forall i, j | 0 <= i < j < |all| ensures all[i] != all[j] {
      if i < |origin| <= j { assert all[j] in add && all[i] in origin; }
    }
    UniqFixed(all);
  }

  /** The names a check adopts: all it found, or none. */
  function Adopted(row: Row, c: Check, rx: Matcher): seq<string> {
    if !Skips(row, c) && c.upstream.Some? && c.persisted && c.allowAuto && row.autoSync then Found(row, c, rx).0 else []
  }

  /** What a stored check does to the local names, whatever upstream lists: it appends the new pieces of what it adopts,
      and reports the names it adopts. */
  lemma CheckAppendsPieces(row: Row, c: Check, rx: Matcher)
    requires c.persisted
    ensures var o, add := CheckStep(row, c, rx), Adopted(row, c, rx);
            && Local(o.row.models) == Local(row.models) + NewPieces(Local(row.models), add)
            && (o.modelsChanged <==> add != []) && o.autoAdded == |add|
  {
    var add, origin := Adopted(row, c, rx), Local(row.models);
    if add == [] {
      NoPieces(origin);
      NothingAdopted(row, c, rx);
    } else {
      FoundIsConsistent(row, c, rx);
      RecordAppends(row, c, add, Found(row, c, rx).1);
    }
  }

  lemma NoPieces(origin: seq<string>)
    requires Normalized(origin)
    ensures NewPieces(origin, []) == []
  {
    forall x ensures x !in NewPieces(origin, []) { NewPiecesMember(origin, [], x); }
    EmptyOrMember(NewPieces(origin, []));
  }

  lemma NothingAdopted(row: Row, c: Check, rx: Matcher)
    requires c.persisted && Adopted(row, c, rx) == []
    ensures var o := CheckStep(row, c, rx); o.row.models == row.models && !o.modelsChanged && o.autoAdded == 0
  {
  }

  lemma RecordAppends(row: Row, c: Check, add: seq<string>, remove: seq<string>)
    requires c.persisted && c.allowAuto && row.autoSync && add != [] && Normalized(add) && Disjoint(add, Local(row.models))
    ensures var o := Record(row, c, add, remove);
            && Local(o.row.models) == Local(row.models) + NewPieces(Local(row.models), add)
            && o.modelsChanged && o.autoAdded == |add|
  {
    MergedIsLonger(Local(row.models), add);
    LocalCommaFree(row.models);
    StoredAfterAdding(Local(row.models), add);
  }

  /** So the flag is right unless what is adopted brings no new piece, and the count is right exactly when it brings as
      many new pieces as names. */
  lemma CheckReportsChangeIff(row: Row, c: Check, rx: Matcher)
    requires c.persisted
    ensures var o, add := CheckStep(row, c, rx), Adopted(row, c, rx);
            && ((o.modelsChanged <==> !SameNames(Local(o.row.models), Local(row.models)))
                <==> !(add != [] && NewPieces(Local(row.models), add) == []))
            && (|Local(o.row.models)| == |Local(row.models)| + o.autoAdded
                <==> |NewPieces(Local(row.models), add)| == |add|)
  {
    CheckAppendsPieces(row, c, rx);
    var origin, more := Local(row.models), NewPieces(Local(row.models), Adopted(row, c, rx));
    if more != [] {
      assert more[0] in more && more[0] in origin + more;
      NewPiecesMember(origin, Adopted(row, c, rx), more[0]);
    } else {
      assert origin + more == origin;
    }
  }

  /** Without commas flag and count are always right. */
  lemma CheckReportsChange(row: Row, c: Check, rx: Matcher)
    requires PlainUpstream(DoCheck(c)) && c.persisted
    ensures var o := CheckStep(row, c, rx);
            && (o.modelsChanged <==> !SameNames(Local(o.row.models), Local(row.models)))
            && |Local(o.row.models)| == |Local(row.models)| + o.autoAdded
            && (o.modelsChanged ==> Local(o.row.models) == Local(row.models) + Found(row, c, rx).0)
  {
    CheckAppendsPieces(row, c, rx);
    CheckReportsChangeIff(row, c, rx);
    var add := Adopted(row, c, rx);
    if add != [] {
      FoundIsConsistent(row, c, rx);
      PlainPieces(Local(row.models), add);
    }
  }

  lemma PlainPieces(origin: seq<string>, add: seq<string>)
    requires Normalized(origin) && Normalized(add) && CommaFree(add) && Disjoint(add, origin)
    ensures NewPieces(origin, add) == add
  {
    SplitEachPlain(add, COMMA);
    NormalizeFixed(add);
    NormalizeFixed(origin);
    FilterNormalized(add, x => x !in origin);
  }

  /** Upstream lists a name spelled like the stored models: auto-sync reports one name added, and nothing changes. */
  lemma AutoSyncFlagExample(name: string, row: Row, c: Check, rx: Matcher)
    requires Clean(name) && COMMA in name && row == Row(name, [], [], [], 0, true)
    requires c == Check(1, 0, true, true, map[], Some([name]), true)
    ensures var o := CheckStep(row, c, rx);
            o.modelsChanged && o.autoAdded == 1 && Local(o.row.models) == Local(row.models)
  {
    OwnPieces(name);
    NameIsFound(name, row, c, rx);
    CheckAppendsPieces(row, c, rx);
    OwnPiecesAreOld(name);
  }

  lemma NameIsFound(name: string, row: Row, c: Check, rx: Matcher)
    requires Clean(name) && name !in Local(row.models) && row.ignored == []
    requires c.upstream == Some([name]) && c.mapping == map[]
    ensures Found(row, c, rx).0 == [name]
  {
    NormalizeFixed([name]);
    assert name in [name] && Normalize(row.ignored) == [];
    forall x ensures x in Found(row, c, rx).0 <==> x == name { FoundMember(row, c, rx, x); }
    OnlyMember(Found(row, c, rx).0, name);
  }

  lemma OwnPiecesAreOld(name: string)
    requires COMMA in name
    ensures NewPieces(Local(name), [name]) == []
  {
    OwnPieces(name);
    forall x ensures x !in NewPieces(Local(name), [name]) { NewPiecesMember(Local(name), [name], x); }
    EmptyOrMember(NewPieces(Local(name), [name]));
  }

  lemma OnlyMember(list: seq<string>, x: string)
    requires NoDup(list) && forall y :: y in list <==> y == x
    ensures list == [x]
  {
    FirstTwoDiffer(list);
    assert forall i :: 0 <= i < |list| ==> list[i] in list;
    assert x in list;
  }

  lemma FirstTwoDiffer(list: seq<string>)
    requires NoDup(list)
    ensures |list| > 1 ==> list[0] != list[1]
  {
  }

  // ---------------------------------------------------------------- what a check and an apply store

  /** Too soon after the last check, and not forced. */
  predicate TooSoon(row: Row, c: Check) {
    !c.force && row.lastCheck > 0 && c.now < row.lastCheck + c.minInterval
  }

  /** A check that is skipped, fails to fetch or is not stored leaves models, rules and pending lists alone; the check time
      is written exactly when a check that was not skipped is stored. */
  lemma CheckLeavesAlone(row: Row, c: Check, rx: Matcher)
    ensures var row' := CheckStep(row, c, rx).row;
            && row'.ignored == row.ignored && row'.autoSync == row.autoSync
            && row'.lastCheck == (if !TooSoon(row, c) && c.persisted then c.now else row.lastCheck)
            && (TooSoon(row, c) || c.upstream.None? || !c.persisted ==>
                  row'.models == row.models && row'.detected == row.detected && row'.removed == row.removed)
    ensures TooSoon(row, c) || c.upstream.None? || !c.persisted ==> !CheckStep(row, c, rx).modelsChanged
    ensures CheckStep(row, c, rx).autoAdded == CheckStep(row, c.(persisted := true), rx).autoAdded
  {
  }

  /** After a stored successful check: pending to be removed are exactly the local names that are neither redirect sources
      nor upstream names; pending to be added, unless they are adopted at once, exactly the upstream names that are not
      local, not redirect targets and not ignored. Both without duplicates. */
  lemma CheckStoresFindings(row: Row, c: Check, rx: Matcher, x: string)
    requires !TooSoon(row, c) && c.upstream.Some? && c.persisted
    ensures var row' := CheckStep(row, c, rx).row;
            && Normalized(row'.removed) && Normalized(row'.detected)
            && (x in row'.removed <==> x in Local(row.models) && x !in c.mapping.Keys && x !in Normalize(c.upstream.value))
            && (c.allowAuto && row.autoSync ==> row'.detected == [])
            && (!(c.allowAuto && row.autoSync) ==>
                  && row'.models == row.models
                  && (x in row'.detected
                      <==> (x in Normalize(c.upstream.value) && x !in Local(row.models)
                            && x !in c.mapping.Values && !IgnoredBy(x, Normalize(row.ignored), rx))))
  {
    FoundMember(row, c, rx, x);
    var (add, remove) := Found(row, c, rx);
    assert add == [] || |add| > 0;
  }

  /** With auto-sync the local names after a stored successful check are the old ones and the pieces of every upstream
      name that is not local, not a redirect target and not ignored. */
  lemma AutoSyncAdopts(row: Row, c: Check, rx: Matcher, x: string)
    requires !TooSoon(row, c) && c.upstream.Some? && c.persisted && c.allowAuto && row.autoSync
    ensures x in Local(CheckStep(row, c, rx).row.models)
            <==> x in Local(row.models)
                 || exists u :: u in Normalize(c.upstream.value) && u !in Local(row.models) && u !in c.mapping.Values
                                && !IgnoredBy(u, Normalize(row.ignored), rx) && x in Pieces(u)
  {
    var add := Adopted(row, c, rx);
    CheckAppendsPieces(row, c, rx);
    NewPiecesMember(Local(row.models), add, x);
    if a :| a in add && x in Pieces(a) { FoundMember(row, c, rx, a); }
    if u :| u in Normalize(c.upstream.value) && u !in Local(row.models) && u !in c.mapping.Values
            && !IgnoredBy(u, Normalize(row.ignored), rx) && x in Pieces(u) {
      FoundMember(row, c, rx, u);
    }
  }

  /** What an apply answers and stores about one name: it adds and ignores only pending additions, removes only pending
      removals that it does not add, and what it answers as remaining is what it stores as pending. */
  lemma ApplyStoresSelection(row: Row, s: Selection, now: int, x: string)
    ensures var r := ApplyStep(row, s, now);
            var adds := x in Normalize(s.add) && x in Normalize(row.detected);
            var ignores := x in Normalize(s.ignore) && x in Normalize(row.detected);
            var removes := x in Normalize(s.remove) && x in Normalize(row.removed) && !adds;
            && (x in r.added <==> adds) && (x in r.removed <==> removes)
            && (x in r.row.detected <==> x in Normalize(row.detected) && !adds && !ignores)
            && (x in r.row.removed <==> x in Normalize(row.removed) && !removes)
            && (x in r.row.ignored <==> (x in Normalize(row.ignored) || ignores) && !adds)
            && r.remaining == r.row.detected && r.remainingRemove == r.row.removed
            && r.row.lastCheck == now && r.row.autoSync == row.autoSync
            && (!r.modelsChanged ==> r.row.models == row.models)
  {
    NormalizeIsNormalized(row.detected);
    NormalizeIsNormalized(row.removed);
    var row' := row.(detected := Normalize(row.detected), removed := Normalize(row.removed));
    NormalizeFixed(row'.detected);
    NormalizeFixed(row'.removed);
    SameSelection(row, row', s);
    SelectedMember(row', s, x);
    NextIgnoredMember(row.ignored, SelectedAdd(row, s), SelectedIgnore(row, s), x);
    RemainingMember(row', s, now, x);
  }

  lemma SameSelection(row: Row, row': Row, s: Selection)
    requires row'.models == row.models && row'.ignored == row.ignored
    requires Normalize(row'.detected) == Normalize(row.detected) && Normalize(row'.removed) == Normalize(row.removed)
    ensures SelectedAdd(row', s) == SelectedAdd(row, s) && SelectedIgnore(row', s) == SelectedIgnore(row, s)
    ensures SelectedRemove(row', s) == SelectedRemove(row, s)
  {
  }

  // ---------------------------------------------------------------- convergence

  /** A check that runs, succeeds, is stored and only stages its findings. */
  predicate Detects(row: Row, c: Check) {
    !Skips(row, c) && c.upstream.Some? && c.persisted && !(c.allowAuto && row.autoSync)
  }

  /** Every upstream name that an ignore rule hides is hidden by a rule that is not itself being added. */
  predicate RulesSurvive(row: Row, c: Check, rx: Matcher)
    requires c.upstream.Some?
  {
    var add := Found(row, c, rx).0;
    forall u :: u in Normalize(c.upstream.value) && u !in Local(row.models) && u !in c.mapping.Values
                && IgnoredBy(u, Normalize(row.ignored), rx)
                ==> exists r :: r in Normalize(row.ignored) && r !in add && RuleMatches(r, u, rx)
  }

  function Everything(row: Row): Selection { Selection(row.detected, [], row.removed) }

  /** Detect, then apply everything that is pending. */
  function DetectAndApplyAll(row: Row, c: Check, rx: Matcher, now: int): Row {
    var row1 := CheckStep(row, c, rx).row;
    ApplyStep(row1, Everything(row1), now).row
  }

  lemma EverythingSelected(row: Row, x: string)
    requires Normalized(row.detected) && Normalized(row.removed) && Disjoint(row.detected, row.removed)
    ensures x in SelectedAdd(row, Everything(row)) <==> x in row.detected
    ensures x in SelectedRemove(row, Everything(row)) <==> x in row.removed
  {
    SelectedMember(row, Everything(row), x);
    NormalizeFixed(row.detected);
    NormalizeFixed(row.removed);
  }

  /** What the second detection looks at, name by name. */
  lemma AfterApplyAll(row: Row, c: Check, rx: Matcher, now: int, x: string)
    requires Detects(row, c)
    ensures var (add, remove) := Found(row, c, rx);
            var row2 := DetectAndApplyAll(row, c, rx, now);
            && (x in Local(row2.models)
                <==> (x in Local(row.models) && x !in remove) || exists a :: a in add && x in Pieces(a))
            && (x in Normalize(row2.ignored) <==> x in Normalize(row.ignored) && x !in add)
  {
    var (add, remove) := Found(row, c, rx);
    FoundIsConsistent(row, c, rx);
    var row1 := CheckStep(row, c, rx).row;
    assert row1.detected == add && row1.removed == remove && row1.models == row.models && row1.ignored == row.ignored;
    var s := Everything(row1);
    LocalAfterApply(row1, s, now, x);
    EverythingSelected(row1, x);
    if a :| a in add && x in Pieces(a) { EverythingSelected(row1, a); }
    if a :| a in SelectedAdd(row1, s) && x in Pieces(a) { EverythingSelected(row1, a); }
    NextIgnoredMember(row1.ignored, SelectedAdd(row1, s), SelectedIgnore(row1, s), x);
    SelectedMember(row1, s, x);
    assert Normalize([]) == [];
    NormalizeFixed(DetectAndApplyAll(row, c, rx, now).ignored);
  }

  lemma FoundMember(row: Row, c: Check, rx: Matcher, x: string)
    requires c.upstream.Some?
    ensures x in Found(row, c, rx).0
            <==> x in Normalize(c.upstream.value) && x !in Local(row.models) && x !in c.mapping.Values
                 && !IgnoredBy(x, Normalize(row.ignored), rx)
    ensures x in Found(row, c, rx).1
            <==> x in Local(row.models) && x !in c.mapping.Keys && x !in Normalize(c.upstream.value)
  {
    PendingAddMember(GetModels(row.models), c.upstream.value, row.ignored, c.mapping, rx, x);
    PendingRemoveMember(GetModels(row.models), c.upstream.value, c.mapping, x);
  }

  /** Which rules hide a name once everything has been applied. */
  lemma IgnoredAfterApplyAll(row: Row, c: Check, rx: Matcher, now: int, u: string)
    requires Detects(row, c)
    ensures IgnoredBy(u, Normalize(DetectAndApplyAll(row, c, rx, now).ignored), rx)
            <==> exists r :: r in Normalize(row.ignored) && r !in Found(row, c, rx).0 && RuleMatches(r, u, rx)
  {
    var rules2 := Normalize(DetectAndApplyAll(row, c, rx, now).ignored);
    if r :| r in rules2 && RuleMatches(r, u, rx) { AfterApplyAll(row, c, rx, now, r); }
    if r :| r in Normalize(row.ignored) && r !in Found(row, c, rx).0 && RuleMatches(r, u, rx) {
      AfterApplyAll(row, c, rx, now, r);
    }
  }

  lemma PieceOfPlainIsItself(a: string, x: string)
    requires Clean(a) && COMMA !in a
    ensures x in Pieces(a) <==> x == a
  {
    PiecesOfPlainName(a);
  }

  lemma NothingLeftToAdd(row: Row, c: Check, rx: Matcher, now: int, x: string)
    requires Detects(row, c) && CommaFree(Found(row, c, rx).0) && RulesSurvive(row, c, rx)
    ensures x !in Found(DetectAndApplyAll(row, c, rx, now), c, rx).0
  {
    var (add, remove) := Found(row, c, rx);
    FoundIsConsistent(row, c, rx);
    FoundMember(row, c, rx, x);
    FoundMember(DetectAndApplyAll(row, c, rx, now), c, rx, x);
    AfterApplyAll(row, c, rx, now, x);
    IgnoredAfterApplyAll(row, c, rx, now, x);
    if x in add { PieceOfPlainIsItself(x, x); }
  }

  lemma CommaNameStaysPending(row: Row, c: Check, rx: Matcher, now: int, a: string)
    requires Detects(row, c) && a in Found(row, c, rx).0 && COMMA in a
    ensures a in Found(DetectAndApplyAll(row, c, rx, now), c, rx).0
  {
    var row2 := DetectAndApplyAll(row, c, rx, now);
    FoundMember(row, c, rx, a);
    FoundMember(row2, c, rx, a);
    LocalCommaFree(row2.models);
    IgnoredAfterApplyAll(row, c, rx, now, a);
  }

  lemma LostRuleUncoversName(row: Row, c: Check, rx: Matcher, now: int)
    requires Detects(row, c) && CommaFree(Found(row, c, rx).0) && !RulesSurvive(row, c, rx)
    ensures Found(DetectAndApplyAll(row, c, rx, now), c, rx).0 != []
  {
    var add := Found(row, c, rx).0;
    var u :| u in Normalize(c.upstream.value) && u !in Local(row.models) && u !in c.mapping.Values
             && IgnoredBy(u, Normalize(row.ignored), rx)
             && !exists r :: r in Normalize(row.ignored) && r !in add && RuleMatches(r, u, rx);
    IgnoredAfterApplyAll(row, c, rx, now, u);
    AfterApplyAll(row, c, rx, now, u);
    FoundIsConsistent(row, c, rx);
    FoundMember(row, c, rx, u);
    FoundMember(DetectAndApplyAll(row, c, rx, now), c, rx, u);
    if a :| a in add && u in Pieces(a) { PieceOfPlainIsItself(a, u); }
  }

  /** Convergence of additions: after applying everything, the same upstream list has nothing to add
      exactly when no added name holds a comma and no needed ignore rule was spelled like an added name. */
  lemma ApplyAllConvergesOnAdditions(row: Row, c: Check, rx: Matcher, now: int)
    requires Detects(row, c)
    ensures Found(DetectAndApplyAll(row, c, rx, now), c, rx).0 == []
            <==> CommaFree(Found(row, c, rx).0) && RulesSurvive(row, c, rx)
  {
    var again := Found(DetectAndApplyAll(row, c, rx, now), c, rx).0;
    if CommaFree(Found(row, c, rx).0) {
      if RulesSurvive(row, c, rx) {
        forall x ensures x !in again { NothingLeftToAdd(row, c, rx, now, x); }
        EmptyOrMember(again);
      } else {
        LostRuleUncoversName(row, c, rx, now);
      }
    } else {
      var a :| a in Found(row, c, rx).0 && COMMA in a;
      CommaNameStaysPending(row, c, rx, now, a);
    }
  }

  /** Convergence of removals: nothing is left to remove exactly when every piece of an added name is
      an upstream name or a redirect source. */
  lemma ApplyAllConvergesOnRemovals(row: Row, c: Check, rx: Matcher, now: int)
    requires Detects(row, c)
    ensures Found(DetectAndApplyAll(row, c, rx, now), c, rx).1 == []
            <==> forall a, x :: a in Found(row, c, rx).0 && x in Pieces(a) ==>
                                  x in Normalize(c.upstream.value) || x in c.mapping.Keys
  {
    var again := Found(DetectAndApplyAll(row, c, rx, now), c, rx).1;
    forall x ensures x in again <==> (exists a :: a in Found(row, c, rx).0 && x in Pieces(a))
                                     && x !in Normalize(c.upstream.value) && x !in c.mapping.Keys {
      AfterApplyAll(row, c, rx, now, x);
      FoundMember(row, c, rx, x);
      FoundMember(DetectAndApplyAll(row, c, rx, now), c, rx, x);
    }
    EmptyOrMember(again);
  }

  /** Plain names converge on both sides, whatever the regular expressions match. */
  lemma ApplyAllConverges(row: Row, c: Check, rx: Matcher, now: int)
    requires Detects(row, c) && PlainUpstream(DoCheck(c))
    requires forall u :: u in Normalize(c.upstream.value) ==> !HasPrefix(u, REGEX_PREFIX)
    ensures Found(DetectAndApplyAll(row, c, rx, now), c, rx) == ([], [])
  {
    FoundIsConsistent(row, c, rx);
    var add := Found(row, c, rx).0;
    assert RulesSurvive(row, c, rx) by {
      forall u | u in Normalize(c.upstream.value) && u !in Local(row.models) && u !in c.mapping.Values
                 && IgnoredBy(u, Normalize(row.ignored), rx)
        ensures exists r :: r in Normalize(row.ignored) && r !in add && RuleMatches(r, u, rx)
      {
        var r :| r in Normalize(row.ignored) && RuleMatches(r, u, rx);
        FoundMember(row, c, rx, r);
        assert !HasPrefix(r, REGEX_PREFIX) ==> RuleMatches(r, r, rx);
      }
    }
    ApplyAllConvergesOnAdditions(row, c, rx, now);
    forall a, x | a in add && x in Pieces(a) ensures x in Normalize(c.upstream.value) {
      PieceOfPlainIsItself(a, x);
    }
    ApplyAllConvergesOnRemovals(row, c, rx, now);
  }

  /** Auto-sync: after adopting the additions, the same list has nothing to add exactly when none held a comma. */
  lemma AutoSyncConverges(row: Row, c: Check, rx: Matcher)
    requires !Skips(row, c) && c.upstream.Some? && c.persisted && c.allowAuto && row.autoSync
    ensures Found(CheckStep(row, c, rx).row, c, rx).0 == [] <==> CommaFree(Found(row, c, rx).0)
  {
    var add := Found(row, c, rx).0;
    var row1 := CheckStep(row, c, rx).row;
    var again := Found(row1, c, rx).0;
    FoundIsConsistent(row, c, rx);
    if add != [] {
      var origin := Local(row.models);
      MergedIsLonger(origin, add);
      assert row1.models == Join(origin + add, COMMA) && row1.ignored == row.ignored;
      if CommaFree(add) {
        LocalCommaFree(row.models);
        StoreRoundTrip(origin + add);
        forall x ensures x !in again { FoundMember(row, c, rx, x); FoundMember(row1, c, rx, x); }
        EmptyOrMember(again);
      } else {
        var a :| a in add && COMMA in a;
        LocalCommaFree(row1.models);
        FoundMember(row, c, rx, a);
        FoundMember(row1, c, rx, a);
      }
    }
  }

  // ---------------------------------------------------------------- two inputs that do not converge

  lemma CleanMember(list: seq<string>, x: string)
    requires x in list && Clean(x)
    ensures x in Normalize(list)
  {
    NormalizeMember(list, x);
  }

  /** An upstream name with a comma is pending again after it has been applied: `name` is "a,b", say. */
  lemma CommaNameExample(name: string, row: Row, c: Check, rx: Matcher, now: int)
    requires Clean(name) && COMMA in name
    requires row == Row("", [], [], [], 0, false)
    requires c == Check(1, 0, true, false, map[], Some([name]), true)
    ensures name in Found(row, c, rx).0 && name in Found(DetectAndApplyAll(row, c, rx, now), c, rx).0
  {
    CleanMember([name], name);
    assert Local(row.models) == [] && Normalize(row.ignored) == [];
    FoundMember(row, c, rx, name);
    CommaNameStaysPending(row, c, rx, now, name);
  }

  /** The only rule that hides `hidden` is being added, so it does not survive. */
  lemma OnlyRuleIsAdded(rule: string, hidden: string, row: Row, c: Check, rx: Matcher)
    requires c.upstream.Some? && Normalize(row.ignored) == [rule] && RuleMatches(rule, hidden, rx)
    requires hidden in Normalize(c.upstream.value) && hidden !in Local(row.models) && hidden !in c.mapping.Values
    ensures rule in Found(row, c, rx).0 ==> !RulesSurvive(row, c, rx)
    ensures hidden !in Found(row, c, rx).0
  {
    assert rule in [rule];
    FoundMember(row, c, rx, hidden);
  }

  lemma RuleIsFound(rule: string, row: Row, c: Check, rx: Matcher)
    requires c.upstream.Some? && Normalize(row.ignored) == [rule] && !RuleMatches(rule, rule, rx)
    requires rule in Normalize(c.upstream.value) && rule !in Local(row.models) && rule !in c.mapping.Values
    ensures rule in Found(row, c, rx).0
  {
    FoundMember(row, c, rx, rule);
  }

  /** An upstream name spelled like a regular-expression rule takes that rule away when it is added:
      `rule` is "regex:x" and `hidden` any name its pattern matches, say. */
  lemma RuleNameExample(rule: string, hidden: string, row: Row, c: Check, rx: Matcher, now: int)
    requires Clean(rule) && Clean(hidden) && hidden != rule && COMMA !in rule && COMMA !in hidden
    requires RuleMatches(rule, hidden, rx) && !RuleMatches(rule, rule, rx)
    requires Detects(row, c) && Local(row.models) == [] && row.ignored == [rule]
    requires c.upstream == Some([rule, hidden]) && c.mapping == map[]
    ensures hidden !in Found(row, c, rx).0 && Found(DetectAndApplyAll(row, c, rx, now), c, rx).0 != []
  {
    var upstream := [rule, hidden];
    assert Normalize(upstream) == upstream by { NormalizeFixed(upstream); }
    assert Normalize(row.ignored) == [rule] by { NormalizeFixed([rule]); }
    assert upstream[0] == rule && upstream[1] == hidden;
    RuleIsFound(rule, row, c, rx);
    OnlyRuleIsAdded(rule, hidden, row, c, rx);
    assert CommaFree(Found(row, c, rx).0) by { FoundIsConsistent(row, c, rx); }
    LostRuleUncoversName(row, c, rx, now);
  }
}
