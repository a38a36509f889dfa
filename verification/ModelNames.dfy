/** Ordered-set algebra over lists of model names (controller/channel_upstream_update.go, lines 93-143)
and the comma-separated form in which a channel stores them (model/channel.go, lines 307-312). */
module ModelNames {
  import opened Strings

  const COMMA := ','

  function Names(list: seq<string>): set<string> { set x | x in list }

  ghost predicate SameNames(a: seq<string>, b: seq<string>) { forall x :: x in a <==> x in b }

  lemma EmptyOrMember(list: seq<string>)
    ensures list == [] || exists x :: x in list
  {
    assert list != [] ==> list[0] in list;
  }

  predicate NoDup(list: seq<string>) {
    forall i, j :: 0 <= i < j < |list| ==> list[i] != list[j]
  }

  predicate Clean(x: string) { x != [] && TrimSpace(x) == x }

  /** Trimmed, non-empty and free of duplicates. */
  predicate Normalized(list: seq<string>) {
    NoDup(list) && forall x :: x in list ==> Clean(x)
  }

  predicate CommaFree(list: seq<string>) {
    forall x :: x in list ==> COMMA !in x
  }

  // ---------------------------------------------------------------- normalizeModelNames

  /** The entry trimmed, or nothing when that leaves it empty. */
  function Cleaned(x: string): seq<string> {
    var t := TrimSpace(x);
    if t != [] then [t] else []
  }

  function NonBlank(list: seq<string>): seq<string> {
    FlatMap(list, Cleaned)
  }

  function FlatMap<T>(list: seq<T>, f: T -> seq<T>): seq<T> {
    if list == [] then [] else f(list[0]) + FlatMap(list[1..], f)
  }

  lemma {:induction false} FlatMapConcat<T>(a: seq<T>, b: seq<T>, f: T -> seq<T>)
    ensures FlatMap(a + b, f) == FlatMap(a, f) + FlatMap(b, f)
  {
    if a == [] {
      assert a + b == b;
    } else {
      FlatMapConcat(a[1..], b, f);
      assert (a + b)[1..] == a[1..] + b;
    }
  }

  lemma {:induction false} FlatMapFixed<T>(list: seq<T>, f: T -> seq<T>)
    requires forall x :: x in list ==> f(x) == [x]
    ensures FlatMap(list, f) == list
  {
    if list != [] {
      FlatMapFixed(list[1..], f);
      assert list == [list[0]] + list[1..];
    }
  }

  lemma {:induction false} NonBlankClean(list: seq<string>)
    ensures forall x :: x in NonBlank(list) ==> Clean(x)
  {
    if list != [] {
      TrimIdempotent(list[0], IsSpace);
      NonBlankClean(list[1..]);
    }
  }

  /** `lo.Uniq`: keeps the first of equal elements. */
  function Uniq(list: seq<string>): seq<string> {
    if list == [] then []
    else
      var n := |list| - 1;
      var u := Uniq(list[..n]);
      if list[n] in u then u else u + [list[n]]
  }

  lemma {:induction false} InUniq(list: seq<string>, x: string)
    ensures x in Uniq(list) <==> x in list
  {
    if list != [] {
      var n := |list| - 1;
      InUniq(list[..n], x);
      assert list == list[..n] + [list[n]];
    }
  }

  lemma {:induction false} UniqNoDup(list: seq<string>)
    ensures NoDup(Uniq(list))
  {
    if list != [] { UniqNoDup(list[..|list| - 1]); }
  }

  function Normalize(list: seq<string>): seq<string> {
    Uniq(NonBlank(list))
  }

  lemma NormalizeIsNormalized(list: seq<string>)
    ensures Normalized(Normalize(list))
  {
    NonBlankClean(list);
    UniqNoDup(NonBlank(list));
    forall x ensures x in Normalize(list) ==> x in NonBlank(list) { InUniq(NonBlank(list), x); }
  }

  /** A name survives normalisation exactly when it is some entry, trimmed, and not blank. */
  lemma {:induction false} NonBlankMember(list: seq<string>, x: string)
    ensures x in NonBlank(list) <==> x != [] && exists y :: y in list && TrimSpace(y) == x
  {
    if list != [] {
      NonBlankMember(list[1..], x);
      if x != [] && exists y :: y in list && TrimSpace(y) == x {
        var y :| y in list && TrimSpace(y) == x;
        assert y == list[0] || y in list[1..];
      }
      if x in NonBlank(list[1..]) {
        var y :| y in list[1..] && TrimSpace(y) == x;
        assert y in list;
      }
    }
  }

  lemma NormalizeMember(list: seq<string>, x: string)
    ensures x in Normalize(list) <==> x != [] && exists y :: y in list && TrimSpace(y) == x
  {
    NonBlankMember(list, x);
    InUniq(NonBlank(list), x);
  }

  lemma NonBlankConcat(a: seq<string>, b: seq<string>)
    ensures NonBlank(a + b) == NonBlank(a) + NonBlank(b)
  {
    FlatMapConcat(a, b, Cleaned);
  }

  lemma NonBlankFixed(list: seq<string>)
    requires forall x :: x in list ==> Clean(x)
    ensures NonBlank(list) == list
  {
    assert forall x :: x in list ==> Cleaned(x) == [x];
    FlatMapFixed(list, Cleaned);
  }

  lemma NormalizeConcatMember(a: seq<string>, b: seq<string>, x: string)
    ensures x in Normalize(a + b) <==> x in Normalize(a) || x in Normalize(b)
  {
    NonBlankConcat(a, b);
    InUniq(NonBlank(a + b), x);
    InUniq(NonBlank(a), x);
    InUniq(NonBlank(b), x);
  }

  lemma {:induction false} UniqFixed(list: seq<string>)
    requires NoDup(list)
    ensures Uniq(list) == list
  {
    if list != [] {
      var n := |list| - 1;
      UniqFixed(list[..n]);
      assert list == list[..n] + [list[n]];
    }
  }

  /** Normalising is idempotent: it changes exactly the lists that are not normalised. */
  lemma NormalizeFixed(list: seq<string>)
    ensures Normalize(list) == list <==> Normalized(list)
  {
    NormalizeIsNormalized(list);
    if Normalized(list) {
      NonBlankFixed(list);
      UniqFixed(list);
    }
  }

  // ---------------------------------------------------------------- filters

  function Filter(list: seq<string>, keep: string -> bool): (r: seq<string>)
    ensures forall x :: x in r <==> x in list && keep(x)
  {
    if list == [] then []
    else
      var n := |list| - 1;
      assert list == list[..n] + [list[n]];
      Filter(list[..n], keep) + if keep(list[n]) then [list[n]] else []
  }

  lemma {:induction false} FilterNoDup(list: seq<string>, keep: string -> bool)
    requires NoDup(list)
    ensures NoDup(Filter(list, keep))
    ensures (forall x :: x in list ==> keep(x)) ==> Filter(list, keep) == list
  {
    if list != [] {
      var n := |list| - 1;
      assert list == list[..n] + [list[n]];
      FilterNoDup(list[..n], keep);
      assert list[n] !in Filter(list[..n], keep);
    }
  }

  lemma FilterNormalized(list: seq<string>, keep: string -> bool)
    requires Normalized(list)
    ensures Normalized(Filter(list, keep))
    ensures (forall x :: x in list ==> keep(x)) ==> Filter(list, keep) == list
  {
    FilterNoDup(list, keep);
  }

  // ---------------------------------------------------------------- merge, subtract, intersect

  lemma {:induction false} UniqAppend(a: seq<string>, b: seq<string>, n: nat)
    requires n < |b|
    ensures Uniq(a + b[..n + 1]) == Uniq(a + b[..n]) + if b[n] in Uniq(a + b[..n]) then [] else [b[n]]
  {
    var s := a + b[..n + 1];
    assert s[..|s| - 1] == a + b[..n] && s[|s| - 1] == b[n];
  }

  lemma {:induction false} UniqPrefixed(a: seq<string>, b: seq<string>)
    ensures Uniq(Uniq(a) + b) == Uniq(a + b)
  {
    if b == [] {
      assert a + b == a && Uniq(a) + b == Uniq(a);
      UniqNoDup(a);
      UniqFixed(Uniq(a));
    } else {
      var n := |b| - 1;
      UniqPrefixed(a, b[..n]);
      assert b[..n + 1] == b;
      UniqAppend(a, b, n);
      UniqAppend(Uniq(a), b, n);
    }
  }

  lemma UniqSnoc(list: seq<string>, x: string)
    ensures Uniq(list + [x]) == if x in list then Uniq(list) else Uniq(list) + [x]
  {
    assert (list + [x])[..|list|] == list;
    InUniq(list, x);
  }

  lemma {:induction false} UniqSuffixed(a: seq<string>, b: seq<string>)
    ensures Uniq(a + Uniq(b)) == Uniq(a + b)
  {
    if b != [] {
      var n := |b| - 1;
      var c, x := b[..n], b[n];
      UniqSuffixed(a, c);
      assert b == c + [x];
      UniqSnoc(c, x);
      InUniq(c, x);
      UniqSuffixedStep(a, c, Uniq(c), x);
    }
  }

  lemma UniqSuffixedStep(a: seq<string>, c: seq<string>, u: seq<string>, x: string)
    requires Uniq(a + u) == Uniq(a + c) && (x in u <==> x in c)
    ensures Uniq(a + if x in c then u else u + [x]) == Uniq(a + (c + [x]))
  {
    assert a + (c + [x]) == (a + c) + [x];
    UniqSnoc(a + c, x);
    if x !in c {
      assert a + (u + [x]) == (a + u) + [x];
      UniqSnoc(a + u, x);
    }
  }

  /** What merging means: append, then keep the first occurrence of every trimmed name. */
  function Merge(base: seq<string>, appended: seq<string>): (r: seq<string>)
    ensures Normalized(r)
  {
    NormalizeIsNormalized(base + appended);
    Normalize(base + appended)
  }

  lemma MergeIsUniq(base: seq<string>, appended: seq<string>)
    ensures Uniq(Normalize(base) + Normalize(appended)) == Merge(base, appended)
  {
    UniqPrefixed(NonBlank(base), Normalize(appended));
    UniqSuffixed(NonBlank(base), NonBlank(appended));
    NonBlankConcat(base, appended);
  }

  lemma MergeStep(first: seq<string>, more: seq<string>, i: nat, merged: seq<string>)
    requires i < |more| && merged == Uniq(first + more[..i])
    ensures Uniq(first + more[..i + 1]) == if more[i] in Names(merged) then merged else merged + [more[i]]
    ensures Names(merged + [more[i]]) == Names(merged) + {more[i]}
  {
    UniqAppend(first, more, i);
  }

  /** `mergeModelNames`, with its loop over a growing `seen` set. */
  method MergeModelNames(base: seq<string>, appended: seq<string>) returns (merged: seq<string>)
    ensures merged == Merge(base, appended)
  {
    var first, more := Normalize(base), Normalize(appended);
    merged := first;
    var seen := Names(merged);
    assert merged == Uniq(first + more[..0]) by {
      UniqNoDup(NonBlank(base));
      UniqFixed(first);
      assert first + more[..0] == first;
    }
    var i := 0;
    while i < |more|
      invariant 0 <= i <= |more|
      invariant merged == Uniq(first + more[..i])
      invariant seen == Names(merged)
    {
      MergeStep(first, more, i, merged);
      if more[i] !in seen {
        seen := seen + {more[i]};
        merged := merged + [more[i]];
      }
      i := i + 1;
    }
    assert more[..i] == more;
    MergeIsUniq(base, appended);
  }

  function Subtract(base: seq<string>, removed: seq<string>): (r: seq<string>)
    ensures Normalized(r)
  {
    var gone := Normalize(removed);
    var b := Normalize(base);
    NormalizeIsNormalized(base);
    FilterNormalized(b, x => x !in gone);
    Filter(b, x => x !in gone)
  }

  function Intersect(base: seq<string>, allowed: seq<string>): (r: seq<string>)
    ensures Normalized(r)
  {
    var ok := Normalize(allowed);
    var b := Normalize(base);
    NormalizeIsNormalized(base);
    FilterNormalized(b, x => x in ok);
    Filter(b, x => x in ok)
  }

  function ApplySelected(origin: seq<string>, add: seq<string>, remove: seq<string>): (r: seq<string>)
    ensures Normalized(r)
  {
    var a := Normalize(add);
    Subtract(Merge(origin, a), Subtract(Normalize(remove), a))
  }

  lemma MergeMember(a: seq<string>, b: seq<string>, x: string)
    requires Normalized(a) && Normalized(b)
    ensures x in Merge(a, b) <==> x in a || x in b
  {
    NormalizeConcatMember(a, b, x);
    NormalizeFixed(a);
    NormalizeFixed(b);
  }

  /** On normalised lists the operations are union, difference and intersection. */
  lemma MergeNames(a: seq<string>, b: seq<string>)
    requires Normalized(a) && Normalized(b)
    ensures Names(Merge(a, b)) == Names(a) + Names(b)
    ensures forall x :: x in Merge(a, b) <==> x in a || x in b
    ensures Merge(a, b) == a <==> Names(b) <= Names(a)
  {
    forall x ensures x in Merge(a, b) <==> x in a || x in b { MergeMember(a, b, x); }
    if Names(b) <= Names(a) {
      UniqAbsorbs(a, b);
      NonBlankConcat(a, b);
      NonBlankFixed(a);
      NonBlankFixed(b);
    }
    if Merge(a, b) == a {
      assert forall x :: x in b ==> x in a;
    }
  }

  lemma {:induction false} UniqAbsorbs(a: seq<string>, b: seq<string>)
    requires NoDup(a) && Names(b) <= Names(a)
    ensures Uniq(a + b) == a
  {
    if b == [] {
      assert a + b == a;
      UniqFixed(a);
    } else {
      var n := |b| - 1;
      assert b[..n + 1] == b && b[n] in Names(b);
      assert Names(b[..n]) <= Names(b);
      UniqAbsorbs(a, b[..n]);
      UniqAppend(a, b, n);
    }
  }

  lemma SubtractMember(a: seq<string>, b: seq<string>, x: string)
    requires Normalized(a) && Normalized(b)
    ensures x in Subtract(a, b) <==> x in a && x !in b
  {
    NormalizeFixed(a);
    NormalizeFixed(b);
  }

  lemma IntersectMember(base: seq<string>, allowed: seq<string>, x: string)
    requires Normalized(allowed)
    ensures x in Intersect(base, allowed) <==> x in Normalize(base) && x in allowed
  {
    NormalizeFixed(allowed);
  }

  /** Selected additions win over selected removals. */
  lemma ApplySelectedMember(origin: seq<string>, add: seq<string>, remove: seq<string>, x: string)
    requires Normalized(origin) && Normalized(add) && Normalized(remove)
    ensures x in ApplySelected(origin, add, remove) <==> x in add || (x in origin && x !in remove)
  {
    NormalizeFixed(add);
    NormalizeFixed(remove);
    MergeNames(origin, add);
    SubtractMember(remove, add, x);
    SubtractMember(Merge(origin, add), Subtract(remove, add), x);
  }

  /** The list changes exactly when its set of names does. */
  lemma ApplySelectedUnchanged(origin: seq<string>, add: seq<string>, remove: seq<string>)
    requires Normalized(origin) && Normalized(add) && Normalized(remove)
    ensures ApplySelected(origin, add, remove) == origin <==> SameNames(ApplySelected(origin, add, remove), origin)
  {
    var next := ApplySelected(origin, add, remove);
    if SameNames(next, origin) {
      forall x ensures x in add ==> x in origin { ApplySelectedMember(origin, add, remove, x); }
      forall x ensures x in origin && x in remove ==> x in add { ApplySelectedMember(origin, add, remove, x); }
      NormalizeFixed(add);
      NormalizeFixed(remove);
      NormalizeFixed(origin);
      MergeNames(origin, add);
      assert Merge(origin, add) == origin;
      var gone := Subtract(remove, add);
      forall x | x in origin ensures x !in gone { SubtractMember(remove, add, x); }
      NormalizeFixed(gone);
      FilterNormalized(origin, x => x !in gone);
    }
  }

  // ---------------------------------------------------------------- the stored form

  /** `channel.GetModels()`. */
  function GetModels(models: string): seq<string> {
    if models == [] then [] else Split(TrimSep(models, COMMA), COMMA)
  }

  /** The names a stored string stands for. */
  function Local(models: string): (r: seq<string>)
    ensures Normalized(r)
  {
    NormalizeIsNormalized(GetModels(models));
    Normalize(GetModels(models))
  }

  lemma BlankField()
    ensures NonBlank([[]]) == []
  {
    assert Cleaned([]) == [];
  }

  lemma {:induction false} TrimLeftKeepsFields(s: string)
    ensures NonBlank(Split(TrimLeft(s, Is(COMMA)), COMMA)) == NonBlank(Split(s, COMMA))
  {
    if s != [] && s[0] == COMMA {
      TrimLeftKeepsFields(s[1..]);
      NonBlankConcat([[]], Split(s[1..], COMMA));
      BlankField();
    }
  }

  lemma TrailingCommaKeepsFields(t: string)
    ensures NonBlank(Split(t + [COMMA], COMMA)) == NonBlank(Split(t, COMMA))
  {
    assert t + [COMMA] == t + [COMMA] + [];
    SplitAtSeparator(t, [], COMMA);
    NonBlankConcat(Split(t, COMMA), [[]]);
    BlankField();
  }

  function Fields(s: string): seq<string> { NonBlank(Split(s, COMMA)) }

  lemma {:induction false} TrimRightKeepsFields(s: string)
    ensures Fields(TrimRight(s, Is(COMMA))) == Fields(s)
  {
    if s != [] && s[|s| - 1] == COMMA {
      var t := s[..|s| - 1];
      assert s == t + [COMMA];
      calc {
        Fields(TrimRight(s, Is(COMMA)));
        { assert TrimRight(s, Is(COMMA)) == TrimRight(t, Is(COMMA)); }
        Fields(TrimRight(t, Is(COMMA)));
        { TrimRightKeepsFields(t); }
        Fields(t);
        { TrailingCommaKeepsFields(t); }
        Fields(s);
      }
    } else {
      assert TrimRight(s, Is(COMMA)) == s;
    }
  }

  /** Trimming commas only ever drops blank fields. */
  lemma LocalIsSplit(models: string)
    ensures Local(models) == Normalize(Split(models, COMMA))
  {
    if models == [] {
      BlankField();
    } else {
      TrimLeftKeepsFields(models);
      TrimRightKeepsFields(TrimLeft(models, Is(COMMA)));
    }
  }

  /** The names that `name` turns into once stored in the comma-separated form. */
  function Pieces(name: string): seq<string> { Normalize(Split(name, COMMA)) }

  lemma PiecesOfPlainName(name: string)
    requires COMMA !in name && name != [] && TrimSpace(name) == name
    ensures Pieces(name) == [name]
  {
    SplitWithoutSeparator(name, COMMA);
    assert Normalized([name]);
    NormalizeFixed([name]);
  }

  /** A name with a comma is never among the names read back. */
  lemma FieldsTrimmedCommaFree(s: string)
    requires COMMA !in s
    ensures COMMA !in TrimSpace(s)
  {
    TrimmedMembers(s, COMMA);
  }

  lemma LocalCommaFree(models: string)
    ensures CommaFree(Local(models))
  {
    forall x | x in Local(models) ensures COMMA !in x {
      LocalIsSplit(models);
      NormalizeMember(Split(models, COMMA), x);
      var y :| y in Split(models, COMMA) && TrimSpace(y) == x;
      SplitFields(models, COMMA, y);
      FieldsTrimmedCommaFree(y);
    }
  }

  /** The pieces of a joined list are the pieces of its names. */
  lemma PiecesOfList(list: seq<string>, x: string)
    ensures x in Normalize(SplitEach(list, COMMA)) <==> exists n :: n in list && x in Pieces(n)
  {
    var fields := SplitEach(list, COMMA);
    NormalizeMember(fields, x);
    if x in Normalize(fields) {
      var y :| y in fields && TrimSpace(y) == x;
      SplitEachMember(list, COMMA, y);
      var n :| n in list && y in Split(n, COMMA);
      NormalizeMember(Split(n, COMMA), x);
      assert x in Pieces(n);
    }
    if n :| n in list && x in Pieces(n) {
      NormalizeMember(Split(n, COMMA), x);
      var y :| y in Split(n, COMMA) && TrimSpace(y) == x;
      SplitEachMember(list, COMMA, y);
    }
  }

  lemma StoredFields(list: seq<string>)
    ensures Local(Join(list, COMMA)) == Normalize(SplitEach(list, COMMA))
  {
    LocalIsSplit(Join(list, COMMA));
    if list == [] {
      BlankField();
    } else {
      SplitJoin(list, COMMA);
    }
  }

  /** Storing a list and reading it back yields the pieces of its names. */
  lemma StoredNames(list: seq<string>, x: string)
    ensures x in Local(Join(list, COMMA)) <==> exists n :: n in list && x in Pieces(n)
  {
    StoredFields(list);
    PiecesOfList(list, x);
  }

  /** Round trip: a normalised list is read back unchanged exactly when no name holds a comma. */
  lemma StoreRoundTrip(list: seq<string>)
    requires Normalized(list)
    ensures Local(Join(list, COMMA)) == list <==> CommaFree(list)
  {
    LocalCommaFree(Join(list, COMMA));
    if CommaFree(list) {
      StoredFields(list);
      SplitEachPlain(list, COMMA);
      NormalizeFixed(list);
    }
  }

  lemma {:induction false} UniqConcat(a: seq<string>, b: seq<string>, fresh_: string -> bool)
    requires NoDup(a) && NoDup(b) && forall x :: x in b ==> (fresh_(x) <==> x !in a)
    ensures Uniq(a + b) == a + Filter(b, fresh_)
  {
    if b == [] {
      assert a + b == a;
      UniqFixed(a);
    } else {
      var n := |b| - 1;
      assert b == b[..n] + [b[n]] && b[n] !in b[..n];
      UniqConcat(a, b[..n], fresh_);
      assert a + b == (a + b[..n]) + [b[n]];
      UniqSnoc(a + b[..n], b[n]);
      Associate(a, Filter(b[..n], fresh_), if fresh_(b[n]) then [b[n]] else []);
    }
  }

  /** The names that adding `add` to `origin` brings, once stored and read back. */
  function NewPieces(origin: seq<string>, add: seq<string>): seq<string> {
    Subtract(SplitEach(add, COMMA), origin)
  }

  lemma NewPiecesMember(origin: seq<string>, add: seq<string>, x: string)
    requires Normalized(origin)
    ensures x in NewPieces(origin, add) <==> x !in origin && exists a :: a in add && x in Pieces(a)
  {
    NormalizeFixed(origin);
    PiecesOfList(add, x);
  }

  /** Storing `origin` with names added, whatever they hold: reading back appends exactly the new pieces. */
  lemma StoredAfterAdding(origin: seq<string>, add: seq<string>)
    requires Normalized(origin) && CommaFree(origin)
    ensures Local(Join(origin + add, COMMA)) == origin + NewPieces(origin, add)
  {
    var fields := SplitEach(add, COMMA);
    StoredFields(origin + add);
    SplitEachConcat(origin, add, COMMA);
    SplitEachPlain(origin, COMMA);
    MergeIsUniq(origin, fields);
    NormalizeFixed(origin);
    NormalizeIsNormalized(fields);
    UniqConcat(origin, Normalize(fields), x => x !in origin);
  }
}
