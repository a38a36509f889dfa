/** How a channel's key text stands for a list of keys (model/channel.go, lines 193-215 and 557-572):
one key per line, or a JSON array. The JSON parser is a parameter. */
module KeyText {
  import opened Options
  import opened Strings

  const NEWLINE := '\n'

  /** Parses a JSON array into the texts of its elements. */
  type Json = string -> Option<seq<string>>

  predicate LooksLikeArray(key: string) { HasPrefix(TrimSpace(key), "[") }

  function Lines(key: string): seq<string> { Split(TrimSep(key, NEWLINE), NEWLINE) }

  /** `channel.GetKeys()`. */
  function GetKeys(key: string, json: Json): seq<string> {
    if key == [] then []
    else if LooksLikeArray(key) && json(TrimSpace(key)).Some? then json(TrimSpace(key)).value
    else Lines(key)
  }

  /** The list whose length `channel.Update()` stores; an empty array falls back to lines. */
  function CountedKeys(key: string, json: Json): seq<string> {
    if key == [] then []
    else if LooksLikeArray(key) && json(TrimSpace(key)).Some? && json(TrimSpace(key)).value != [] then json(TrimSpace(key)).value
    else Lines(key)
  }

  // ---------------------------------------------------------------- plain keys

  /** The first character that is not white space. */
  function FirstVisible(s: string): Option<char> {
    if s == [] then None else if IsSpace(s[0]) then FirstVisible(s[1..]) else Some(s[0])
  }

  lemma {:induction false} FirstVisibleIsTrimmedHead(s: string)
    ensures FirstVisible(s) == if TrimLeft(s, IsSpace) == [] then None else Some(TrimLeft(s, IsSpace)[0])
  {
    if s != [] { FirstVisibleIsTrimmedHead(s[1..]); }
  }

  lemma ArrayIffBracketFirst(s: string)
    ensures LooksLikeArray(s) <==> FirstVisible(s) == Some('[')
  {
    FirstVisibleIsTrimmedHead(s);
    var l := TrimLeft(s, IsSpace);
    var t := TrimRight(l, IsSpace);
    TrimLeftFacts(s, IsSpace);
    TrimRightFacts(l, IsSpace);
    if l != [] {
      assert t != [] ==> t[0] == l[0];
      assert !IsSpace(l[0]);
      assert t != [];
    }
  }

  lemma {:induction false} FirstVisibleConcat(a: string, b: string)
    ensures FirstVisible(a + b) == if FirstVisible(a).Some? then FirstVisible(a) else FirstVisible(b)
  {
    if a == [] {
      assert a + b == b;
    } else {
      FirstVisibleConcat(a[1..], b);
      assert (a + b)[1..] == a[1..] + b;
    }
  }

  /** Keys that no text built from them can turn into a JSON array. */
  predicate Plain(keys: seq<string>) {
    forall k :: k in keys ==> FirstVisible(k) != Some('[')
  }

  lemma {:induction false} JoinStaysPlain(keys: seq<string>)
    requires Plain(keys)
    ensures FirstVisible(Join(keys, NEWLINE)) != Some('[')
  {
    if keys != [] {
      assert keys[0] in keys;
      if |keys| > 1 {
        var rest := Join(keys[1..], NEWLINE);
        JoinStaysPlain(keys[1..]);
        FirstVisibleConcat(keys[0] + [NEWLINE], rest);
        FirstVisibleConcat(keys[0], [NEWLINE]);
        assert IsSpace(NEWLINE);
        assert FirstVisible([NEWLINE]) == None;
      }
    }
  }

  predicate OneLine(keys: seq<string>) { forall k :: k in keys ==> NEWLINE !in k }

  // ---------------------------------------------------------------- reading joined keys back

  function DropLeft(keys: seq<string>): seq<string> {
    if keys != [] && keys[0] == [] then DropLeft(keys[1..]) else keys
  }

  function DropRight(keys: seq<string>): seq<string> {
    if keys != [] && keys[|keys| - 1] == [] then DropRight(keys[..|keys| - 1]) else keys
  }

  /** What joined keys are read back as: without the blank ones at either end, or as one blank key. */
  function ReadBack(keys: seq<string>): seq<string> {
    var t := DropRight(DropLeft(keys));
    if t == [] then [[]] else t
  }

  lemma {:induction false} DropLeftFacts(keys: seq<string>)
    ensures var r := DropLeft(keys); |r| <= |keys| && r == keys[|keys| - |r|..] && (r != [] ==> r[0] != [])
    ensures DropLeft(keys) == keys <==> keys == [] || keys[0] != []
  {
    if keys != [] && keys[0] == [] { DropLeftFacts(keys[1..]); }
  }

  lemma {:induction false} DropRightFacts(keys: seq<string>)
    ensures var r := DropRight(keys); |r| <= |keys| && r == keys[..|r|] && (r != [] ==> r[|r| - 1] != [])
    ensures DropRight(keys) == keys <==> keys == [] || keys[|keys| - 1] != []
  {
    if keys != [] && keys[|keys| - 1] == [] { DropRightFacts(keys[..|keys| - 1]); }
  }

  lemma {:induction false} TrimLeftOfJoin(keys: seq<string>)
    requires OneLine(keys)
    ensures TrimLeft(Join(keys, NEWLINE), Is(NEWLINE)) == Join(DropLeft(keys), NEWLINE)
  {
    if keys != [] {
      if keys[0] != [] {
        JoinEnds(keys, NEWLINE);
      } else if |keys| > 1 {
        TrimLeftOfJoin(keys[1..]);
        assert ([] + [NEWLINE] + Join(keys[1..], NEWLINE))[1..] == Join(keys[1..], NEWLINE);
      }
    }
  }

  lemma {:induction false} TrimRightOfJoin(keys: seq<string>)
    requires OneLine(keys)
    ensures TrimRight(Join(keys, NEWLINE), Is(NEWLINE)) == Join(DropRight(keys), NEWLINE)
  {
    if keys != [] {
      var n := |keys| - 1;
      if keys[n] != [] {
        JoinEnds(keys, NEWLINE);
      } else if n > 0 {
        TrimRightOfJoin(keys[..n]);
        assert keys == keys[..n] + [[]];
        JoinConcat(keys[..n], [[]], NEWLINE);
        TrimRightLast(Join(keys[..n], NEWLINE));
      }
    }
  }

  lemma TrimRightLast(s: string)
    ensures TrimRight(s + [NEWLINE] + [], Is(NEWLINE)) == TrimRight(s, Is(NEWLINE))
  {
    var t := s + [NEWLINE] + [];
    assert t[..|t| - 1] == s && t[|t| - 1] == NEWLINE;
  }

  lemma LinesOfOneLiners(keys: seq<string>)
    requires OneLine(keys)
    ensures Lines(Join(keys, NEWLINE)) == ReadBack(keys)
  {
    var l := DropLeft(keys);
    var t := DropRight(l);
    TrimLeftOfJoin(keys);
    DropLeftFacts(keys);
    TrimRightOfJoin(l);
    DropRightFacts(l);
    if t != [] {
      SplitJoin(t, NEWLINE);
      SplitEachPlain(t, NEWLINE);
    }
  }

  /** The lines of joined keys, whatever the keys hold: each key falls apart at its newlines, and what is blank at either
      end is lost. */
  lemma LinesOfJoin(keys: seq<string>)
    ensures Lines(Join(keys, NEWLINE)) == ReadBack(SplitEach(keys, NEWLINE))
  {
    var fields := SplitEach(keys, NEWLINE);
    JoinSplitEach(keys, NEWLINE);
    forall k | k in fields ensures NEWLINE !in k {
      SplitEachMember(keys, NEWLINE, k);
      var p :| p in keys && k in Split(p, NEWLINE);
      SplitFields(p, NEWLINE, k);
    }
    LinesOfOneLiners(fields);
  }

  /** Joined keys are read back exactly when neither the first nor the last is blank, or one blank key is all there is. */
  lemma ReadBackIff(keys: seq<string>)
    requires keys != []
    ensures ReadBack(keys) == keys <==> keys == [[]] || (keys[0] != [] && keys[|keys| - 1] != [])
    ensures 0 < |ReadBack(keys)| <= |keys|
    ensures forall k :: k in ReadBack(keys) ==> k in keys || k == []
  {
    DropLeftFacts(keys);
    DropRightFacts(DropLeft(keys));
    if ReadBack(keys) == keys && keys != [[]] {
      assert |DropRight(DropLeft(keys))| == |keys|;
      assert DropLeft(keys) == keys;
    }
  }

  lemma BlankThenKey(keys: seq<string>)
    requires |keys| == 2 && keys[0] == [] && keys[1] != []
    ensures ReadBack(keys) == keys[1..]
  {
    var rest := keys[1..];
    assert rest[0] == keys[1] && rest[|rest| - 1] == keys[1];
    assert DropLeft(keys) == DropLeft(rest) == rest && DropRight(rest) == rest;
  }

  lemma {:induction false} JoinIsEmptyIff(keys: seq<string>)
    ensures Join(keys, NEWLINE) == [] <==> keys == [] || keys == [[]]
  {
  }

  lemma LinesOneLine(key: string)
    ensures Lines(key) != [] && OneLine(Lines(key))
  {
    forall k | k in Lines(key) ensures NEWLINE !in k { SplitFields(TrimSep(key, NEWLINE), NEWLINE, k); }
  }

  /** The ends of the lines of a text are not blank, unless it holds nothing but newlines. */
  lemma LinesEnds(key: string)
    ensures TrimSep(key, NEWLINE) == [] ==> Lines(key) == [[]]
    ensures TrimSep(key, NEWLINE) != [] ==> Lines(key)[0] != [] && Lines(key)[|Lines(key)| - 1] != []
  {
    var l := TrimLeft(key, Is(NEWLINE));
    TrimLeftFacts(key, Is(NEWLINE));
    TrimRightFacts(l, Is(NEWLINE));
    if TrimSep(key, NEWLINE) != [] {
      assert TrimSep(key, NEWLINE)[0] == l[0];
      SplitEnds(TrimSep(key, NEWLINE), NEWLINE);
    }
  }

  // ---------------------------------------------------------------- joined keys as the channel reads them

  /** The text is read as an array. */
  predicate IsArray(key: string, json: Json) { LooksLikeArray(key) && json(TrimSpace(key)).Some? }

  /** The keys that joined keys are read back as. */
  function KeysOf(keys: seq<string>, json: Json): seq<string> {
    var text := Join(keys, NEWLINE);
    if IsArray(text, json) then json(TrimSpace(text)).value else ReadBack(SplitEach(keys, NEWLINE))
  }

  /** The number of keys that is stored for them. */
  function CountOf(keys: seq<string>, json: Json): nat {
    var text := Join(keys, NEWLINE);
    if IsArray(text, json) && json(TrimSpace(text)).value != [] then |json(TrimSpace(text)).value|
    else |ReadBack(SplitEach(keys, NEWLINE))|
  }

  lemma JoinedKeysRead(keys: seq<string>, json: Json)
    requires Join(keys, NEWLINE) != []
    ensures GetKeys(Join(keys, NEWLINE), json) == KeysOf(keys, json)
    ensures |CountedKeys(Join(keys, NEWLINE), json)| == CountOf(keys, json)
  {
    LinesOfJoin(keys);
  }

  /** Neither the first nor the last key is blank. */
  predicate FilledEnds(keys: seq<string>) { keys != [] && keys[0] != [] && keys[|keys| - 1] != [] }

  /** What joining these keys yields is read back as the same keys: as an array that lists them, or line by line. */
  predicate ReadBackWhole(keys: seq<string>, json: Json) {
    var text := Join(keys, NEWLINE);
    text != [] && if IsArray(text, json) then json(TrimSpace(text)).value == keys else OneLine(keys) && FilledEnds(keys)
  }

  lemma OneLineReadBackIff(keys: seq<string>)
    requires Join(keys, NEWLINE) != []
    ensures ReadBack(SplitEach(keys, NEWLINE)) == keys <==> OneLine(keys) && FilledEnds(keys)
  {
    JoinIsEmptyIff(keys);
    LinesOfJoin(keys);
    LinesOneLine(Join(keys, NEWLINE));
    if OneLine(keys) {
      SplitEachPlain(keys, NEWLINE);
      ReadBackIff(keys);
    }
  }

  lemma ReadBackWholeIff(keys: seq<string>, json: Json)
    requires Join(keys, NEWLINE) != []
    ensures KeysOf(keys, json) == keys <==> ReadBackWhole(keys, json)
    ensures ReadBackWhole(keys, json) ==> CountOf(keys, json) == |keys|
  {
    OneLineReadBackIff(keys);
    JoinIsEmptyIff(keys);
  }

  /** Plain keys are read back line by line. */
  lemma PlainReadBackWholeIff(keys: seq<string>, json: Json)
    requires OneLine(keys) && Plain(keys)
    ensures !LooksLikeArray(Join(keys, NEWLINE))
    ensures KeysOf(keys, json) == ReadBack(keys) && CountOf(keys, json) == |ReadBack(keys)|
    ensures ReadBackWhole(keys, json) <==> FilledEnds(keys)
  {
    JoinStaysPlain(keys);
    ArrayIffBracketFirst(Join(keys, NEWLINE));
    SplitEachPlain(keys, NEWLINE);
    JoinIsEmptyIff(keys);
  }
}
