/** The string operations the modelled code takes from its standard library: trimming, splitting on
a separator character and joining with it. */
module Strings {

  /** White space as the Unicode property defines it (`strings.TrimSpace`). */
  predicate IsSpace(c: char) {
    var n := c as int;
    || 9 <= n <= 13 || n == 32 || n == 0x85 || n == 0xA0 || n == 0x1680
    || 0x2000 <= n <= 0x200A || n == 0x2028 || n == 0x2029 || n == 0x202F || n == 0x205F || n == 0x3000
  }

  function TrimLeft(s: string, cut: char -> bool): string {
    if s == [] then [] else if cut(s[0]) then TrimLeft(s[1..], cut) else s
  }

  function TrimRight(s: string, cut: char -> bool): string {
    if s == [] then [] else if cut(s[|s| - 1]) then TrimRight(s[..|s| - 1], cut) else s
  }

  lemma {:induction false} TrimLeftFacts(s: string, cut: char -> bool)
    ensures var r := TrimLeft(s, cut);
            |r| <= |s| && r == s[|s| - |r|..] && (r != [] ==> !cut(r[0]))
  {
    if s != [] && cut(s[0]) { TrimLeftFacts(s[1..], cut); }
  }

  lemma {:induction false} TrimRightFacts(s: string, cut: char -> bool)
    ensures var r := TrimRight(s, cut);
            |r| <= |s| && r == s[..|r|] && (r != [] ==> !cut(r[|r| - 1])) && (r == [] ==> forall i :: 0 <= i < |s| ==> cut(s[i]))
  {
    if s != [] && cut(s[|s| - 1]) { TrimRightFacts(s[..|s| - 1], cut); }
  }

  function Trim(s: string, cut: char -> bool): string {
    TrimRight(TrimLeft(s, cut), cut)
  }

  function TrimSpace(s: string): string { Trim(s, IsSpace) }

  /** `strings.Trim(s, string(sep))`. */
  function TrimSep(s: string, sep: char): string { Trim(s, Is(sep)) }

  function Is(sep: char): char -> bool { c => c == sep }

  lemma TrimIdempotent(s: string, cut: char -> bool)
    ensures Trim(Trim(s, cut), cut) == Trim(s, cut)
  {
    var l := TrimLeft(s, cut);
    var r := TrimRight(l, cut);
    TrimLeftFacts(s, cut);
    TrimRightFacts(l, cut);
    assert r != [] ==> r[0] == l[0];
  }

  lemma TrimmedMembers(s: string, c: char)
    ensures c in TrimSpace(s) ==> c in s
  {
    TrimLeftFacts(s, IsSpace);
    TrimRightFacts(TrimLeft(s, IsSpace), IsSpace);
  }

  /** `strings.Split`: never empty, `[""]` for the empty string. */
  function Split(s: string, sep: char): (parts: seq<string>)
    ensures parts != []
  {
    if s == [] then [[]] else Extended(s[0], Split(s[1..], sep), sep)
  }

  /** The fields of a text with one more character in front. */
  function Extended(c: char, fields: seq<string>, sep: char): (r: seq<string>)
    requires fields != []
    ensures r != []
  {
    if c == sep then [[]] + fields else [[c] + fields[0]] + fields[1..]
  }

  lemma ExtendedConcat(c: char, a: seq<string>, b: seq<string>, sep: char)
    requires a != []
    ensures Extended(c, a + b, sep) == Extended(c, a, sep) + b
  {
  }

  /** No field holds the separator. */
  lemma {:induction false} SplitFields(s: string, sep: char, field: string)
    requires field in Split(s, sep)
    ensures sep !in field
  {
    if s != [] {
      var rest := Split(s[1..], sep);
      if field in rest {
        SplitFields(s[1..], sep, field);
      } else {
        SplitFields(s[1..], sep, rest[0]);
      }
    }
  }

  lemma {:induction false} SplitEnds(s: string, sep: char)
    requires s != []
    ensures s[0] != sep ==> Split(s, sep)[0] != []
    ensures s[|s| - 1] != sep ==> Split(s, sep)[|Split(s, sep)| - 1] != []
  {
    if |s| > 1 { SplitEnds(s[1..], sep); }
  }

  /** `strings.Join`. */
  function Join(parts: seq<string>, sep: char): string {
    if parts == [] then []
    else if |parts| == 1 then parts[0]
    else parts[0] + [sep] + Join(parts[1..], sep)
  }

  lemma {:induction false} SplitAtSeparator(a: string, b: string, sep: char)
    ensures Split(a + [sep] + b, sep) == Split(a, sep) + Split(b, sep)
  {
    if a == [] {
      assert ([] + [sep] + b)[1..] == b;
    } else {
      SplitAtSeparator(a[1..], b, sep);
      assert (a + [sep] + b)[1..] == a[1..] + [sep] + b && (a + [sep] + b)[0] == a[0];
      ExtendedConcat(a[0], Split(a[1..], sep), Split(b, sep), sep);
    }
  }

  lemma {:induction false} SplitWithoutSeparator(s: string, sep: char)
    requires sep !in s
    ensures Split(s, sep) == [s]
  {
    if s != [] {
      SplitWithoutSeparator(s[1..], sep);
      assert s == [s[0]] + s[1..];
    }
  }

  /** The fields of every part, in order. */
  function SplitEach(parts: seq<string>, sep: char): seq<string> {
    if parts == [] then [] else Split(parts[0], sep) + SplitEach(parts[1..], sep)
  }

  /** Splitting a joined list splits each of its parts. */
  lemma {:induction false} SplitJoin(parts: seq<string>, sep: char)
    requires parts != []
    ensures Split(Join(parts, sep), sep) == SplitEach(parts, sep)
  {
    if |parts| == 1 {
      assert SplitEach(parts[1..], sep) == [];
      assert SplitEach(parts, sep) == Split(parts[0], sep) + [];
    } else {
      SplitJoin(parts[1..], sep);
      SplitAtSeparator(parts[0], Join(parts[1..], sep), sep);
    }
  }

  lemma {:induction false} SplitEachPlain(parts: seq<string>, sep: char)
    requires forall p :: p in parts ==> sep !in p
    ensures SplitEach(parts, sep) == parts
  {
    if parts != [] {
      SplitWithoutSeparator(parts[0], sep);
      SplitEachPlain(parts[1..], sep);
      assert parts == [parts[0]] + parts[1..];
    }
  }

  lemma Associate<T>(a: seq<T>, b: seq<T>, c: seq<T>)
    ensures a + (b + c) == (a + b) + c
  {
  }

  lemma {:induction false} SplitEachConcat(a: seq<string>, b: seq<string>, sep: char)
    ensures SplitEach(a + b, sep) == SplitEach(a, sep) + SplitEach(b, sep)
  {
    if a == [] {
      assert a + b == b;
    } else {
      SplitEachConcat(a[1..], b, sep);
      assert (a + b)[1..] == a[1..] + b && (a + b)[0] == a[0];
      Associate(Split(a[0], sep), SplitEach(a[1..], sep), SplitEach(b, sep));
    }
  }

  lemma {:induction false} SplitEachMember(parts: seq<string>, sep: char, x: string)
    ensures x in SplitEach(parts, sep) <==> exists p :: p in parts && x in Split(p, sep)
  {
    if parts != [] {
      SplitEachMember(parts[1..], sep, x);
      if x in SplitEach(parts[1..], sep) {
        var p :| p in parts[1..] && x in Split(p, sep);
        assert p in parts;
      }
      if p :| p in parts && x in Split(p, sep) {
        assert p == parts[0] || p in parts[1..];
      }
    }
  }

  lemma {:induction false} JoinConcat(a: seq<string>, b: seq<string>, sep: char)
    requires a != [] && b != []
    ensures Join(a + b, sep) == Join(a, sep) + [sep] + Join(b, sep)
  {
    if |a| == 1 {
      assert (a + b)[1..] == b;
    } else {
      JoinConcat(a[1..], b, sep);
      assert (a + b)[1..] == a[1..] + b && (a + b)[0] == a[0];
      Associate(a[0] + [sep], Join(a[1..], sep), [sep] + Join(b, sep));
    }
  }

  lemma JoinExtended(c: char, fields: seq<string>, sep: char)
    requires fields != []
    ensures Join(Extended(c, fields, sep), sep) == [c] + Join(fields, sep)
  {
    if c == sep {
      assert ([[]] + fields)[1..] == fields;
    } else {
      var r := Extended(c, fields, sep);
      assert r[1..] == fields[1..] && r[0] == [c] + fields[0];
    }
  }

  /** Splitting loses nothing. */
  lemma {:induction false} JoinSplit(s: string, sep: char)
    ensures Join(Split(s, sep), sep) == s
  {
    if s != [] {
      JoinSplit(s[1..], sep);
      JoinExtended(s[0], Split(s[1..], sep), sep);
    }
  }

  /** Parts that hold separators join to the same text as their fields. */
  lemma {:induction false} JoinSplitEach(parts: seq<string>, sep: char)
    ensures Join(SplitEach(parts, sep), sep) == Join(parts, sep)
    ensures SplitEach(parts, sep) == [] <==> parts == []
  {
    if parts != [] {
      var rest := SplitEach(parts[1..], sep);
      JoinSplit(parts[0], sep);
      JoinSplitEach(parts[1..], sep);
      if |parts| == 1 {
        assert Split(parts[0], sep) + rest == Split(parts[0], sep);
      } else {
        JoinConcat(Split(parts[0], sep), rest, sep);
      }
    }
  }

  lemma {:induction false} JoinEnds(parts: seq<string>, sep: char)
    requires parts != [] && forall p :: p in parts ==> sep !in p
    ensures parts[0] != [] ==> Join(parts, sep) != [] && Join(parts, sep)[0] == parts[0][0] != sep
    ensures var l := parts[|parts| - 1];
            l != [] ==> var s := Join(parts, sep); s != [] && s[|s| - 1] == l[|l| - 1] != sep
  {
    assert parts[0] in parts && parts[|parts| - 1] in parts;
    if |parts| > 1 {
      JoinEnds(parts[1..], sep);
    }
  }

  /** Whether `prefix` starts `s` (`strings.HasPrefix`). */
  predicate HasPrefix(s: string, prefix: string) { prefix <= s }
}
