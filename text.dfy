/**
 Strings as Python sees them: whitespace as `str.isspace` and the `\s` class of a
 `re` pattern define it, substring containment (`in`), splitting at newlines (where a
 MULTILINE `^` may match), `", ".join`, and the code-point order that `sorted` uses.
 */
module Text {

  /** The characters Python's `str.isspace()` accepts, which is what `\s` matches in a
      pattern over `str` (and what `\S` excludes). */
  predicate IsSpace(c: char) {
    || ('\t' <= c <= '\r')
    || ('\U{1c}' <= c <= ' ')
    || c == '\U{85}' || c == '\U{a0}' || c == '\U{1680}'
    || ('\U{2000}' <= c <= '\U{200a}')
    || c == '\U{2028}' || c == '\U{2029}' || c == '\U{202f}' || c == '\U{205f}' || c == '\U{3000}'
  }

  predicate NoNewline(s: string) {
    '\n' !in s
  }

  /** None of `ls` holds a line break. */
  predicate NoNewlines(ls: seq<string>) {
    forall i :: 0 <= i < |ls| ==> NoNewline(ls[i])
  }

  lemma NoNewlinesConcat(a: seq<string>, b: seq<string>)
    requires NoNewlines(a) && NoNewlines(b)
    ensures NoNewlines(a + b)
  {
    forall i | 0 <= i < |a + b| ensures NoNewline((a + b)[i]) {
      if i < |a| {
        assert (a + b)[i] == a[i];
      } else {
        assert (a + b)[i] == b[i - |a|];
      }
    }
  }

  /** `sub` occurs in `s` starting at index `i`. */
  predicate OccursAt(s: string, sub: string, i: int) {
    0 <= i && i + |sub| <= |s| && s[i..i + |sub|] == sub
  }

  /** Python's `sub in s`, checked position by position from the left. */
  predicate Contains(s: string, sub: string)
    decreases |s|
  {
    |sub| <= |s| && (s[..|sub|] == sub || Contains(s[1..], sub))
  }

  /** `Contains` is substring containment: true exactly when `sub` occurs somewhere in `s`. */
  lemma {:induction false} ContainsIff(s: string, sub: string)
    ensures Contains(s, sub) <==> exists i :: OccursAt(s, sub, i)
    decreases |s|
  {
    if |sub| <= |s| && s[..|sub|] != sub {
      ContainsIff(s[1..], sub);
      if exists i :: OccursAt(s[1..], sub, i) {
        var i :| OccursAt(s[1..], sub, i);
        assert s[i + 1..i + 1 + |sub|] == s[1..][i..i + |sub|];
        assert OccursAt(s, sub, i + 1);
      }
      if exists i :: OccursAt(s, sub, i) {
        var i :| OccursAt(s, sub, i);
        assert i != 0;
        assert s[1..][i - 1..i - 1 + |sub|] == s[i..i + |sub|];
        assert OccursAt(s[1..], sub, i - 1);
      }
    } else if |sub| <= |s| {
      assert OccursAt(s, sub, 0);
    }
  }

  /** The pieces of `s` between the separator character `sep`, as Python's `s.split(sep)`. */
  function Split(s: string, sep: char): (parts: seq<string>)
    ensures |parts| >= 1
    ensures forall i :: 0 <= i < |parts| ==> sep !in parts[i]
    decreases |s|
  {
    if |s| == 0 then [""]
    else
      var rest := Split(s[1..], sep);
      if s[0] == sep then [""] + rest
      else [[s[0]] + rest[0]] + rest[1..]
  }

  /** The lines of `s`: the text between the positions where a MULTILINE `^` matches. */
  function Lines(s: string): seq<string> {
    Split(s, '\n')
  }

  /** Splitting a piece free of the separator, followed by the separator and more text,
      yields that piece first. */
  lemma {:induction false} SplitCons(a: string, sep: char, b: string)
    requires sep !in a
    ensures Split(a + [sep] + b, sep) == [a] + Split(b, sep)
    decreases |a|
  {
    if |a| == 0 {
      assert a + [sep] + b == [sep] + b;
      assert ([sep] + b)[1..] == b;
    } else {
      assert (a + [sep] + b)[1..] == a[1..] + [sep] + b;
      SplitCons(a[1..], sep, b);
      assert [a[0]] + a[1..] == a;
    }
  }

  /** A piece free of the separator splits into itself alone. */
  lemma {:induction false} SplitSingle(a: string, sep: char)
    requires sep !in a
    ensures Split(a, sep) == [a]
    decreases |a|
  {
    if |a| > 0 {
      SplitSingle(a[1..], sep);
      assert [a[0]] + a[1..] == a;
    }
  }

  /** Newline-terminated lines laid end to end: what a sequence of `out += line + "\n"` builds. */
  function JoinLines(ls: seq<string>): string {
    if |ls| == 0 then "" else ls[0] + "\n" + JoinLines(ls[1..])
  }

  lemma {:induction false} JoinLinesAppend(a: seq<string>, b: seq<string>)
    ensures JoinLines(a + b) == JoinLines(a) + JoinLines(b)
    decreases |a|
  {
    if |a| > 0 {
      assert (a + b)[1..] == a[1..] + b;
      JoinLinesAppend(a[1..], b);
    } else {
      assert a + b == b;
    }
  }

  lemma JoinLinesSnoc(ls: seq<string>, l: string)
    ensures JoinLines(ls + [l]) == JoinLines(ls) + l + "\n"
  {
    JoinLinesAppend(ls, [l]);
    assert JoinLines([l]) == l + "\n" + JoinLines([]);
  }

  /** Splitting newline-terminated lines (none holding a newline) followed by more text
      gives back those lines, then the lines of that text. */
  lemma {:induction false} LinesOfJoinLines(ls: seq<string>, tail: string)
    requires NoNewlines(ls)
    ensures Lines(JoinLines(ls) + tail) == ls + Lines(tail)
    decreases |ls|
  {
    if |ls| > 0 {
      var rest := JoinLines(ls[1..]) + tail;
      assert JoinLines(ls) + tail == ls[0] + ['\n'] + rest;
      SplitCons(ls[0], '\n', rest);
      LinesOfJoinLines(ls[1..], tail);
      assert ls == [ls[0]] + ls[1..];
    } else {
      assert JoinLines(ls) + tail == tail;
    }
  }

  /** Python's `sep.join(xs)`. */
  function Join(sep: string, xs: seq<string>): string {
    if |xs| == 0 then ""
    else if |xs| == 1 then xs[0]
    else xs[0] + sep + Join(sep, xs[1..])
  }

  lemma {:induction false} JoinNoNewline(sep: string, xs: seq<string>)
    requires NoNewline(sep)
    requires NoNewlines(xs)
    ensures NoNewline(Join(sep, xs))
    decreases |xs|
  {
    if |xs| > 1 {
      JoinNoNewline(sep, xs[1..]);
    }
  }

  /** Drops the single space that follows each comma of a `", "`-joined list. */
  function DropLeadingSpace(s: string): string {
    if |s| > 0 && s[0] == ' ' then s[1..] else s
  }

  function DropLeadingSpaces(parts: seq<string>): (r: seq<string>)
    ensures |r| == |parts|
  {
    if |parts| == 0 then [] else [DropLeadingSpace(parts[0])] + DropLeadingSpaces(parts[1..])
  }

  /** Reads a `", "`-joined list back into its items. */
  function SplitCommaList(s: string): seq<string> {
    var parts := Split(s, ',');
    [parts[0]] + DropLeadingSpaces(parts[1..])
  }

  /** `", ".join` loses nothing when no item holds a comma: the items come back, in order. */
  lemma {:induction false} CommaListRoundTrip(xs: seq<string>)
    requires |xs| >= 1
    requires forall i :: 0 <= i < |xs| ==> ',' !in xs[i]
    ensures SplitCommaList(Join(", ", xs)) == xs
    decreases |xs|
  {
    if |xs| == 1 {
      SplitSingle(xs[0], ',');
    } else {
      var rest := Join(", ", xs[1..]);
      CommaListRoundTrip(xs[1..]);
      assert Join(", ", xs) == xs[0] + [','] + (" " + rest);
      SplitCons(xs[0], ',', " " + rest);
      var tailParts := Split(" " + rest, ',');
      var restParts := Split(rest, ',');
      assert (" " + rest)[1..] == rest;
      assert tailParts == [" " + restParts[0]] + restParts[1..];
      assert DropLeadingSpace(" " + restParts[0]) == restParts[0];
      assert SplitCommaList(rest) == [restParts[0]] + DropLeadingSpaces(restParts[1..]);
      assert Split(Join(", ", xs), ',') == [xs[0]] + tailParts;
      assert ([xs[0]] + tailParts)[1..] == tailParts;
      assert tailParts[1..] == restParts[1..];
    }
  }

  /** Python's `<` on `str`: lexicographic by code point, a proper prefix first. */
  predicate Less(a: string, b: string)
    decreases |a|
  {
    |b| > 0 && (|a| == 0 || a[0] < b[0] || (a[0] == b[0] && Less(a[1..], b[1..])))
  }

  lemma {:induction false} LessIrreflexive(a: string)
    ensures !Less(a, a)
    decreases |a|
  {
    if |a| > 0 {
      LessIrreflexive(a[1..]);
    }
  }

  lemma {:induction false} LessTransitive(a: string, b: string, c: string)
    requires Less(a, b) && Less(b, c)
    ensures Less(a, c)
    decreases |a|
  {
    if |a| > 0 && a[0] == b[0] && b[0] == c[0] {
      LessTransitive(a[1..], b[1..], c[1..]);
    }
  }

  /** Any two different strings are ordered one way round. */
  lemma {:induction false} LessTotal(a: string, b: string)
    requires a != b
    ensures Less(a, b) || Less(b, a)
    decreases |a|
  {
    if |a| > 0 && |b| > 0 && a[0] == b[0] {
      assert a == [a[0]] + a[1..] && b == [b[0]] + b[1..];
      LessTotal(a[1..], b[1..]);
    }
  }

  lemma LessAsymmetric(a: string, b: string)
    requires Less(a, b)
    ensures !Less(b, a)
  {
    if Less(b, a) {
      LessTransitive(a, b, a);
      LessIrreflexive(a);
    }
  }

  /** Strictly ascending in Python's string order (so also free of repeats). */
  predicate StrictlySorted(ks: seq<string>) {
    forall i, j :: 0 <= i < j < |ks| ==> Less(ks[i], ks[j])
  }

  /** `m` is the least member of `s`. */
  predicate IsLeast(m: string, s: set<string>) {
    m in s && forall x :: x in s && x != m ==> Less(m, x)
  }

  /** Adding one string to a set with a least member keeps a least member. */
  lemma LeastAdd(m: string, s: set<string>, y: string)
    requires IsLeast(m, s)
    ensures IsLeast(m, s + {y}) || IsLeast(y, s + {y})
  {
    if y != m && !Less(m, y) {
      LessTotal(m, y);
      forall x | x in s + {y} && x != y ensures Less(y, x) {
        if x != m { LessTransitive(y, m, x); }
      }
    }
  }

  /** A non-empty finite set of strings has a least element. */
  lemma {:induction false} LeastExists(s: set<string>)
    requires s != {}
    ensures exists m :: IsLeast(m, s)
    decreases s
  {
    var y :| y in s;
    if s != {y} {
      LeastExists(s - {y});
      var m :| IsLeast(m, s - {y});
      LeastAdd(m, s - {y}, y);
      assert s - {y} + {y} == s;
    } else {
      assert IsLeast(y, s);
    }
  }

  /** The members of `s` in ascending order, as Python's `sorted` gives them. */
  ghost function Ascending(s: set<string>): (ks: seq<string>)
    ensures StrictlySorted(ks)
    ensures forall k :: k in ks <==> k in s
    ensures |ks| == |s|
    decreases s
  {
    if s == {} then []
    else
      LeastExists(s);
      var m :| m in s && IsLeast(m, s);
      [m] + Ascending(s - {m})
  }

  /** The ascending order of a set is unique: any two strictly sorted sequences holding
      the same strings are equal, whatever order the strings were found in. */
  lemma {:induction false} SortedUnique(a: seq<string>, b: seq<string>)
    requires StrictlySorted(a) && StrictlySorted(b)
    requires |a| == |b|
    requires forall k :: k in a <==> k in b
    ensures a == b
    decreases |a|
  {
    if |a| > 0 {
      assert a[0] in b;
      assert b[0] in a;
      if a[0] != b[0] {
        var i :| 0 <= i < |b| && b[i] == a[0];
        var j :| 0 <= j < |a| && a[j] == b[0];
        assert Less(b[0], a[0]);
        assert Less(a[0], b[0]);
        LessAsymmetric(a[0], b[0]);
      }
      forall k ensures k in a[1..] <==> k in b[1..] {
        if k in a[1..] {
          var i :| 0 <= i < |a| - 1 && a[1..][i] == k;
          assert Less(a[0], a[i + 1]);
          LessIrreflexive(a[0]);
          assert k in b;
          var j :| 0 <= j < |b| && b[j] == k;
          assert j != 0;
          assert b[1..][j - 1] == k;
        }
        if k in b[1..] {
          var i :| 0 <= i < |b| - 1 && b[1..][i] == k;
          assert Less(b[0], b[i + 1]);
          LessIrreflexive(b[0]);
          assert k in a;
          var j :| 0 <= j < |a| && a[j] == k;
          assert j != 0;
          assert a[1..][j - 1] == k;
        }
      }
      SortedUnique(a[1..], b[1..]);
      assert a == [a[0]] + a[1..] && b == [b[0]] + b[1..];
    }
  }

  /** A strictly sorted sequence lists the members of a set once each. */
  lemma {:induction false} SortedCardinality(ks: seq<string>, s: set<string>)
    requires StrictlySorted(ks)
    requires forall k :: k in ks <==> k in s
    ensures |ks| == |s|
    decreases |ks|
  {
    if |ks| > 0 {
      forall i | 1 <= i < |ks| ensures ks[i] != ks[0] {
        LessIrreflexive(ks[0]);
      }
      SortedCardinality(ks[1..], s - {ks[0]});
    } else {
      assert s == {};
    }
  }

  /** Python's `sorted` over a set of strings: repeatedly takes the least of the strings
      not yet placed. */
  method SortStrings(s: set<string>) returns (ks: seq<string>)
    ensures ks == Ascending(s)
  {
    ks := [];
    var rest := s;
    while rest != {}
      invariant rest <= s
      invariant StrictlySorted(ks)
      invariant forall k :: k in ks <==> k in s && k !in rest
      invariant forall i, x :: 0 <= i < |ks| && x in rest ==> Less(ks[i], x)
      invariant |ks| + |rest| == |s|
      decreases rest
    {
      LeastExists(rest);
      var m :| m in rest && IsLeast(m, rest);
      ks := ks + [m];
      rest := rest - {m};
    }
    SortedUnique(ks, Ascending(s));
  }
}
