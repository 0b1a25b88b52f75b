/**
 The pattern the scanner runs over a crate's `lib.rs` (generate.py, `modules_regex`):

   ^(?:\S.*)?pub\s+(?:mod\s+|use\s+(?:IDENT::)*)(IDENT);     with IDENT = [a-zA-Z_][a-zA-Z0-9_]*

 in MULTILINE mode, one line at a time. `^` anchors at the start of a line; the optional
 prefix must start with a non-space character; its greedy `.*` makes the regex engine try
 the LAST possible start of `pub` on the line first, then earlier ones, and only then an
 empty prefix.
 */
module Matcher {
  import opened Options
  import opened Text

  predicate IsIdentStart(c: char) {
    ('a' <= c <= 'z') || ('A' <= c <= 'Z') || c == '_'
  }

  predicate IsIdentChar(c: char) {
    IsIdentStart(c) || ('0' <= c <= '9')
  }

  /** A whole string matching `[a-zA-Z_][a-zA-Z0-9_]*`. */
  predicate IsIdent(s: string) {
    |s| > 0 && IsIdentStart(s[0]) && forall i :: 0 < i < |s| ==> IsIdentChar(s[i])
  }

  /** An identifier holds no line break. */
  lemma IdentNoNewline(s: string)
    requires IsIdent(s)
    ensures NoNewline(s)
  {
    forall i | 0 <= i < |s| ensures s[i] != '\n' {
      assert IsIdentStart(s[i]) || IsIdentChar(s[i]);
    }
  }

  /** Length of the longest prefix of `s` made of whitespace (the greedy `\s*`). */
  function SpaceRun(s: string): (n: nat)
    ensures n <= |s|
    ensures forall i :: 0 <= i < n ==> IsSpace(s[i])
    ensures n < |s| ==> !IsSpace(s[n])
  {
    if |s| > 0 && IsSpace(s[0]) then 1 + SpaceRun(s[1..]) else 0
  }

  /** Length of the longest prefix of `s` made of identifier characters. */
  function IdentRun(s: string): (n: nat)
    ensures n <= |s|
    ensures forall i :: 0 <= i < n ==> IsIdentChar(s[i])
    ensures n < |s| ==> !IsIdentChar(s[n])
  {
    if |s| > 0 && IsIdentChar(s[0]) then 1 + IdentRun(s[1..]) else 0
  }

  /** `(IDENT);` at the start of `s`: the identifier, when a `;` follows it. */
  function IdentThenSemicolon(s: string): (r: Option<string>)
    ensures r.Some? ==> IsIdent(r.value) && |r.value| < |s| && s[..|r.value| + 1] == r.value + ";"
  {
    if |s| > 0 && IsIdentStart(s[0]) then
      var n := IdentRun(s);
      if n < |s| && s[n] == ';' then Some(s[..n]) else None
    else None
  }

  /** `(?:IDENT::)*(IDENT);` at the start of `s`: the last segment of the path. The
      identifiers are maximal in any match (each must be followed by `:` or `;`), so the
      path splits into segments in exactly one way. */
  function PathThenSemicolon(s: string): (r: Option<string>)
    ensures r.Some? ==> IsIdent(r.value) && exists i :: OccursAt(s, r.value + ";", i)
    decreases |s|
  {
    if |s| > 0 && IsIdentStart(s[0]) then
      var n := IdentRun(s);
      if n < |s| && s[n] == ';' then
        assert OccursAt(s, s[..n] + ";", 0) by { assert s[0..n + 1] == s[..n] + ";"; }
        Some(s[..n])
      else if n + 1 < |s| && s[n] == ':' && s[n + 1] == ':' then
        var r := PathThenSemicolon(s[n + 2..]);
        if r.Some? then
          var i :| OccursAt(s[n + 2..], r.value + ";", i);
          assert s[n + 2..][i..i + |r.value| + 1] == s[n + 2 + i..n + 2 + i + |r.value| + 1];
          assert OccursAt(s, r.value + ";", n + 2 + i);
          r
        else r
      else None
    else None
  }

  /** `\s+(IDENT);` (after `mod`) or `\s+(?:IDENT::)*(IDENT);` (after `use`) at the start
      of `c`. Each `\s+` is followed by a non-space character, so it takes the whole run
      of whitespace. */
  function AfterKeyword(c: string, isMod: bool): Option<string> {
    var w := SpaceRun(c);
    if w == 0 then None
    else if isMod then IdentThenSemicolon(c[w..])
    else PathThenSemicolon(c[w..])
  }

  /** `\s+(?:mod|use)...` at the start of `a`. */
  function AfterPub(a: string): Option<string> {
    var w := SpaceRun(a);
    if w == 0 then None
    else
      var b := a[w..];
      if |b| >= 3 && b[..3] == "mod" then AfterKeyword(b[3..], true)
      else if |b| >= 3 && b[..3] == "use" then AfterKeyword(b[3..], false)
      else None
  }

  /** Everything of the pattern after the optional prefix, at the start of `t`:
      `pub\s+(?:mod\s+|use\s+(?:IDENT::)*)(IDENT);`. */
  function MatchDecl(t: string): Option<string> {
    if |t| >= 3 && t[..3] == "pub" then AfterPub(t[3..]) else None
  }

  /** The declaration may start at `k`: at the start of the line, or after a prefix whose
      first character is not whitespace. */
  predicate ValidStart(line: string, k: int) {
    0 <= k <= |line| && (k == 0 || !IsSpace(line[0]))
  }

  /** What the rest of the pattern recognises from start `k` on, if `k` is a start. */
  function Candidate(line: string, k: int): Option<string>
    requires 0 <= k <= |line|
  {
    if ValidStart(line, k) then MatchDecl(line[k..]) else None
  }

  /** The outcome at every start `0 .. |line|` of the line. */
  function Candidates(line: string): (cs: seq<Option<string>>)
    ensures |cs| == |line| + 1
  {
    seq(|line| + 1, k requires 0 <= k <= |line| => Candidate(line, k))
  }

  /** The last recognised outcome: the engine tries the starts from the last one down. */
  function LastFound<T>(cs: seq<Option<T>>): Option<T>
    decreases |cs|
  {
    if |cs| == 0 then None
    else if cs[|cs| - 1].Some? then cs[|cs| - 1]
    else LastFound(cs[..|cs| - 1])
  }

  /** The module name the pattern captures on one line, if it matches there. */
  function LineMatch(line: string): Option<string> {
    LastFound(Candidates(line))
  }

  /** `LastFound` picks the recognised outcome that no later one follows; it finds
      nothing exactly when nothing is recognised. */
  lemma {:induction false} LastFoundIsLast<T>(cs: seq<Option<T>>)
    ensures LastFound(cs).Some? ==>
      exists j :: 0 <= j < |cs| && cs[j] == LastFound(cs)
        && forall j' :: j < j' < |cs| ==> cs[j'].None?
    ensures LastFound(cs).None? <==> forall j :: 0 <= j < |cs| ==> cs[j].None?
    decreases |cs|
  {
    if |cs| > 0 && cs[|cs| - 1].None? {
      var init := cs[..|cs| - 1];
      LastFoundIsLast(init);
      if LastFound(cs).Some? {
        var j :| 0 <= j < |init| && init[j] == LastFound(init)
          && forall j' :: j < j' < |init| ==> init[j'].None?;
        assert cs[j] == LastFound(cs);
        assert forall j' :: j < j' < |cs| ==> cs[j'].None?;
      } else {
        forall j | 0 <= j < |cs| ensures cs[j].None? {
          if j < |init| { assert cs[j] == init[j]; }
        }
      }
    } else if |cs| > 0 {
      assert cs[|cs| - 1] == LastFound(cs);
    }
  }

  /** The outcome at `j` is what `LastFound` picks when no later outcome is recognised. */
  lemma {:induction false} LastFoundAt<T>(cs: seq<Option<T>>, j: nat)
    requires j < |cs| && cs[j].Some?
    requires forall j' :: j < j' < |cs| ==> cs[j'].None?
    ensures LastFound(cs) == cs[j]
    decreases |cs|
  {
    if j < |cs| - 1 {
      var init := cs[..|cs| - 1];
      assert init[j] == cs[j];
      LastFoundAt(init, j);
    }
  }

  /** The pattern's choice on a line is the declaration at the LAST start where one is
      recognised; and there is none exactly when no start recognises one. */
  lemma LineMatchIsLastDeclaration(line: string)
    ensures LineMatch(line).Some? ==>
      exists j :: ValidStart(line, j) && MatchDecl(line[j..]) == LineMatch(line)
        && forall j' :: j < j' <= |line| && ValidStart(line, j') ==> MatchDecl(line[j'..]).None?
    ensures LineMatch(line).None? <==>
      forall j :: ValidStart(line, j) ==> MatchDecl(line[j..]).None?
  {
    var cs := Candidates(line);
    LastFoundIsLast(cs);
    if LineMatch(line).Some? {
      var j :| 0 <= j < |cs| && cs[j] == LastFound(cs) && forall j' :: j < j' < |cs| ==> cs[j'].None?;
      assert Candidate(line, j) == cs[j];
      forall j' | j < j' <= |line| && ValidStart(line, j') ensures MatchDecl(line[j'..]).None? {
        assert Candidate(line, j') == cs[j'];
      }
    } else {
      forall j | ValidStart(line, j) ensures MatchDecl(line[j..]).None? {
        assert Candidate(line, j) == cs[j];
      }
    }
  }

  /** Whatever a line yields is a single identifier. */
  lemma LineMatchIsIdent(line: string)
    ensures LineMatch(line).Some? ==> IsIdent(LineMatch(line).value)
  {
    LineMatchIsLastDeclaration(line);
    if LineMatch(line).Some? {
      var j :| ValidStart(line, j) && MatchDecl(line[j..]) == LineMatch(line);
      MatchDeclIsIdent(line[j..]);
    }
  }

  lemma MatchDeclIsIdent(t: string)
    ensures MatchDecl(t).Some? ==> IsIdent(MatchDecl(t).value)
  {
    if |t| >= 3 && t[..3] == "pub" {
      AfterPubIsIdent(t[3..]);
    }
  }

  lemma AfterPubIsIdent(a: string)
    ensures AfterPub(a).Some? ==> IsIdent(AfterPub(a).value)
  {
  }

  /** A line whose first character is whitespace never yields a module name. */
  lemma IndentedLineNoMatch(line: string)
    requires 0 < |line| && IsSpace(line[0])
    ensures LineMatch(line) == None
  {
    var cs := Candidates(line);
    forall j | 0 <= j < |cs| ensures cs[j].None? {
      assert cs[j] == Candidate(line, j);
    }
    LastFoundIsLast(cs);
  }

  /** No character of `s` is whitespace. */
  predicate NoSpaceIn(s: string) {
    forall i :: 0 <= i < |s| ==> !IsSpace(s[i])
  }

  lemma NoSpaceInSuffix(s: string, j: nat)
    requires NoSpaceIn(s) && j <= |s|
    ensures NoSpaceIn(s[j..])
  {
    assert forall i :: 0 <= i < |s| - j ==> s[j..][i] == s[j + i];
  }

  lemma NoSpaceInConcat(a: string, b: string)
    requires NoSpaceIn(a) && NoSpaceIn(b)
    ensures NoSpaceIn(a + b)
  {
    assert forall i :: 0 <= i < |a + b| ==> (a + b)[i] == if i < |a| then a[i] else b[i - |a|];
  }

  /** A text without whitespace holds no declaration. */
  lemma NoSpaceNoDecl(t: string)
    requires NoSpaceIn(t)
    ensures MatchDecl(t) == None
  {
    if |t| >= 3 {
      assert t[3..] == [] || t[3..][0] == t[3];
    }
  }

  lemma IdentNoSpace(name: string)
    requires IsIdent(name)
    ensures NoSpaceIn(name)
  {
    forall i | 0 <= i < |name| ensures !IsSpace(name[i]) {
      assert i == 0 || IsIdentChar(name[i]);
    }
  }

  lemma IdentThenSemicolonOf(name: string)
    requires IsIdent(name)
    ensures IdentThenSemicolon(name + ";") == Some(name)
  {
    var s := name + ";";
    IdentRunOf(name, ";");
    assert s[..|name|] == name;
  }

  /** The identifier run of an identifier followed by a non-identifier character is the
      whole identifier. */
  lemma {:induction false} IdentRunOf(name: string, rest: string)
    requires forall i :: 0 <= i < |name| ==> IsIdentChar(name[i])
    requires |rest| > 0 && !IsIdentChar(rest[0])
    ensures IdentRun(name + rest) == |name|
    decreases |name|
  {
    if |name| > 0 {
      assert (name + rest)[1..] == name[1..] + rest;
      IdentRunOf(name[1..], rest);
    } else {
      assert name + rest == rest;
    }
  }

  /** `"x::"` for each segment of a path, laid end to end. */
  function PathPrefix(segments: seq<string>): string {
    if |segments| == 0 then "" else segments[0] + "::" + PathPrefix(segments[1..])
  }

  predicate AllIdents(segments: seq<string>) {
    forall i :: 0 <= i < |segments| ==> IsIdent(segments[i])
  }

  /** The path of a `pub use`, with its identifier and `;`, holds no whitespace and
      starts with an identifier. */
  lemma {:induction false} UsePathShape(segments: seq<string>, name: string)
    requires AllIdents(segments) && IsIdent(name)
    ensures NoSpaceIn(PathPrefix(segments) + name + ";")
    ensures IsIdentStart((PathPrefix(segments) + name + ";")[0])
    decreases |segments|
  {
    if |segments| == 0 {
      IdentNoSpace(name);
      NoSpaceInConcat(name, ";");
      assert PathPrefix(segments) + name + ";" == name + ";";
    } else {
      UsePathShape(segments[1..], name);
      IdentNoSpace(segments[0]);
      NoSpaceInConcat(segments[0], "::");
      var rest := PathPrefix(segments[1..]) + name + ";";
      NoSpaceInConcat(segments[0] + "::", rest);
      assert PathPrefix(segments) + name + ";" == segments[0] + "::" + rest;
    }
  }

  /** The path part of a `pub use` recognises the last segment. */
  lemma {:induction false} PathThenSemicolonOf(segments: seq<string>, name: string)
    requires AllIdents(segments) && IsIdent(name)
    ensures PathThenSemicolon(PathPrefix(segments) + name + ";") == Some(name)
    decreases |segments|
  {
    if |segments| == 0 {
      assert PathPrefix(segments) + name + ";" == name + ";";
      IdentRunOf(name, ";");
      assert (name + ";")[..|name|] == name;
    } else {
      var seg := segments[0];
      var rest := PathPrefix(segments[1..]) + name + ";";
      var s := PathPrefix(segments) + name + ";";
      assert s == seg + ("::" + rest);
      IdentRunOf(seg, "::" + rest);
      assert s[|seg| + 2..] == rest;
      PathThenSemicolonOf(segments[1..], name);
    }
  }

  lemma SpaceRunOfOne(x: string)
    requires |x| > 0 && !IsSpace(x[0])
    ensures SpaceRun(" " + x) == 1
  {
    assert (" " + x)[1..] == x;
  }

  lemma AfterKeywordOf(x: string, isMod: bool)
    requires |x| > 0 && !IsSpace(x[0])
    ensures AfterKeyword(" " + x, isMod) ==
      if isMod then IdentThenSemicolon(x) else PathThenSemicolon(x)
  {
    SpaceRunOfOne(x);
    assert (" " + x)[1..] == x;
  }

  lemma AfterPubOf(keyword: string, c: string)
    requires keyword == "mod" || keyword == "use"
    ensures AfterPub(" " + (keyword + c)) == AfterKeyword(c, keyword == "mod")
  {
    SpaceRunOfOne(keyword + c);
    assert (" " + (keyword + c))[1..] == keyword + c;
    assert (keyword + c)[..3] == keyword && (keyword + c)[3..] == c;
  }

  lemma MatchDeclOf(a: string)
    ensures MatchDecl("pub" + a) == AfterPub(a)
  {
    assert ("pub" + a)[..3] == "pub" && ("pub" + a)[3..] == a;
  }

  /** A declaration at `k` followed by no other is what the line yields. */
  lemma DeclarationChosen(line: string, k: nat, name: string)
    requires k <= |line| && ValidStart(line, k)
    requires MatchDecl(line[k..]) == Some(name)
    requires forall j :: k < j <= |line| ==> MatchDecl(line[j..]) == None
    ensures LineMatch(line) == Some(name)
  {
    var cs := Candidates(line);
    assert cs[k] == Candidate(line, k);
    forall j' | k < j' < |cs| ensures cs[j'].None? {
      assert cs[j'] == Candidate(line, j');
    }
    LastFoundAt(cs, k);
  }

  /** No start past `k` recognises a declaration when the seven characters after `k`
      are not `p` and everything after them is free of whitespace. */
  lemma LaterStartsFail(line: string, k: nat, rest: string)
    requires k + 8 <= |line| && line[k + 8..] == rest && NoSpaceIn(rest)
    requires forall i :: k < i < k + 8 ==> line[i] != 'p'
    ensures forall j :: k < j <= |line| ==> MatchDecl(line[j..]) == None
  {
    forall j | k < j <= |line| ensures MatchDecl(line[j..]) == None {
      if j >= k + 8 {
        assert line[j..] == rest[j - k - 8..];
        NoSpaceInSuffix(rest, j - k - 8);
        NoSpaceNoDecl(line[j..]);
      } else {
        assert line[j..][0] == line[j];
      }
    }
  }

  /** `pub KEYWORD ` with single spaces. */
  function DeclHead(keyword: string): string {
    "pub " + keyword + " "
  }

  lemma DeclHeads()
    ensures DeclHead("mod") == "pub mod " && DeclHead("use") == "pub use "
  {
  }

  /** After `pub KEYWORD `, what follows the keyword decides. */
  lemma KeywordDecl(keyword: string, rest: string)
    requires keyword == "mod" || keyword == "use"
    requires |rest| > 0 && !IsSpace(rest[0])
    ensures MatchDecl(DeclHead(keyword) + rest) ==
      if keyword == "mod" then IdentThenSemicolon(rest) else PathThenSemicolon(rest)
  {
    AfterKeywordOf(rest, keyword == "mod");
    AfterPubOf(keyword, " " + rest);
    MatchDeclOf(" " + (keyword + (" " + rest)));
    DeclHeadPieces(keyword, rest);
  }

  lemma DeclHeadPieces(keyword: string, rest: string)
    ensures DeclHead(keyword) + rest == "pub" + (" " + (keyword + (" " + rest)))
  {
    assert "pub " == "pub" + " ";
  }

  lemma ModDeclParses(name: string)
    requires IsIdent(name)
    ensures MatchDecl(DeclHead("mod") + (name + ";")) == Some(name)
  {
    KeywordDecl("mod", name + ";");
    IdentThenSemicolonOf(name);
  }

  lemma UseDeclParses(segments: seq<string>, name: string)
    requires AllIdents(segments) && IsIdent(name)
    ensures MatchDecl(DeclHead("use") + (PathPrefix(segments) + name + ";")) == Some(name)
  {
    UsePathShape(segments, name);
    KeywordDecl("use", PathPrefix(segments) + name + ";");
    PathThenSemicolonOf(segments, name);
  }

  /** After a declaration head (eight characters, no `p` after the first) followed by
      whitespace-free text, no later start on the line begins a declaration. */
  lemma LaterStartsAfterHead(prefix: string, head: string, rest: string)
    requires |head| == 8 && forall i :: 0 < i < 8 ==> head[i] != 'p'
    requires NoSpaceIn(rest)
    ensures forall j :: |prefix| < j <= |prefix + (head + rest)| ==>
      MatchDecl((prefix + (head + rest))[j..]) == None
  {
    var line := prefix + (head + rest);
    var k := |prefix|;
    assert line[k + 8..] == rest;
    forall i | k < i < k + 8 ensures line[i] != 'p' {
      assert line[i] == head[i - k];
    }
    LaterStartsFail(line, k, rest);
  }

  /** A line made of a prefix that starts with a non-space character and a declaration
      `head + rest` (with `head` eight characters long, no `p` after its first, and
      `rest` free of whitespace) yields that declaration's name. */
  lemma DeclarationAfterPrefix(prefix: string, head: string, rest: string, name: string)
    requires prefix == [] || !IsSpace(prefix[0])
    requires |head| == 8 && forall i :: 0 < i < 8 ==> head[i] != 'p'
    requires NoSpaceIn(rest)
    requires MatchDecl(head + rest) == Some(name)
    ensures LineMatch(prefix + (head + rest)) == Some(name)
  {
    var line := prefix + (head + rest);
    LaterStartsAfterHead(prefix, head, rest);
    assert line[|prefix|..] == head + rest;
    DeclarationChosen(line, |prefix|, name);
  }

  lemma HeadShape(keyword: string)
    requires keyword == "mod" || keyword == "use"
    ensures |DeclHead(keyword)| == 8 && forall i :: 0 < i < 8 ==> DeclHead(keyword)[i] != 'p'
  {
  }

  lemma ModLine(prefix: string, name: string)
    ensures prefix + "pub mod " + name + ";" == prefix + (DeclHead("mod") + (name + ";"))
  {
    DeclHeads();
  }

  lemma UseLine(prefix: string, path: string, name: string)
    ensures prefix + "pub use " + path + name + ";" == prefix + (DeclHead("use") + (path + name + ";"))
  {
    DeclHeads();
  }

  /** `pub mod NAME;` is recognised after any prefix that starts with a non-space
      character (an attribute, for one), and on its own. */
  lemma ModDeclarationRecognised(prefix: string, name: string)
    requires IsIdent(name)
    requires prefix == [] || !IsSpace(prefix[0])
    ensures LineMatch(prefix + "pub mod " + name + ";") == Some(name)
  {
    ModDeclParses(name);
    IdentNoSpace(name);
    NoSpaceInConcat(name, ";");
    HeadShape("mod");
    DeclarationAfterPrefix(prefix, DeclHead("mod"), name + ";", name);
    ModLine(prefix, name);
  }

  /** `pub use a::b::NAME;` is recognised after any prefix that starts with a non-space
      character, and on its own. */
  lemma UseDeclarationRecognised(prefix: string, segments: seq<string>, name: string)
    requires AllIdents(segments) && IsIdent(name)
    requires prefix == [] || !IsSpace(prefix[0])
    ensures LineMatch(prefix + "pub use " + PathPrefix(segments) + name + ";") == Some(name)
  {
    UseDeclParses(segments, name);
    UsePathShape(segments, name);
    HeadShape("use");
    DeclarationAfterPrefix(prefix, DeclHead("use"), PathPrefix(segments) + name + ";", name);
    UseLine(prefix, PathPrefix(segments), name);
  }
}
