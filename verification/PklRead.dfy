/**
 * Which fields a file declares, read from its text (internal/config/read.go:148-208): comments
 * are stripped and strings emptied line by line, and only lines at brace depth zero count.
 */
module PklRead {
  import opened Options
  import opened PklRender
  import opened Text

  // What a character on a line belongs to.
  datatype Within = Code | Literal | Comment

  // The line's code from here on, and whether a block comment is still open at its end.
  function Sanitized(line: string, w: Within): (string, bool)
    decreases |line|
  {
    if line == "" then ("", w == Comment)
    else
      match w
      case Comment => if HasPrefix(line, "*/") then Sanitized(line[2..], Code) else Sanitized(line[1..], Comment)
      case Literal =>
        if line[0] == '\\' then Sanitized(if |line| > 1 then line[2..] else "", Literal)
        else if line[0] == '"' then Kept('"', Sanitized(line[1..], Code))
        else Sanitized(line[1..], Literal)
      case Code =>
        if HasPrefix(line, "//") then ("", false)
        else if HasPrefix(line, "/*") then Sanitized(line[2..], Comment)
        else if line[0] == '"' then Kept('"', Sanitized(line[1..], Literal))
        else Kept(line[0], Sanitized(line[1..], Code))
  }

  function Kept(c: char, rest: (string, bool)): (string, bool) { ([c] + rest.0, rest.1) }

  // What a string can hold before its closing quote: anything, a quote only behind a backslash.
  predicate StringBody(b: string)
    decreases |b|
  {
    || b == ""
    || (b[0] == '\\' && |b| > 1 && StringBody(b[2..]))
    || (b[0] != '\\' && b[0] != '"' && StringBody(b[1..]))
  }

  // No block comment ends before the end of b, even with what follows.
  predicate NoCommentEnd(b: string, after: string) {
    forall k :: 0 <= k < |b| ==> !HasPrefix((b + after)[k..], "*/")
  }

  // A character of code is kept.
  lemma CodeKept(c: char, rest: string)
    ensures
      var line := [c] + rest;
      c != '"' && !HasPrefix(line, "//") && !HasPrefix(line, "/*") ==>
        Sanitized(line, Code).0 == [c] + Sanitized(rest, Code).0 && Sanitized(line, Code).1 == Sanitized(rest, Code).1
  {
    assert ([c] + rest)[1..] == rest;
  }

  // A line comment is dropped with all that follows.
  lemma RestDropped(line: string)
    requires HasPrefix(line, "//")
    ensures Sanitized(line, Code) == ("", false)
  {
  }

  lemma CommentOpensAt(line: string)
    requires HasPrefix(line, "/*")
    ensures Sanitized(line, Code) == Sanitized(line[2..], Comment)
  {
    assert line[1] == line[..2][1] == '*';
    assert !HasPrefix(line, "//") by {
      assert "//"[1] == '/';
    }
  }

  // A block comment is dropped, the one an earlier line left open too.
  lemma BlockDropped(b: string, rest: string)
    requires NoCommentEnd(b, "*/")
    ensures Sanitized("/*" + b + "*/" + rest, Code) == Sanitized(rest, Code)
    ensures Sanitized(b + "*/" + rest, Comment) == Sanitized(rest, Code)
  {
    hide Sanitized;
    CommentEnds(b, rest);
    var line := "/*" + b + "*/" + rest;
    assert line[..2] == "/*" && line[2..] == b + "*/" + rest;
    CommentOpensAt(line);
  }

  lemma {:induction false} CommentEnds(b: string, rest: string)
    requires NoCommentEnd(b, "*/")
    ensures Sanitized(b + "*/" + rest, Comment) == Sanitized(rest, Code)
  {
    var line := b + "*/" + rest;
    if b == "" {
      assert line[2..] == rest;
    } else {
      forall k | 0 <= k < |b[1..]| ensures !HasPrefix((b[1..] + "*/")[k..], "*/") {
        assert (b[1..] + "*/")[k..] == (b + "*/")[k + 1..];
      }
      CommentEnds(b[1..], rest);
      assert !HasPrefix((b + "*/")[0..], "*/");
      assert line[1..] == b[1..] + "*/" + rest;
      assert line[..2] == (b + "*/")[..2];
    }
  }

  // One that does not end takes the rest of the line and stays open.
  lemma BlockStaysOpen(b: string)
    requires NoCommentEnd(b, "")
    ensures Sanitized("/*" + b, Code) == ("", true) && Sanitized(b, Comment) == ("", true)
  {
    hide Sanitized;
    CommentGoesOn(b);
    var line := "/*" + b;
    assert line[..2] == "/*" && line[2..] == b;
    CommentOpensAt(line);
  }

  lemma {:induction false} CommentGoesOn(b: string)
    requires NoCommentEnd(b, "")
    ensures Sanitized(b, Comment) == ("", true)
  {
    assert b + "" == b;
    if b != "" {
      assert !HasPrefix((b + "")[0..], "*/");
      forall k | 0 <= k < |b[1..]| ensures !HasPrefix((b[1..] + "")[k..], "*/") {
        assert (b[1..] + "")[k..] == (b + "")[k + 1..];
      }
      CommentGoesOn(b[1..]);
    }
  }

  // A string comes out empty, whatever it holds; one that does not end takes the rest of the line.
  lemma StringEmptied(b: string, rest: string)
    requires StringBody(b)
    ensures Sanitized("\"" + b + "\"" + rest, Code).0 == "\"\"" + Sanitized(rest, Code).0
    ensures Sanitized("\"" + b + "\"" + rest, Code).1 == Sanitized(rest, Code).1
    ensures Sanitized("\"" + b, Code) == ("\"", false)
  {
    hide Sanitized, StringBody;
    LiteralEnds(b, rest);
    QuoteOpens(b + "\"" + rest);
    QuoteOpens(b);
    assert ['"'] + "" == "\"";
    assert "\"" + b + "\"" + rest == "\"" + (b + "\"" + rest);
  }

  lemma QuoteOpens(rest: string)
    ensures Sanitized("\"" + rest, Code) == Kept('"', Sanitized(rest, Literal))
  {
    var line := "\"" + rest;
    assert line[0] == '"' && line[1..] == rest;
  }

  lemma {:induction false} LiteralEnds(b: string, rest: string)
    requires StringBody(b)
    ensures Sanitized(b + "\"" + rest, Literal).0 == "\"" + Sanitized(rest, Code).0
    ensures Sanitized(b + "\"" + rest, Literal).1 == Sanitized(rest, Code).1
    ensures Sanitized(b, Literal) == ("", false)
    decreases |b|
  {
    var line := b + "\"" + rest;
    if b == "" {
      assert line[1..] == rest;
    } else {
      var n := if b[0] == '\\' then 2 else 1;
      LiteralEnds(b[n..], rest);
      assert line[n..] == b[n..] + "\"" + rest;
    }
  }

  // What is still to come from i on.
  function Rest(line: string, i: nat, inComment: bool, inString: bool): (string, bool) {
    Sanitized(if i <= |line| then line[i..] else "", if inComment then Comment else if inString then Literal else Code)
  }

  // One turn of the loop.
  lemma RestOne(line: string, i: nat, inComment: bool, inString: bool)
    requires i < |line| && !(inComment && inString)
    ensures
      Rest(line, i, inComment, inString) ==
        if inComment then if HasPrefix(line[i..], "*/") then Rest(line, i + 2, false, false) else Rest(line, i + 1, true, false)
        else if inString then
          if line[i] == '\\' then Rest(line, i + 2, false, true)
          else if line[i] == '"' then Kept('"', Rest(line, i + 1, false, false))
          else Rest(line, i + 1, false, true)
        else if HasPrefix(line[i..], "//") then ("", false)
        else if HasPrefix(line[i..], "/*") then Rest(line, i + 2, true, false)
        else if line[i] == '"' then Kept('"', Rest(line, i + 1, false, true))
        else Kept(line[i], Rest(line, i + 1, false, false))
  {
    var rest := line[i..];
    assert rest[1..] == line[i + 1..];
    if i + 1 < |line| {
      assert rest[2..] == line[i + 2..];
    }
  }

  lemma RestBounds(line: string, inComment: bool)
    ensures Rest(line, 0, inComment, false) == Sanitized(line, if inComment then Comment else Code)
    ensures forall i: nat, c: bool, s: bool | i >= |line| :: Rest(line, i, c, s) == ("", c)
  {
    assert line[0..] == line;
  }

  // Behind what has been written.
  function Behind(code: string, rest: (string, bool)): (string, bool) { (code + rest.0, rest.1) }

  lemma BehindOne(code: string, c: char, rest: (string, bool))
    ensures Behind(code, Kept(c, rest)) == Behind(code + [c], rest)
  {
    assert code + ([c] + rest.0) == code + [c] + rest.0;
  }

  lemma BehindEnds(code: string, rest: (string, bool))
    ensures Behind("", rest) == rest && Behind(code, ("", rest.1)) == (code, rest.1)
  {
    assert "" + rest.0 == rest.0 && code + "" == code;
  }

  method Sanitize(line: string, inBlockComment: bool) returns (code: string, open: bool)
    ensures (code, open) == Sanitized(line, if inBlockComment then Comment else Code)
  {
    hide Sanitized, Rest, HasPrefix, Behind, Kept;
    var inComment, inString := inBlockComment, false;
    var i: nat := 0;
    code := "";
    ghost var whole := Sanitized(line, if inBlockComment then Comment else Code);
    RestBounds(line, inBlockComment);
    BehindEnds(code, whole);
    while i < |line|
      invariant !(inComment && inString)
      invariant whole == Behind(code, Rest(line, i, inComment, inString))
    {
      RestOne(line, i, inComment, inString);
      if inComment {
        if HasPrefix(line[i..], "*/") {
          inComment := false;
          i := i + 1;
        }
      } else if inString {
        if line[i] == '\\' {
          i := i + 2;
          continue;
        }
        if line[i] == '"' {
          inString := false;
          BehindOne(code, '"', Rest(line, i + 1, false, false));
          code := code + ['"'];
        }
      } else if HasPrefix(line[i..], "//") {
        BehindEnds(code, ("", false));
        return code, false;
      } else if HasPrefix(line[i..], "/*") {
        inComment := true;
        i := i + 1;
      } else if line[i] == '"' {
        inString := true;
        BehindOne(code, '"', Rest(line, i + 1, false, true));
        code := code + ['"'];
      } else {
        BehindOne(code, line[i], Rest(line, i + 1, false, false));
        code := code + [line[i]];
      }
      i := i + 1;
    }
    open := inComment;
    BehindEnds(code, ("", open));
  }

  // ---------------------------------------------------------- one declaration

  predicate AsciiSpace(c: char) { c == ' ' || '\t' <= c <= '\r' }

  // The pattern's \s.
  predicate White(c: char) { AsciiSpace(c) && c != '\U{000B}' }

  // unicode.IsSpace on the bytes from i on: how many one white-space character takes there, if any.
  function SpaceAt(s: string, i: nat): (n: nat)
    requires i <= |s|
    ensures i + n <= |s|
  {
    if i < |s| && AsciiSpace(s[i]) then 1
    else if i + 1 < |s| && s[i] == '\U{00C2}' && (s[i + 1] == '\U{0085}' || s[i + 1] == '\U{00A0}') then 2
    else if i + 2 < |s| && WideSpace(s[i], s[i + 1], s[i + 2]) then 3
    else 0
  }

  // U+1680, U+2000 to U+200A, U+2028, U+2029, U+202F, U+205F and U+3000.
  predicate WideSpace(a: char, b: char, c: char) {
    || (a == '\U{00E1}' && b == '\U{009A}' && c == '\U{0080}')
    || (a == '\U{00E2}' && b == '\U{0080}' && ('\U{0080}' <= c <= '\U{008A}' || c == '\U{00A8}' || c == '\U{00A9}' || c == '\U{00AF}'))
    || (a == '\U{00E2}' && b == '\U{0081}' && c == '\U{009F}')
    || (a == '\U{00E3}' && b == '\U{0080}' && c == '\U{0080}')
  }
  predicate IdentStart(c: char) { 'A' <= c <= 'Z' || 'a' <= c <= 'z' || c == '_' }
  predicate IdentPart(c: char) { IdentStart(c) || '0' <= c <= '9' }

  // strings.TrimSpace, on the left.
  function SkipTrimmed(s: string, i: nat): (j: nat)
    requires i <= |s|
    ensures i <= j <= |s| && SpaceAt(s, j) == 0 && (SpaceAt(s, i) == 0 ==> j == i)
    decreases |s| - i
  {
    var n := SpaceAt(s, i);
    if n == 0 then i else SkipTrimmed(s, i + n)
  }

  function SkipWhite(s: string, i: nat): (j: nat)
    requires i <= |s|
    ensures i <= j <= |s| && (forall k :: i <= k < j ==> White(s[k])) && (j < |s| ==> !White(s[j]))
    decreases |s| - i
  {
    if i < |s| && White(s[i]) then SkipWhite(s, i + 1) else i
  }

  function SkipIdent(s: string, i: nat): (j: nat)
    requires i <= |s|
    ensures i <= j <= |s| && (forall k :: i <= k < j ==> IdentPart(s[k])) && (j < |s| ==> !IdentPart(s[j]))
    decreases |s| - i
  {
    if i < |s| && IdentPart(s[i]) then SkipIdent(s, i + 1) else i
  }

  // The name a line of code declares, if any: a name, then `=` or `{`.
  function DeclaredName(code: string): Option<string> {
    var i := SkipTrimmed(code, 0);
    if i == |code| || !IdentStart(code[i]) then None else
    var j := SkipIdent(code, i + 1);
    var k := SkipWhite(code, j);
    if k < |code| && (code[k] == '=' || code[k] == '{') then Some(code[i..j]) else None
  }

  predicate IsIdent(n: string) { n != "" && IdentStart(n[0]) && forall k :: 0 <= k < |n| ==> IdentPart(n[k]) }

  // From i on the line is the name n, white space, and `=` or `{` at k.
  predicate DeclarationAt(code: string, i: nat, n: string, k: nat) {
    && IsIdent(n) && i + |n| <= k < |code| && code[i..i + |n|] == n
    && (forall m :: i + |n| <= m < k ==> White(code[m])) && (code[k] == '=' || code[k] == '{')
  }

  // Exactly the lines the pattern matches.
  lemma DeclaresExactly(code: string, n: string)
    ensures DeclaredName(code) == Some(n) <==> exists k: nat :: DeclarationAt(code, SkipTrimmed(code, 0), n, k)
  {
    hide SkipTrimmed, DeclarationAt, DeclaredName;
    if DeclaredName(code) == Some(n) {
      NamedStands(code, n);
    }
    if k: nat :| DeclarationAt(code, SkipTrimmed(code, 0), n, k) {
      StandsNamed(code, n, k);
    }
  }

  lemma NamedStands(code: string, n: string)
    requires DeclaredName(code) == Some(n)
    ensures exists k: nat :: DeclarationAt(code, SkipTrimmed(code, 0), n, k)
  {
    hide SkipTrimmed, White, DeclarationAt;
    var i := SkipTrimmed(code, 0);
    NameStands(code, i, n, SkipWhite(code, SkipIdent(code, i + 1)));
  }

  lemma StandsNamed(code: string, n: string, k: nat)
    requires DeclarationAt(code, SkipTrimmed(code, 0), n, k)
    ensures DeclaredName(code) == Some(n)
  {
    hide SkipTrimmed, White, DeclarationAt;
    NameEnds(code, SkipTrimmed(code, 0), n, k);
  }

  lemma NameStands(code: string, i: nat, n: string, k: nat)
    requires i < |code| && IdentStart(code[i]) && n == code[i..SkipIdent(code, i + 1)]
    requires k == SkipWhite(code, SkipIdent(code, i + 1)) < |code| && (code[k] == '=' || code[k] == '{')
    ensures DeclarationAt(code, i, n, k)
  {
    hide White, IdentStart, IdentPart;
    var j := SkipIdent(code, i + 1);
    assert n[0] == code[i] && IdentPart(n[0]) by { StartIsPart(code[i]); }
    forall m | 0 <= m < |n| ensures IdentPart(n[m]) {
      assert n[m] == code[i + m];
    }
  }

  lemma StartIsPart(c: char)
    ensures IdentStart(c) ==> IdentPart(c)
  {
  }

  lemma NameEnds(code: string, i: nat, n: string, k: nat)
    requires DeclarationAt(code, i, n, k)
    ensures n != "" && i + |n| <= k < |code| && code[i..i + |n|] == n && (code[k] == '=' || code[k] == '{')
    ensures IdentStart(code[i]) && SkipIdent(code, i + 1) == i + |n| && SkipWhite(code, i + |n|) == k
  {
    var j := SkipIdent(code, i + 1);
    assert code[i] == n[0];
    forall m | i <= m < i + |n| ensures IdentPart(code[m]) {
      assert code[m] == n[m - i];
    }
    NoWhiteIdent(code[i + |n|]);
    var w := SkipWhite(code, i + |n|);
    NoWhiteIdent(code[k]);
  }

  lemma NoWhiteIdent(c: char)
    ensures IdentPart(c) ==> !White(c) && c != '=' && c != '{'
    ensures c == '=' || c == '{' ==> !White(c) && !IdentPart(c)
  {
  }

  // White space before the name does not count, and nothing else is skipped.
  lemma {:induction false} TrimmedLeft(code: string, i: nat, n: nat)
    requires i + n <= |code| && (forall k :: i <= k < i + n ==> code[k] in " \t\n\U{000B}\U{000C}\r")
    requires i + n < |code| ==> '!' <= code[i + n] <= '~'
    ensures SkipTrimmed(code, i) == i + n
    decreases n
  {
    if n > 0 {
      TrimmedLeft(code, i + 1, n - 1);
    }
  }

  // ------------------------------------------------------------- the whole file

  function Count(s: string, c: char): nat {
    if s == "" then 0 else (if s[0] == c then 1 else 0) + Count(s[1..], c)
  }

  function Deeper(depth: nat, code: string): nat {
    var d := depth + Count(code, '{') - Count(code, '}');
    if d < 0 then 0 else d
  }

  function Declares(code: string): set<string> {
    var name := DeclaredName(code);
    if name.Some? && KnownField(name.value) then {name.value} else {}
  }

  function FoundIn(lines: seq<string>, depth: nat, open: bool): set<string> {
    if lines == [] then {}
    else
      var (code, stillOpen) := Sanitized(lines[0], if open then Comment else Code);
      (if depth == 0 then Declares(code) else {}) + FoundIn(lines[1..], Deeper(depth, code), stillOpen)
  }

  // Whether a block comment is open where line k begins.
  function OpenAt(lines: seq<string>, k: nat): bool
    requires k <= |lines|
  {
    k > 0 && Sanitized(lines[k - 1], if OpenAt(lines, k - 1) then Comment else Code).1
  }

  function LineCode(lines: seq<string>, k: nat): string
    requires k < |lines|
  {
    Sanitized(lines[k], if OpenAt(lines, k) then Comment else Code).0
  }

  // The braces open where line k begins, never fewer than none.
  function DepthAt(lines: seq<string>, k: nat): nat
    requires k <= |lines|
  {
    if k == 0 then 0
    else
      var d := DepthAt(lines, k - 1) + Count(LineCode(lines, k - 1), '{') - Count(LineCode(lines, k - 1), '}');
      if d < 0 then 0 else d
  }

  ghost predicate SomeDeclares(lines: seq<string>, from: nat, n: string) {
    exists k: nat :: k >= from && DeclaresAt(lines, k, n)
  }

  // A field is declared if and only if some line that begins at depth zero declares it.
  lemma DeclaredExactly(raw: string, n: string)
    ensures n in Declared(raw) <==> KnownField(n) && SomeDeclares(Split(raw), 0, n)
  {
    hide KnownField, SomeDeclares, Sanitized, DeclaredName, Split;
    var lines := Split(raw);
    StartsFlat(lines);
    FoundFrom(lines, 0, n);
    assert lines[0..] == lines;
  }

  // Line k begins at depth zero, and its code declares n.
  predicate DeclaresAt(lines: seq<string>, k: nat, n: string) {
    k < |lines| && DepthAt(lines, k) == 0 && DeclaredName(LineCode(lines, k)) == Some(n)
  }

  lemma StartsFlat(lines: seq<string>)
    ensures DepthAt(lines, 0) == 0 && !OpenAt(lines, 0)
  {
  }

  lemma NextLine(lines: seq<string>, k: nat)
    requires k < |lines|
    ensures Sanitized(lines[k], if OpenAt(lines, k) then Comment else Code) == (LineCode(lines, k), OpenAt(lines, k + 1))
    ensures DepthAt(lines, k + 1) == Deeper(DepthAt(lines, k), LineCode(lines, k))
  {
  }

  lemma {:induction false} FoundFrom(lines: seq<string>, k: nat, n: string)
    requires k <= |lines|
    ensures n in FoundIn(lines[k..], DepthAt(lines, k), OpenAt(lines, k)) <==>
              KnownField(n) && SomeDeclares(lines, k, n)
    decreases |lines| - k
  {
    hide KnownField, DeclaredName, DepthAt, OpenAt, LineCode, Sanitized, Deeper, SomeDeclares;
    SomeFrom(lines, k, n);
    if k < |lines| {
      NextLine(lines, k);
      FoundFrom(lines, k + 1, n);
      assert lines[k..][0] == lines[k] && lines[k..][1..] == lines[k + 1..];
      assert n in Declares(LineCode(lines, k)) && DepthAt(lines, k) == 0 <==> KnownField(n) && DeclaresAt(lines, k, n);
    }
  }

  lemma SomeFrom(lines: seq<string>, k: nat, n: string)
    ensures SomeDeclares(lines, k, n) <==> DeclaresAt(lines, k, n) || SomeDeclares(lines, k + 1, n)
    ensures k >= |lines| ==> !SomeDeclares(lines, k, n)
  {
    hide DepthAt, LineCode, DeclaredName;
  }

  function Declared(raw: string): set<string> { FoundIn(Split(raw), 0, false) }

  method DeclaredFields(raw: string) returns (found: set<string>)
    ensures found == Declared(raw)
  {
    hide Sanitized, DeclaredName, KnownField, Split, Count;
    var lines := Split(raw);
    var depth: int, open := 0, false;
    found := {};
    for n := 0 to |lines|
      invariant depth >= 0
      invariant Declared(raw) == found + FoundIn(lines[n..], depth, open)
    {
      ghost var before, was := found, open;
      var code;
      code, open := Sanitize(lines[n], open);
      assert (code, open) == Sanitized(lines[n], if was then Comment else Code);
      assert lines[n..][1..] == lines[n + 1..];
      if depth == 0 {
        var name := DeclaredName(code);
        if name.Some? && KnownField(name.value) {
          found := found + {name.value};
        }
      }
      assert found == before + if depth == 0 then Declares(code) else {};
      depth := depth + Count(code, '{') - Count(code, '}');
      if depth < 0 {
        depth := 0;
      }
    }
  }
}
