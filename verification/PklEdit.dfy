/**
 * The one-line image editor of internal/config/edit.go: which line it takes for the image
 * declaration, what it puts there, and what a second edit finds.
 */
module PklEdit {
  import opened Options
  import opened PklScan
  import opened PklString
  import opened Text

  datatype Edit = Edited(text: string) | Refused(reason: string)

  const TWICE := "image is declared more than once"
  const NOT_LITERAL := "image is not a plain string literal"

  // ------------------------------------------------------------- one line

  function LineEnd(src: string, i: nat): (e: nat)
    requires i <= |src|
    ensures i <= e <= |src| && (e < |src| ==> src[e] == '\n')
    ensures forall k :: i <= k < e ==> src[k] != '\n'
    decreases |src| - i
  {
    if i == |src| || src[i] == '\n' then i else LineEnd(src, i + 1)
  }

  function LineAt(src: string, i: nat): string
    requires i <= |src|
  {
    src[i..LineEnd(src, i)]
  }

  predicate Blank(c: char) { c == ' ' || c == '\t' }
  predicate NameStart(c: char) { 'A' <= c <= 'Z' || 'a' <= c <= 'z' || c == '_' }
  predicate NamePart(c: char) { NameStart(c) || '0' <= c <= '9' || c == '.' }

  function SkipBlanks(s: string, i: nat): (j: nat)
    requires i <= |s|
    ensures i <= j <= |s| && (forall k :: i <= k < j ==> Blank(s[k])) && (j < |s| ==> !Blank(s[j]))
    decreases |s| - i
  {
    if i < |s| && Blank(s[i]) then SkipBlanks(s, i + 1) else i
  }

  function SkipName(s: string, i: nat): (j: nat)
    requires i <= |s|
    ensures i <= j <= |s| && (forall k :: i <= k < j ==> NamePart(s[k])) && (j < |s| ==> !NamePart(s[j]))
    decreases |s| - i
  {
    if i < |s| && NamePart(s[i]) then SkipName(s, i + 1) else i
  }

  // Where `image`, between blanks at the line's head, is over.
  function AfterImage(line: string): (r: Option<nat>)
    ensures r.Some? ==> r.value <= |line|
  {
    var i := SkipBlanks(line, 0);
    if i + 5 <= |line| && line[i..i + 5] == "image" then Some(SkipBlanks(line, i + 5)) else None
  }

  predicate IsImageDecl(line: string) {
    var j := AfterImage(line);
    j.Some? && j.value < |line| && (line[j.value] == ':' || line[j.value] == '=')
  }

  // Past the type annotation at j, if there is one and it is a plain, maybe nullable, name.
  function AfterType(line: string, j: nat): (r: Option<nat>)
    requires j <= |line|
    ensures r.Some? ==> j <= r.value <= |line|
  {
    if j < |line| && line[j] == ':' then
      var a := SkipBlanks(line, j + 1);
      if a < |line| && NameStart(line[a]) then
        var b := SkipName(line, a + 1);
        Some(SkipBlanks(line, if b < |line| && line[b] == '?' then b + 1 else b))
      else None
    else Some(j)
  }

  // Where the literal's opening quote is.
  function OpeningQuote(line: string): (r: Option<nat>)
    ensures r.Some? ==> r.value < |line| && line[r.value] == '"'
  {
    var j := AfterImage(line);
    if j.None? then None else
    var k := AfterType(line, j.value);
    if k.None? || k.value == |line| || line[k.value] != '=' then None else
    var q := SkipBlanks(line, k.value + 1);
    if q < |line| && line[q] == '"' then Some(q) else None
  }

  // Just past the first quote at or after i that no backslash takes.
  function ClosingQuote(line: string, i: nat): (r: Option<nat>)
    requires i <= |line|
    ensures r.Some? ==> i < r.value <= |line| && line[r.value - 1] == '"'
    decreases |line| - i
  {
    if i == |line| then None
    else if line[i] == '"' then Some(i + 1)
    else if line[i] != '\\' then ClosingQuote(line, i + 1)
    else if i + 1 == |line| then None
    else ClosingQuote(line, i + 2)
  }

  // Nothing but blanks and a line comment.
  predicate IsTail(s: string) {
    var i := SkipBlanks(s, 0);
    i == |s| || HasPrefix(s[i..], "//")
  }

  // The literal's place in an image line, quotes included.
  function ImageLiteral(line: string): (r: Option<(nat, nat)>)
    ensures r.Some? ==> r.value.0 + 1 < r.value.1 <= |line|
    ensures r.Some? ==> line[r.value.0] == '"' && line[r.value.1 - 1] == '"'
  {
    var p := OpeningQuote(line);
    if p.None? then None else
    var q := ClosingQuote(line, p.value + 1);
    if q.None? || !IsTail(line[q.value..]) then None else Some((p.value, q.value))
  }

  // -------------------------------------------------- the pattern, part by part

  predicate Blanks(s: string, i: nat, j: nat) { i <= j <= |s| && forall k :: i <= k < j ==> Blank(s[k]) }

  // `[A-Za-z_][A-Za-z0-9_.]*`
  predicate NameTo(s: string, d: nat, e: nat) {
    d < e <= |s| && NameStart(s[d]) && forall k :: d < k < e ==> NamePart(s[k])
  }

  // `\??`
  predicate MarkTo(s: string, e: nat, f: nat) { f == e || (e < |s| && s[e] == '?' && f == e + 1) }

  // `[ \t]*image[ \t]*`
  ghost predicate ImageTo(s: string, b: nat) {
    exists a: nat :: Blanks(s, 0, a) && a + 5 <= |s| && s[a..a + 5] == "image" && Blanks(s, a + 5, b)
  }

  // `(?::[ \t]*name\??[ \t]*)?`
  ghost predicate TypeTo(s: string, b: nat, c: nat) {
    || b == c
    || (b < |s| && s[b] == ':'
        && exists d: nat, e: nat, f: nat :: Blanks(s, b + 1, d) && NameTo(s, d, e) && MarkTo(s, e, f) && Blanks(s, f, c))
  }

  ghost predicate HeadTo(s: string, p: nat) {
    exists b: nat, c: nat :: ImageTo(s, b) && TypeTo(s, b, c) && c < |s| && s[c] == '=' && Blanks(s, c + 1, p)
  }

  // `(?:[^"\\]|\\.)*`
  predicate Escapes(s: string)
    decreases |s|
  {
    || s == ""
    || (s[0] != '"' && s[0] != '\\' && Escapes(s[1..]))
    || (s[0] == '\\' && |s| > 1 && Escapes(s[2..]))
  }

  // `[ \t]*(?://.*)?`
  ghost predicate TailOf(s: string) {
    exists n: nat :: Blanks(s, 0, n) && (n == |s| || HasPrefix(s[n..], "//"))
  }

  ghost predicate Matches(line: string, p: nat, q: nat) {
    && HeadTo(line, p) && p + 1 < q <= |line| && line[p] == '"' && line[q - 1] == '"'
    && Escapes(line[p + 1..q - 1]) && TailOf(line[q..])
  }

  lemma SkipIs(s: string, i: nat, j: nat)
    requires Blanks(s, i, j) && (j < |s| ==> !Blank(s[j]))
    ensures SkipBlanks(s, i) == j
  {
  }

  lemma ImageEndsAt(s: string, b: nat)
    requires ImageTo(s, b) && b < |s| && !Blank(s[b])
    ensures AfterImage(s) == Some(b)
  {
    var a: nat :| Blanks(s, 0, a) && a + 5 <= |s| && s[a..a + 5] == "image" && Blanks(s, a + 5, b);
    assert s[a] == s[a..a + 5][0] == 'i';
    SkipIs(s, 0, a);
    SkipIs(s, a + 5, b);
  }

  lemma TypeEndsAt(s: string, b: nat, c: nat)
    requires TypeTo(s, b, c) && b <= |s| && c < |s| && s[c] == '='
    ensures AfterType(s, b) == Some(c)
  {
    if b != c {
      hide Blanks, NameTo, MarkTo, AfterType;
      var d: nat, e: nat, f: nat :| Blanks(s, b + 1, d) && NameTo(s, d, e) && MarkTo(s, e, f) && Blanks(s, f, c);
      NameEndsAt(s, d, e, f, c);
      TypedEndsAt(s, b, c, d, e, f);
    }
  }

  lemma NameEndsAt(s: string, d: nat, e: nat, f: nat, c: nat)
    requires NameTo(s, d, e) && MarkTo(s, e, f) && Blanks(s, f, c) && c < |s| && s[c] == '='
    ensures d < e <= f <= c && NameStart(s[d]) && SkipName(s, d + 1) == e && f == if s[e] == '?' then e + 1 else e
  {
    assert f < c ==> Blank(s[f]);
    assert !NamePart(s[e]);
  }

  lemma TypedEndsAt(s: string, b: nat, c: nat, d: nat, e: nat, f: nat)
    requires b < d < e <= f <= c < |s| && s[b] == ':' && s[c] == '='
    requires Blanks(s, b + 1, d) && NameStart(s[d]) && SkipName(s, d + 1) == e && Blanks(s, f, c)
    requires f == if s[e] == '?' then e + 1 else e
    ensures AfterType(s, b) == Some(c)
  {
    hide SkipBlanks, SkipName, Blanks;
    SkipIs(s, b + 1, d);
    SkipIs(s, f, c);
  }

  lemma HeadMeans(line: string, p: nat)
    ensures OpeningQuote(line) == Some(p) <==> HeadTo(line, p) && p < |line| && line[p] == '"'
  {
    hide HeadTo, OpeningQuote;
    if HeadTo(line, p) && p < |line| && line[p] == '"' {
      MatchingOpens(line, p);
    }
    if OpeningQuote(line) == Some(p) {
      OpeningMatches(line, p);
    }
  }

  lemma MatchingOpens(line: string, p: nat)
    requires HeadTo(line, p) && p < |line| && line[p] == '"'
    ensures OpeningQuote(line) == Some(p)
  {
    hide AfterImage, AfterType, ImageTo, NameTo, MarkTo, Blanks;
    var b: nat, c: nat :| ImageTo(line, b) && TypeTo(line, b, c) && c < |line| && line[c] == '=' && Blanks(line, c + 1, p);
    ImageEndsAt(line, b);
    TypeEndsAt(line, b, c);
    SkipIs(line, c + 1, p);
  }

  lemma OpeningMatches(line: string, p: nat)
    requires OpeningQuote(line) == Some(p)
    ensures HeadTo(line, p)
  {
    hide AfterImage, AfterType, ImageTo, TypeTo;
    var b := AfterImage(line).value;
    var c := AfterType(line, b).value;
    ImageMatches(line, b);
    TypeMatches(line, b, c);
    assert Blanks(line, c + 1, p);
  }

  lemma ImageMatches(line: string, b: nat)
    requires AfterImage(line) == Some(b)
    ensures ImageTo(line, b)
  {
    var a := SkipBlanks(line, 0);
    assert Blanks(line, 0, a) && Blanks(line, a + 5, b);
  }

  lemma TypeMatches(line: string, b: nat, c: nat)
    requires b <= |line| && AfterType(line, b) == Some(c)
    ensures TypeTo(line, b, c)
  {
    if b < |line| && line[b] == ':' {
      var d := SkipBlanks(line, b + 1);
      var e := SkipName(line, d + 1);
      var f := if e < |line| && line[e] == '?' then e + 1 else e;
      assert Blanks(line, b + 1, d) && NameTo(line, d, e) && MarkTo(line, e, f) && Blanks(line, f, c);
    }
  }

  lemma {:induction false} ClosingMeans(line: string, i: nat, r: nat)
    requires i <= |line|
    ensures ClosingQuote(line, i) == Some(r) <==> i < r <= |line| && line[r - 1] == '"' && Escapes(line[i..r - 1])
    decreases |line| - i
  {
    if i < |line| && i + 1 < r <= |line| {
      var s := line[i..r - 1];
      assert s[0] == line[i] && s[1..] == line[i + 1..r - 1];
      if |s| > 1 { assert s[2..] == line[i + 2..r - 1]; }
    }
    if i < |line| && line[i] != '"' {
      if line[i] != '\\' {
        ClosingMeans(line, i + 1, r);
      } else if i + 1 < |line| {
        ClosingMeans(line, i + 2, r);
      }
    }
  }

  // The literal is exactly where the whole pattern matches the line.
  lemma LiteralIsTheMatch(line: string, p: nat, q: nat)
    ensures ImageLiteral(line) == Some((p, q)) <==> Matches(line, p, q)
  {
    hide OpeningQuote, ClosingQuote, HeadTo, Escapes;
    HeadMeans(line, p);
    if p < |line| { ClosingMeans(line, p + 1, q); }
    if q <= |line| { TailMeans(line[q..]); }
  }

  // `[ \t]*image[ \t]*[:=]`: a line is a declaration exactly where this pattern matches.
  lemma DeclIsTheMatch(line: string)
    ensures IsImageDecl(line) <==> exists b: nat :: ImageTo(line, b) && b < |line| && line[b] in ":="
  {
    hide ImageTo, AfterImage;
    if IsImageDecl(line) {
      ImageMatches(line, AfterImage(line).value);
    }
    if b: nat :| ImageTo(line, b) && b < |line| && line[b] in ":=" {
      ImageEndsAt(line, b);
    }
  }

  lemma TailMeans(s: string)
    ensures IsTail(s) <==> TailOf(s)
  {
    assert Blanks(s, 0, SkipBlanks(s, 0));
    if TailOf(s) {
      var n: nat :| Blanks(s, 0, n) && (n == |s| || HasPrefix(s[n..], "//"));
      assert n < |s| ==> s[n] == s[n..][0] == s[n..][..2][0] == '/';
      SkipIs(s, 0, n);
    }
  }

  // ------------------------------------------------------------ the whole file

  predicate Decl(src: string, i: nat) { TopLevel(src, i) && IsImageDecl(LineAt(src, i)) }

  // Those of `starts` whose line is an image declaration.
  function Declaring(src: string, starts: seq<nat>): seq<nat>
    requires forall k :: 0 <= k < |starts| ==> starts[k] <= |src|
  {
    if starts == [] then []
    else
      var n := |starts| - 1;
      Declaring(src, starts[..n]) + if IsImageDecl(LineAt(src, starts[n])) then [starts[n]] else []
  }

  function Decls(src: string): seq<nat> {
    Declaring(src, TopLevelStarts(src))
  }

  function Terminated(src: string): string {
    if src != "" && src[|src| - 1] != '\n' then src + "\n" else src
  }

  function ImageLine(ref: string): string { "image = " + Literal(ref) }

  function WithLiteral(line: string, ref: string): string
    requires ImageLiteral(line).Some?
  {
    var at := ImageLiteral(line).value;
    line[..at.0] + Literal(ref) + line[at.1..]
  }

  function WithLine(src: string, i: nat, line: string): string
    requires i <= |src|
  {
    src[..i] + line + src[LineEnd(src, i)..]
  }

  function Rewritten(src: string, ref: string): Edit {
    var found := Decls(src);
    if found == [] then Edited(Terminated(src) + ImageLine(ref) + "\n")
    else if |found| > 1 then Refused(TWICE)
    else
      DeclsAreTheDeclarations(src);
      var line := LineAt(src, found[0]);
      if ImageLiteral(line).None? then Refused(NOT_LITERAL)
      else Edited(WithLine(src, found[0], WithLiteral(line, ref)))
  }

  // The value the file gives `image`, read back from its one plain declaration.
  function ImageOf(src: string): Option<string> {
    var found := Decls(src);
    if |found| != 1 then None
    else
      DeclsAreTheDeclarations(src);
      var line := LineAt(src, found[0]);
      match ImageLiteral(line)
      case None => None
      case Some(at) => Decode(line[at.0 + 1..at.1 - 1])
  }

  ghost predicate NoDecl(src: string) { forall i: nat :: !Decl(src, i) }

  ghost predicate OnlyDecl(src: string, i: nat) { forall k: nat :: Decl(src, k) <==> k == i }

  // One line more, behind all there was: and a line end before it where the last line had none.
  predicate OneLineMore(src: string, ref: string, text: string) {
    && src <= text
    && text[|src|..] == (if src == "" || src[|src| - 1] == '\n' then "" else "\n") + "image = " + Literal(ref) + "\n"
  }

  // The literal that stands in the line at i, from p up to q, and nothing else, is another.
  ghost predicate LiteralReplaced(src: string, ref: string, text: string, i: nat, p: nat, q: nat) {
    && OnlyDecl(src, i) && i <= |src| && Matches(LineAt(src, i), p, q) && i + p <= i + q <= |src|
    && text == src[..i + p] + Literal(ref) + src[i + q..]
  }

  // What an edit comes to, by the file's own characters.
  ghost predicate Answers(src: string, ref: string, r: Edit) {
    match r
    case Edited(text) =>
      || (NoDecl(src) && OneLineMore(src, ref, text))
      || exists i: nat, p: nat, q: nat :: LiteralReplaced(src, ref, text, i, p, q)
    case Refused(reason) =>
      || (reason == TWICE && exists i: nat, k: nat :: i != k && Decl(src, i) && Decl(src, k))
      || (reason == NOT_LITERAL && exists i: nat :: OnlyDecl(src, i) && NoMatch(src, i))
  }

  ghost predicate NoMatch(src: string, i: nat) {
    i <= |src| && forall p: nat, q: nat :: !Matches(LineAt(src, i), p, q)
  }

  lemma RewrittenAnswers(src: string, ref: string)
    ensures Answers(src, ref, Rewritten(src, ref))
  {
    hide Decl, Declaring, TopLevelStarts, Matches, ImageLiteral, Literal;
    DeclsAreTheDeclarations(src);
    DeclCases(src);
    var found := Decls(src);
    if found == [] {
      Appends(src, ref);
    } else if |found| == 1 {
      var i := found[0];
      assert i in found && OnlyDecl(src, i);
      if ImageLiteral(LineAt(src, i)).Some? {
        Replaces(src, ref, i);
      } else {
        forall p: nat, q: nat ensures !Matches(LineAt(src, i), p, q) {
          LiteralIsTheMatch(LineAt(src, i), p, q);
        }
        assert NoMatch(src, i);
      }
    } else {
      assert found[0] in found && found[1] in found && found[0] != found[1];
      assert Decl(src, found[0]) && Decl(src, found[1]);
    }
  }

  lemma Appends(src: string, ref: string)
    ensures OneLineMore(src, ref, Terminated(src) + ImageLine(ref) + "\n")
  {
    hide Literal;
    var end := if src == "" || src[|src| - 1] == '\n' then "" else "\n";
    assert Terminated(src) + ImageLine(ref) + "\n" == src + (end + "image = " + Literal(ref) + "\n");
  }

  lemma Replaces(src: string, ref: string, i: nat)
    requires i <= |src| && OnlyDecl(src, i) && ImageLiteral(LineAt(src, i)).Some?
    ensures
      var at := ImageLiteral(LineAt(src, i)).value;
      LiteralReplaced(src, ref, WithLine(src, i, WithLiteral(LineAt(src, i), ref)), i, at.0, at.1)
  {
    hide Decl, Matches, Literal, ImageLiteral, OnlyDecl;
    var line := LineAt(src, i);
    var at := ImageLiteral(line).value;
    LiteralIsTheMatch(line, at.0, at.1);
    Spliced(src, i, LineEnd(src, i), at.0, at.1, Literal(ref));
  }

  lemma Spliced(src: string, i: nat, e: nat, p: nat, q: nat, literal: string)
    requires i <= e <= |src| && p <= q <= e - i
    ensures src[..i] + (src[i..e][..p] + literal + src[i..e][q..]) + src[e..] == src[..i + p] + literal + src[i + q..]
  {
    assert src[..i] + src[i..e][..p] == src[..i + p];
    assert src[i..e][q..] + src[e..] == src[i + q..];
    assert src[..i] + (src[i..e][..p] + literal + src[i..e][q..]) + src[e..]
        == (src[..i] + src[i..e][..p]) + literal + (src[i..e][q..] + src[e..]);
  }

  method FindDecls(src: string) returns (found: seq<nat>)
    ensures found == Decls(src)
  {
    var starts := TopLevelLineStarts(src);
    found := [];
    for k := 0 to |starts|
      invariant found == Declaring(src, starts[..k])
    {
      assert starts[..k + 1][..k] == starts[..k];
      if IsImageDecl(src[starts[k]..LineEnd(src, starts[k])]) {
        found := found + [starts[k]];
      }
    }
    assert starts[..|starts|] == starts;
  }

  method WithImage(src: string, ref: string) returns (r: Edit)
    ensures r == Rewritten(src, ref)
    ensures Answers(src, ref, r)
  {
    hide TopLevelStarts, Declaring, Decl, Answers;
    RewrittenAnswers(src, ref);
    var literal := Literal(ref);
    var found := FindDecls(src);
    if |found| == 0 {
      var base := src;
      if src != "" && src[|src| - 1] != '\n' {
        base := base + "\n";
      }
      assert base + "image = " + literal + "\n" == base + ImageLine(ref) + "\n";
      return Edited(base + "image = " + literal + "\n");
    } else if |found| > 1 {
      return Refused(TWICE);
    }
    DeclsAreTheDeclarations(src);
    var start, end := found[0], LineEnd(src, found[0]);
    var line := src[start..end];
    var m := ImageLiteral(line);
    if m.None? {
      return Refused(NOT_LITERAL);
    }
    var m1, m2 := line[..m.value.0], line[m.value.1..];
    assert src[..start] + m1 + literal + m2 + src[end..] == WithLine(src, start, WithLiteral(line, ref));
    return Edited(src[..start] + m1 + literal + m2 + src[end..]);
  }

  // ------------------------------------------------- which lines are declarations

  predicate Increasing(s: seq<nat>) { forall a, b :: 0 <= a < b < |s| ==> s[a] < s[b] }

  lemma {:induction false} DeclaringMeans(src: string, starts: seq<nat>)
    requires forall k :: 0 <= k < |starts| ==> starts[k] <= |src|
    requires Increasing(starts)
    ensures forall i :: i in Declaring(src, starts) <==> i in starts && i <= |src| && IsImageDecl(LineAt(src, i))
    ensures Increasing(Declaring(src, starts))
  {
    if starts != [] {
      var n := |starts| - 1;
      DeclaringMeans(src, starts[..n]);
      var before := Declaring(src, starts[..n]);
      assert starts == starts[..n] + [starts[n]];
      forall a, b | 0 <= a < b < |Declaring(src, starts)|
        ensures Declaring(src, starts)[a] < Declaring(src, starts)[b]
      {
        assert before[a] in before;
      }
    }
  }

  lemma DeclsAreTheDeclarations(src: string)
    ensures forall i :: i in Decls(src) <==> 0 <= i && Decl(src, i)
    ensures Increasing(Decls(src))
    ensures forall k :: 0 <= k < |Decls(src)| ==> 0 <= Decls(src)[k] < |src|
  {
    StartsAreTheTopLevelLines(src, |src|);
    DeclaringMeans(src, TopLevelStarts(src));
    forall k | 0 <= k < |Decls(src)| ensures 0 <= Decls(src)[k] < |src| {
      assert Decls(src)[k] in Decls(src);
    }
  }

  lemma TheOnlyDecl(src: string, i: nat)
    requires Decl(src, i) && forall k: nat :: Decl(src, k) ==> k == i
    ensures Decls(src) == [i]
  {
    DeclsAreTheDeclarations(src);
    var found := Decls(src);
    assert i in found;
    var last := |found| - 1;
    assert found[0] in found && found[last] in found;
  }

  lemma DeclCases(src: string)
    ensures Decls(src) == [] <==> forall i: nat :: !Decl(src, i)
    ensures |Decls(src)| == 1 ==> Decl(src, Decls(src)[0]) && forall i: nat :: Decl(src, i) ==> i == Decls(src)[0]
  {
    DeclsAreTheDeclarations(src);
    var found := Decls(src);
    if found != [] {
      assert found[0] in found;
    }
    forall i: nat | Decl(src, i) && |found| == 1 ensures i == found[0] {
      assert i in found;
    }
  }
}
