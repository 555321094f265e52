/**
 * The words, strings and marks of a rendered file, told apart without any knowledge of how it was
 * rendered: a reading for the renderer of internal/config/write.go to be held against.
 */
module PklTokens {
  import opened Options
  import opened PklScan
  import opened PklString
  import opened PklRender

  datatype Token = Word(text: string) | Str(text: string) | Sym(c: char)

  // Pkl separates members by line ends or semicolons.
  predicate Blank(c: char) { c == ' ' || c == '\n' || c == ';' }
  predicate Symbol(c: char) { c == '{' || c == '}' || c == '[' || c == ']' || c == '=' }
  predicate WordChar(c: char) { !Blank(c) && !Symbol(c) && c != '"' }

  predicate IsWord(s: string) { s != "" && forall k :: 0 <= k < |s| ==> WordChar(s[k]) }

  // How many word characters s begins with.
  function WordLength(s: string): (n: nat)
    ensures n <= |s| && (forall k :: 0 <= k < n ==> WordChar(s[k])) && (n < |s| ==> !WordChar(s[n]))
  {
    if s == "" || !WordChar(s[0]) then 0 else 1 + WordLength(s[1..])
  }

  // Where the quote is that closes a string, counted from just past the one that opened it.
  function BodyLength(s: string): (n: Option<nat>)
    ensures n.Some? ==> n.value < |s|
    decreases |s|
  {
    if s == "" then None
    else if s[0] == '"' then Some(0)
    else if s[0] == '\\' then if |s| == 1 then None else Further(2, BodyLength(s[2..]))
    else Further(1, BodyLength(s[1..]))
  }

  function Further(k: nat, n: Option<nat>): Option<nat> { if n.Some? then Some(k + n.value) else None }

  function After(t: seq<Token>, rest: Option<seq<Token>>): Option<seq<Token>> {
    if rest.Some? then Some(t + rest.value) else None
  }

  // None for text with a string that is not closed or not to be decoded.
  function Tokens(s: string): Option<seq<Token>>
    decreases |s|
  {
    if s == "" then Some([])
    else if Blank(s[0]) then Tokens(s[1..])
    else if Symbol(s[0]) then After([Sym(s[0])], Tokens(s[1..]))
    else if s[0] == '"' then
      var n := BodyLength(s[1..]);
      if n.None? then None
      else
        var text := Decode(s[1..n.value + 1]);
        if text.None? then None else After([Str(text.value)], Tokens(s[n.value + 2..]))
    else
      var n := WordLength(s);
      After([Word(s[..n])], Tokens(s[n..]))
  }

  // ------------------------------------------------------------ text that reads as tokens

  // Nothing that follows can run on from the end of s.
  predicate Loose(s: string) { s == "" || !WordChar(s[|s| - 1]) }

  predicate Apart(a: string, b: string) { Loose(a) || b == "" || !WordChar(b[0]) }

  // Whatever follows it, a reads as t.
  ghost predicate Lexes(a: string, t: seq<Token>) {
    forall rest: string :: Apart(a, rest) ==> Tokens(a + rest) == After(t, Tokens(rest))
  }

  lemma LexesWhole(a: string, t: seq<Token>)
    requires Lexes(a, t)
    ensures Tokens(a) == Some(t)
  {
    assert Apart(a, "") && a + "" == a;
    assert t + [] == t;
  }

  lemma AfterNothing(r: Option<seq<Token>>)
    ensures After([], r) == r
  {
    if r.Some? {
      assert [] + r.value == r.value;
    }
  }

  lemma AfterBoth(t: seq<Token>, u: seq<Token>, r: Option<seq<Token>>)
    ensures After(t, After(u, r)) == After(t + u, r)
  {
    if r.Some? {
      assert t + (u + r.value) == t + u + r.value;
    }
  }

  lemma LexesNothing()
    ensures Lexes("", [])
  {
    hide Tokens;
    forall rest: string ensures Tokens("" + rest) == After([], Tokens(rest)) {
      assert "" + rest == rest;
      AfterNothing(Tokens(rest));
    }
  }

  lemma LexesBoth(a: string, t: seq<Token>, b: string, u: seq<Token>)
    requires Lexes(a, t) && Lexes(b, u) && Apart(a, b) && (b == "" ==> Loose(a))
    ensures Lexes(a + b, t + u)
    ensures Loose(b) && b != "" ==> Loose(a + b)
    ensures b == "" ==> Loose(a + b)
  {
    hide Tokens, Lexes;
    if b == "" {
      assert a + b == a;
    } else {
      assert (a + b)[|a + b| - 1] == b[|b| - 1];
    }
    LexesTogether(a, t, b, u);
  }

  lemma LexesTogether(a: string, t: seq<Token>, b: string, u: seq<Token>)
    requires Lexes(a, t) && Lexes(b, u) && Apart(a, b) && (b == "" ==> Loose(a))
    ensures Lexes(a + b, t + u)
  {
    hide Tokens, After;
    forall rest: string | Apart(a + b, rest) ensures Tokens(a + b + rest) == After(t + u, Tokens(rest)) {
      BothApart(a, b, rest);
      assert a + b + rest == a + (b + rest);
      assert Tokens(a + (b + rest)) == After(t, Tokens(b + rest));
      assert Tokens(b + rest) == After(u, Tokens(rest));
      AfterBoth(t, u, Tokens(rest));
    }
  }

  lemma BothApart(a: string, b: string, rest: string)
    requires Apart(a, b) && (b == "" ==> Loose(a)) && Apart(a + b, rest)
    ensures Apart(b, rest) && Apart(a, b + rest)
  {
    if b != "" {
      assert (b + rest)[0] == b[0];
      assert (a + b)[|a + b| - 1] == b[|b| - 1];
    }
  }

  lemma BlankFirst(c: char, rest: string)
    requires Blank(c)
    ensures Tokens([c] + rest) == Tokens(rest)
  {
    assert ([c] + rest)[1..] == rest;
  }

  lemma LexesBlank(c: char)
    requires Blank(c)
    ensures Lexes([c], []) && Loose([c])
  {
    forall rest: string ensures Tokens([c] + rest) == After([], Tokens(rest)) {
      BlankFirst(c, rest);
      AfterNothing(Tokens(rest));
    }
  }

  lemma {:induction false} LexesSpaces(n: nat)
    ensures Lexes(Repeat(' ', n), []) && Loose(Repeat(' ', n))
  {
    if n == 0 {
      LexesNothing();
      assert Repeat(' ', 0) == "";
    } else {
      LexesSpaces(n - 1);
      LexesBlank(' ');
      LexesBoth(Repeat(' ', n - 1), [], " ", []);
      assert Repeat(' ', n) == Repeat(' ', n - 1) + " ";
    }
  }

  lemma LexesSymbol(c: char)
    requires Symbol(c)
    ensures Lexes([c], [Sym(c)]) && Loose([c])
  {
    forall rest: string ensures Tokens([c] + rest) == After([Sym(c)], Tokens(rest)) {
      SymbolFirst(c, rest);
    }
  }

  lemma SymbolFirst(c: char, rest: string)
    requires Symbol(c)
    ensures Tokens([c] + rest) == After([Sym(c)], Tokens(rest))
  {
    assert ([c] + rest)[1..] == rest;
  }

  lemma {:induction false} WordLengthIs(w: string, rest: string)
    requires (forall k :: 0 <= k < |w| ==> WordChar(w[k])) && (rest == "" || !WordChar(rest[0]))
    ensures WordLength(w + rest) == |w|
  {
    if w == "" {
      assert w + rest == rest;
    } else {
      assert (w + rest)[1..] == w[1..] + rest;
      WordLengthIs(w[1..], rest);
    }
  }

  lemma LexesWord(w: string)
    requires IsWord(w)
    ensures Lexes(w, [Word(w)])
  {
    forall rest: string | Apart(w, rest) ensures Tokens(w + rest) == After([Word(w)], Tokens(rest)) {
      WordLengthIs(w, rest);
      assert (w + rest)[0] == w[0];
      assert (w + rest)[..|w|] == w && (w + rest)[|w|..] == rest;
    }
  }

  // A word with a blank after it.
  lemma LexesTerm(w: string)
    requires IsWord(w)
    ensures Lexes(w + " ", [Word(w)]) && Loose(w + " ")
  {
    LexesWord(w);
    LexesBlank(' ');
    LexesBoth(w, [Word(w)], " ", []);
    assert [Word(w)] + [] == [Word(w)];
  }

  lemma LexesEquals()
    ensures Lexes("= ", [Sym('=')]) && Loose("= ")
  {
    LexesSymbol('=');
    LexesBlank(' ');
    LexesBoth("=", [Sym('=')], " ", []);
    assert "=" + " " == "= " && [Sym('=')] + [] == [Sym('=')];
  }

  lemma {:induction false} BodyLengthIs(s: string, rest: string)
    ensures BodyLength(Body(s, true) + "\"" + rest) == Some(|Body(s, true)|)
  {
    var after := "\"" + rest;
    if s == "" {
      assert Body(s, true) + "\"" + rest == after;
    } else {
      var c, tail := Spell(s[0], true), Body(s[1..], true);
      BodyLengthIs(s[1..], rest);
      assert Body(s, true) + "\"" + rest == c + (tail + "\"" + rest);
      BodyOneMore(c, tail + "\"" + rest);
    }
  }

  lemma BodyOneMore(c: string, rest: string)
    requires (|c| == 1 && c[0] != '"' && c[0] != '\\') || (|c| == 2 && c[0] == '\\')
    ensures BodyLength(c + rest) == Further(|c|, BodyLength(rest))
  {
    assert (c + rest)[|c|..] == rest;
  }

  lemma LexesQuote(s: string)
    ensures Lexes(Quote(s), [Str(s)]) && Loose(Quote(s))
  {
    forall rest: string ensures Tokens(Quote(s) + rest) == After([Str(s)], Tokens(rest)) {
      QuoteFirst(s, rest);
    }
    assert Quote(s)[|Quote(s)| - 1] == '"';
  }

  lemma QuoteFirst(s: string, rest: string)
    ensures Tokens(Quote(s) + rest) == After([Str(s)], Tokens(rest))
  {
    hide Body, Decode, BodyLength;
    var body := Body(s, true);
    var t := Quote(s) + rest;
    BodyLengthIs(s, rest);
    DecodeBody(s, true);
    assert t[0] == '"' && t[1..] == body + "\"" + rest;
    assert t[1..|body| + 1] == body && t[|body| + 2..] == rest;
  }

  // -------------------------------------------------------------- pieces and lines

  ghost predicate LineLexes(line: Line, t: seq<Token>) { Lexes(Spelled(line), t) }

  predicate LooseLine(line: Line) { Loose(Spelled(line)) }

  lemma LineNothing()
    ensures LineLexes([], []) && LooseLine([])
  {
    LexesNothing();
  }

  lemma LinePiece(p: Piece, t: seq<Token>)
    requires Lexes(SpellPiece(p), t)
    ensures LineLexes([p], t) && (LooseLine([p]) <==> Loose(SpellPiece(p)))
  {
    assert [p][1..] == [];
    assert SpellPiece(p) + "" == SpellPiece(p);
    assert Spelled([p]) == SpellPiece(p) + Spelled([]);
  }

  lemma LineBoth(a: Line, t: seq<Token>, b: Line, u: seq<Token>)
    requires LineLexes(a, t) && LineLexes(b, u) && LooseLine(a)
    ensures LineLexes(a + b, t + u)
    ensures LooseLine(b) ==> LooseLine(a + b)
  {
    hide Lexes;
    SpelledConcat(a, b);
    LexesBoth(Spelled(a), t, Spelled(b), u);
  }

  lemma LineMark(c: char)
    requires Symbol(c)
    ensures LineLexes([Mark(c)], [Sym(c)]) && LooseLine([Mark(c)])
  {
    LexesSymbol(c);
    LinePiece(Mark(c), [Sym(c)]);
  }

  lemma LineQuoted(s: string)
    ensures LineLexes([Quoted(s)], [Str(s)]) && LooseLine([Quoted(s)])
  {
    LexesQuote(s);
    LinePiece(Quoted(s), [Str(s)]);
  }

  lemma LineTerm(w: string)
    requires IsWord(w)
    ensures LineLexes([Raw(w + " ")], [Word(w)]) && LooseLine([Raw(w + " ")])
  {
    LexesTerm(w);
    LinePiece(Raw(w + " "), [Word(w)]);
  }

  lemma LineSpaces(n: nat)
    ensures LineLexes(Spaces(n), []) && LooseLine(Spaces(n))
  {
    if n == 0 {
      LineNothing();
    } else {
      LexesSpaces(n);
      LinePiece(Raw(Repeat(' ', n)), []);
    }
  }

  // `w = `, as the renderer writes it in one piece.
  lemma LineAssigns(w: string)
    requires IsWord(w)
    ensures LineLexes([Raw(w + " = ")], [Word(w), Sym('=')]) && LooseLine([Raw(w + " = ")])
  {
    LexesTerm(w);
    LexesEquals();
    LexesBoth(w + " ", [Word(w)], "= ", [Sym('=')]);
    assert w + " " + "= " == w + " = " && [Word(w)] + [Sym('=')] == [Word(w), Sym('=')];
    LinePiece(Raw(w + " = "), [Word(w), Sym('=')]);
  }

  // A line and its end.
  lemma TextLine(line: Line, t: seq<Token>, rest: seq<Line>, u: seq<Token>)
    requires LineLexes(line, t) && Lexes(TextOf(rest), u)
    ensures Lexes(TextOf([line] + rest), t + u)
  {
    hide Lexes, Tokens;
    LexesBlank('\n');
    LexesBoth(Spelled(line), t, "\n", []);
    LexesBoth(Spelled(line) + "\n", t + [], TextOf(rest), u);
    assert t + [] == t && ([line] + rest)[1..] == rest;
  }

  lemma TextBoth(a: seq<Line>, t: seq<Token>, b: seq<Line>, u: seq<Token>)
    requires Lexes(TextOf(a), t) && Lexes(TextOf(b), u)
    ensures Lexes(TextOf(a + b), t + u)
  {
    hide Lexes, Tokens;
    TextConcat(a, b);
    TextLoose(a);
    LexesBoth(TextOf(a), t, TextOf(b), u);
  }

  lemma {:induction false} TextLoose(lines: seq<Line>)
    ensures Loose(TextOf(lines))
  {
    if lines != [] {
      TextLoose(lines[1..]);
      var tail := TextOf(lines[1..]);
      assert tail != "" ==> TextOf(lines)[|TextOf(lines)| - 1] == tail[|tail| - 1];
    }
  }

  lemma TextNothing()
    ensures Lexes(TextOf([]), [])
  {
    LexesNothing();
  }
}
