/**
 * One image line: the scanner comes out of it where it went in, and a literal put in place of
 * its own is found again in the same place.
 */
module PklImageLine {
  import opened Options
  import opened PklScan
  import opened PklString
  import opened PklEdit

  // ---------------------------------------------------------- reading one image line

  // Characters the scanner passes over outside strings and comments.
  predicate Plain(c: char) { c != '/' && c != '#' && c != '"' && !Opens(c) && !Closes(c) }

  lemma {:induction false} RunPlain(s: string, d: nat)
    requires forall k :: 0 <= k < |s| ==> Plain(s[k])
    ensures Run(State(Normal, d), s) == State(Normal, d)
  {
    if s != "" {
      RunPlain(s[1..], d);
    }
  }

  lemma {:induction false} RunComment(s: string, d: nat)
    requires Free(s, '\n')
    ensures Run(State(LineComment, d), s) == State(LineComment, d)
  {
    if s != "" {
      RunComment(s[1..], d);
    }
  }

  lemma {:induction false} RunToClose(line: string, i: nat, d: nat)
    requires i <= |line| && Free(line, '\n') && ClosingQuote(line, i).Some?
    ensures Run(State(Text(false, 0), d), line[i..ClosingQuote(line, i).value]) == State(Normal, d)
    ensures i < |line| && (line[i] == '"' ==> ClosingQuote(line, i) == Some(i + 1))
    decreases |line| - i
  {
    var a, q := State(Text(false, 0), d), ClosingQuote(line, i).value;
    var s := line[i..q];
    if line[i] == '"' {
      assert s == ['"'];
      RunOne(a, '"');
    } else if line[i] != '\\' {
      RunToClose(line, i + 1, d);
      assert s[1..] == line[i + 1..q];
    } else {
      RunToClose(line, i + 2, d);
      assert s == [line[i], line[i + 1]] + line[i + 2..q];
      RunConcat(a, [line[i], line[i + 1]], line[i + 2..q]);
      assert [line[i], line[i + 1]] == [line[i]] + [line[i + 1]];
      RunConcat(a, [line[i]], [line[i + 1]]);
      RunOne(a, line[i]);
      RunOne(Step(a, line[i]), line[i + 1]);
    }
  }

  lemma HeadIsPlain(line: string)
    requires OpeningQuote(line).Some?
    ensures forall k :: 0 <= k < OpeningQuote(line).value ==> Plain(line[k])
  {
    hide AfterImage, AfterType;
    ImageIsPlain(line);
    TypeIsPlain(line, AfterImage(line).value);
  }

  lemma ImageIsPlain(line: string)
    requires AfterImage(line).Some?
    ensures forall k :: 0 <= k < AfterImage(line).value ==> Plain(line[k])
  {
    var i := SkipBlanks(line, 0);
    assert "image" == [line[i], line[i + 1], line[i + 2], line[i + 3], line[i + 4]];
  }

  lemma TypeIsPlain(line: string, j: nat)
    requires j <= |line| && AfterType(line, j).Some?
    ensures forall k :: j <= k < AfterType(line, j).value ==> Plain(line[k])
  {
  }

  lemma TailReturns(s: string)
    requires Free(s, '\n') && IsTail(s)
    ensures Run(TOP, s + "\n") == TOP
    ensures (s + "\n")[0] != '"'
  {
    var i := SkipBlanks(s, 0);
    var rest := s[i..] + "\n";
    assert s + "\n" == s[..i] + rest;
    RunConcat(TOP, s[..i], rest);
    RunPlain(s[..i], 0);
    if i == |s| {
      assert rest == ['\n'];
      RunOne(TOP, '\n');
    } else {
      assert s[i..][0] == s[i..][..2][0] && s[i..][1] == s[i..][..2][1];
      var comment := s[i + 2..];
      assert rest == "/" + ("/" + (comment + "\n"));
      RunConcat(TOP, "/", "/" + (comment + "\n"));
      RunOne(TOP, '/');
      RunConcat(State(Slash, 0), "/", comment + "\n");
      RunOne(State(Slash, 0), '/');
      RunComment(comment, 0);
      RunSnoc(State(LineComment, 0), comment, '\n');
    }
  }

  // A line with a plain image declaration leaves the scanner where it found it.
  lemma ImageLineReturns(line: string)
    requires Free(line, '\n') && ImageLiteral(line).Some?
    ensures Run(TOP, line + "\n") == TOP
  {
    hide AfterImage, AfterType, IsTail, ClosingQuote, Run, Step, OpeningQuote;
    var (p, q) := ImageLiteral(line).value;
    var head, body, tail := line[..p], line[p + 1..q - 1], line[q..] + "\n";
    HeadIsPlain(line);
    RunPlain(head, 0);
    RunToClose(line, p + 1, 0);
    assert body + "\"" == line[p + 1..q];
    TailReturns(line[q..]);
    QuotedThen(body, 0, tail);
    assert line + "\n" == head + ("\"" + body + "\"" + tail);
    RunConcat(TOP, head, "\"" + body + "\"" + tail);
  }

  // ------------------------------------------------------- putting a literal there

  lemma SameImage(line: string, other: string, p: nat)
    requires p < |line| && p < |other| && forall k :: 0 <= k <= p ==> other[k] == line[k]
    requires AfterImage(line).Some? && AfterImage(line).value <= p && !Blank(line[p])
    ensures AfterImage(other) == AfterImage(line)
  {
    var i := SkipBlanks(line, 0);
    assert SkipBlanks(other, 0) == i;
    assert other[i..i + 5] == line[i..i + 5];
  }

  // Everything up to the opening quote is all the head depends on.
  lemma SameHead(line: string, other: string)
    requires OpeningQuote(line).Some?
    requires var p := OpeningQuote(line).value; |other| > p && other[..p + 1] == line[..p + 1]
    ensures OpeningQuote(other) == OpeningQuote(line)
    ensures IsImageDecl(other)
  {
    hide AfterImage, AfterType;
    var p, j := OpeningQuote(line).value, AfterImage(line).value;
    forall k | 0 <= k <= p ensures other[k] == line[k] {
      assert other[..p + 1][k] == line[..p + 1][k];
    }
    SameImage(line, other, p);
    TypeThenEquals(line, j);
    SameType(line, other, j, p);
  }

  lemma TypeThenEquals(line: string, j: nat)
    requires j < |line| && AfterType(line, j).Some?
    requires AfterType(line, j).value < |line| && line[AfterType(line, j).value] == '='
    ensures line[j] == ':' || line[j] == '='
  {
  }

  lemma SameType(line: string, other: string, j: nat, p: nat)
    requires j <= p < |line| && p < |other|
    requires forall k :: 0 <= k <= p ==> other[k] == line[k]
    requires AfterType(line, j).Some? && AfterType(line, j).value < p
    ensures AfterType(other, j) == AfterType(line, j)
  {
    hide Blank, NamePart, NameStart, SkipBlanks, SkipName;
    if line[j] == ':' {
      var a := SkipBlanks(line, j + 1);
      var b := SkipName(line, a + 1);
    }
  }

  lemma SpellShape(c: char, controls: bool)
    ensures var w := Spell(c, controls);
            (|w| == 2 && w[0] == '\\') || (|w| == 1 && w[0] != '\\' && w[0] != '"')
  {
  }

  lemma {:induction false} ClosingOfBody(line: string, i: nat, s: string, controls: bool)
    requires var body := Body(s, controls);
             i + |body| < |line| && line[i..i + |body|] == body && line[i + |body|] == '"'
    ensures ClosingQuote(line, i) == Some(i + |Body(s, controls)| + 1)
    decreases |s|
  {
    hide Spell;
    if s != "" {
      var body, word, rest := Body(s, controls), Spell(s[0], controls), Body(s[1..], controls);
      var n := |word|;
      SpellShape(s[0], controls);
      assert body == word + rest;
      assert line[i] == body[0] == word[0];
      assert line[i + n..i + |body|] == line[i..i + |body|][n..] == rest;
      ClosingOfBody(line, i + n, s[1..], controls);
    }
  }

  lemma LiteralFound(line: string, ref: string)
    requires ImageLiteral(line).Some?
    ensures var p, q := ImageLiteral(line).value.0, ImageLiteral(line).value.1;
            var changed := WithLiteral(line, ref);
            && IsImageDecl(changed)
            && ImageLiteral(changed) == Some((p, p + |Literal(ref)|))
            && changed[..p] == line[..p] && changed[p + |Literal(ref)|..] == line[q..]
            && changed[p + 1..p + |Literal(ref)| - 1] == Body(ref, false)
  {
    hide AfterImage, AfterType, OpeningQuote, ClosingQuote, IsTail, IsImageDecl, Body;
    var p, q := ImageLiteral(line).value.0, ImageLiteral(line).value.1;
    var changed := WithLiteral(line, ref);
    SameHead(line, changed);
    ClosingOfBody(changed, p + 1, ref, false);
  }

  // The last literal put there is the only one that matters, and it can be read back.
  lemma LiteralTwice(line: string, a: string, b: string)
    requires ImageLiteral(line).Some?
    ensures ImageLiteral(WithLiteral(line, a)).Some?
    ensures WithLiteral(WithLiteral(line, a), b) == WithLiteral(line, b)
  {
    LiteralFound(line, a);
  }

  lemma LiteralStaysOnTheLine(line: string, ref: string)
    requires ImageLiteral(line).Some? && Free(line, '\n') && Free(ref, '\n')
    ensures Free(WithLiteral(line, ref), '\n') && WithLiteral(line, ref) != ""
  {
    OneLine(ref, false);
  }

  lemma FreshHead(line: string)
    requires |line| > 8 && line[..8] == "image = " && line[8] == '"'
    ensures OpeningQuote(line) == Some(8) && IsImageDecl(line)
  {
    assert "image = " == [line[0], line[1], line[2], line[3], line[4], line[5], line[6], line[7]];
    assert line[0..5] == line[..8][0..5] == "image";
    assert SkipBlanks(line, 0) == 0 && SkipBlanks(line, 5) == 6 && SkipBlanks(line, 7) == 8;
  }

  lemma FreshImageLine(ref: string)
    ensures IsImageDecl(ImageLine(ref))
    ensures ImageLiteral(ImageLine(ref)) == Some((8, |ImageLine(ref)|))
    ensures forall b :: WithLiteral(ImageLine(ref), b) == ImageLine(b)
    ensures ImageLine(ref)[9..|ImageLine(ref)| - 1] == Body(ref, false)
  {
    hide AfterImage, AfterType, OpeningQuote, IsImageDecl, ClosingQuote, Body;
    var line, lit := ImageLine(ref), Literal(ref);
    assert line == "image = \"\""[..8] + lit + "image = \"\""[10..];
    FreshHead(line);
    ClosingOfBody(line, 9, ref, false);
    assert line[|line|..] == "";
    forall b ensures WithLiteral(line, b) == ImageLine(b) {
      assert line[..8] == "image = ";
    }
  }
}
