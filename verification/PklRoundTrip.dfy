/**
 * What a rendered file says when it is read back: exactly the fields that were put in, and an edit
 * of its image is the same file rendered with that image.
 */
module PklRoundTrip {
  import opened Options
  import opened PklString
  import opened PklRender
  import opened PklRead
  import opened PklBlocks
  import opened Text

  // -------------------------------------------------------- declaredFields

  lemma {:induction false} SpelledOnOneLine(line: Line)
    requires Tidy(line)
    ensures Free(Spelled(line), '\n')
  {
    if line != [] {
      SpelledOnOneLine(line[1..]);
      if line[0].Quoted? {
        OneLine(line[0].text, true);
      }
    }
  }

  predicate AllTidy(lines: seq<Line>) { forall k :: 0 <= k < |lines| ==> Tidy(lines[k]) }

  // What the line reader finds, line by line.
  function FoundInLines(lines: seq<Line>, depth: nat): set<string> {
    if lines == [] then {}
    else
      (if depth == 0 then Declares(CodeOf(lines[0])) else {})
      + FoundInLines(lines[1..], Deeper(depth, CodeOf(lines[0])))
  }

  lemma {:induction false} ReadsWhatWasWritten(lines: seq<Line>, depth: nat)
    requires AllTidy(lines)
    ensures FoundIn(Split(TextOf(lines)), depth, false) == FoundInLines(lines, depth)
  {
    if lines == [] {
    } else {
      hide Sanitized, Declares, Split, Spelled, CodeOf;
      SpelledOnOneLine(lines[0]);
      SplitLine(Spelled(lines[0]), TextOf(lines[1..]));
      SanitizeLine(lines[0]);
      var rest := Split(TextOf(lines[1..]));
      assert ([Spelled(lines[0])] + rest)[1..] == rest;
      ReadsWhatWasWritten(lines[1..], Deeper(depth, CodeOf(lines[0])));
    }
  }

  lemma Shallower(line: Line, d: nat, e: nat)
    requires Reads(line, d, e)
    ensures Deeper(d, CodeOf(line)) == e
  {
    CountCurly(line);
  }

  lemma {:induction false} NothingFoundInside(lines: seq<Line>, d: nat, rest: seq<Line>)
    requires Returns(lines, d)
    ensures FoundInLines(lines + rest, d) == FoundInLines(rest, 0)
    ensures AllTidy(lines)
    decreases |lines|
  {
    if lines == [] {
      assert lines + rest == rest;
    } else {
      hide Declares, CodeOf, Deeper;
      Shallower(lines[0], d, Depth(lines[0], d));
      assert (lines + rest)[1..] == lines[1..] + rest;
      NothingFoundInside(lines[1..], Depth(lines[0], d), rest);
      assert forall k :: 0 < k < |lines| ==> lines[k] == lines[1..][k - 1];
    }
  }

  // A field is found by its first line alone.
  lemma FoundInBlock(lines: seq<Line>, rest: seq<Line>)
    requires Block(lines)
    ensures FoundInLines(lines + rest, 0) == Declares(CodeOf(lines[0])) + FoundInLines(rest, 0)
    ensures AllTidy(lines)
  {
    hide Declares, CodeOf, Deeper;
    Shallower(lines[0], 0, Depth(lines[0], 0));
    assert (lines + rest)[1..] == lines[1..] + rest;
    NothingFoundInside(lines[1..], Depth(lines[0], 0), rest);
    assert forall k :: 0 < k < |lines| ==> lines[k] == lines[1..][k - 1];
  }

  lemma NameFirst(code: string, name: string, tail: string)
    requires IdentName(name) && code == name + " " + tail
    requires tail != "" && (tail[0] == '=' || tail[0] == '{')
    ensures DeclaredName(code) == Some(name)
  {
    assert code[0] == name[0];
    assert forall k :: 0 <= k < |name| ==> code[k] == name[k];
    assert code[|name|] == ' ' && code[|name| + 1] == tail[0];
    assert SkipTrimmed(code, 0) == 0;
    assert SkipIdent(code, 1) == |name|;
    assert SkipWhite(code, |name|) == |name| + 1;
    assert code[..|name|] == name;
  }

  // The code of a field's first line begins with its name, a blank, and then `=` or `{`.
  ghost predicate Begins(line: Line, name: string) {
    exists tail: string :: CodeOf(line) == name + " " + tail && tail != "" && (tail[0] == '=' || tail[0] == '{')
  }

  lemma BeginsDeclares(line: Line, name: string)
    requires name in FIELD_ORDER && Begins(line, name)
    ensures Declares(CodeOf(line)) == {name}
  {
    hide KnownField, IdentName, DeclaredName;
    NamesAreIdents(name);
    var tail :| CodeOf(line) == name + " " + tail && tail != "" && (tail[0] == '=' || tail[0] == '{');
    NameFirst(CodeOf(line), name, tail);
  }

  lemma CodeOfThree(a: Piece, rest: Line)
    ensures CodeOf([a] + rest) == CodePiece(a) + CodeOf(rest)
  {
    assert ([a] + rest)[1..] == rest;
  }

  lemma OpenedBegins(name: string)
    ensures Begins(Opened(0, name), name) && Begins(Empty(0, name), name)
  {
    assert Opened(0, name) == [Raw(name + " ")] + [Mark('{')];
    CodeOfThree(Raw(name + " "), [Mark('{')]);
    CodeOfThree(Mark('{'), []);
    assert [Mark('{')] + [] == [Mark('{')];
    assert CodeOf([Mark('{')]) == "{" + "";
    assert Empty(0, name) == [Raw(name + " ")] + [Mark('{'), Mark('}')];
    CodeOfThree(Raw(name + " "), [Mark('{'), Mark('}')]);
    CodeOfThree(Mark('{'), [Mark('}')]);
    assert [Mark('{')] + [Mark('}')] == [Mark('{'), Mark('}')];
  }

  lemma ScalarBegins(name: string, word: string, rest: Line)
    ensures Begins([Raw(name + " = " + word)] + rest, name)
  {
    CodeOfThree(Raw(name + " = " + word), rest);
    var tail := "= " + word + CodeOf(rest);
    assert name + " = " + word + CodeOf(rest) == name + " " + tail;
  }

  lemma FieldBegins(name: string, value: Value)
    requires name in FIELD_ORDER && FieldLines(name, value).Ok?
    ensures FieldLines(name, value).value != []
    ensures Begins(FieldLines(name, value).value[0], name)
  {
    hide Begins, SettingLines;
    OpenedBegins(name);
    match KindOf(name)
    case KindString =>
      ScalarBegins(name, "", [Quoted(value.text)]);
      assert name + " = " + "" == name + " = ";
      assert [Raw(name + " = ")] + [Quoted(value.text)] == [Raw(name + " = "), Quoted(value.text)];
    case KindBool =>
      ScalarBegins(name, Boolean(value.on), []);
      assert [Raw(name + " = " + Boolean(value.on))] + [] == [Raw(name + " = " + Boolean(value.on))];
    case _ =>
  }

  function Present(v: Values, names: seq<string>): set<string> {
    if names == [] then {} else (if names[0] in v then {names[0]} else {}) + Present(v, names[1..])
  }

  lemma {:induction false} PresentMeans(v: Values, names: seq<string>)
    ensures forall n :: n in Present(v, names) <==> n in names && n in v
  {
    if names != [] {
      PresentMeans(v, names[1..]);
      assert names == [names[0]] + names[1..];
    }
  }

  lemma {:induction false} FoundInFields(v: Values, names: seq<string>)
    requires (forall k :: 0 <= k < |names| ==> names[k] in FIELD_ORDER) && Fields(v, names).Ok?
    ensures FoundInLines(Fields(v, names).value, 0) == Present(v, names)
    ensures AllTidy(Fields(v, names).value)
  {
    hide FieldLines, Block, Begins, Tidy, Declares, CodeOf, Deeper;
    if names != [] {
      FoundInFields(v, names[1..]);
      if names[0] in v {
        var lines := FieldLines(names[0], v[names[0]]).value;
        FieldIsBlock(names[0], v[names[0]]);
        FieldBegins(names[0], v[names[0]]);
        BeginsDeclares(lines[0], names[0]);
        FoundInBlock(lines, Fields(v, names[1..]).value);
      }
    }
  }

  // Written, then scanned: exactly the fields that were put in, but for those the renderer has no
  // line for.
  lemma DeclaresWhatWasRendered(v: Values)
    requires Rendered(v).Ok?
    ensures Declared(Rendered(v).value) == set n | n in v && n in FIELD_ORDER
  {
    hide Fields, FoundIn, TextOf, Split;
    FoundInFields(v, FIELD_ORDER);
    ReadsWhatWasWritten(Fields(v, FIELD_ORDER).value, 0);
    PresentMeans(v, FIELD_ORDER);
  }
}
