/** Editing commutes with rendering: changing the image line is rendering with the other image. */
module PklEditRendered {
  import opened Options
  import opened PklScan
  import opened PklString
  import opened PklEdit
  import opened PklImageLine
  import opened PklRender
  import opened PklBlocks
  import opened PklRoundTrip
  import opened Text

  // Where, from `at` on, lines read from depth d declare the image.
  ghost function Places(lines: seq<Line>, d: nat, at: nat): (places: set<nat>)
    ensures forall k :: k in places ==> k >= at
    decreases |lines|
  {
    if lines == [] then {}
    else
      (if d == 0 && IsImageDecl(Spelled(lines[0])) then {at} else {})
      + Places(lines[1..], Depth(lines[0], d), at + |Spelled(lines[0])| + 1)
  }

  // The editor's scan of a text that begins with `before` and goes on with `lines`.
  lemma {:induction false} ScanFindsPlaces(before: string, lines: seq<Line>, d: nat, k: nat)
    requires AllTidy(lines) && Run(TOP, before) == State(Normal, d) && k >= |before|
    requires before == "" || before[|before| - 1] == '\n'
    ensures Decl(before + TextOf(lines), k) <==> k in Places(lines, d, |before|)
    decreases |lines|
  {
    hide Decl, Tidy, IsImageDecl, Run, Depth, Spelled;
    if lines == [] {
      NothingThere(before + TextOf(lines), k);
    } else {
      var line, rest := Spelled(lines[0]), TextOf(lines[1..]);
      var next, text := before + line + "\n", before + TextOf(lines);
      assert text == next + rest;
      NextLine(before, lines[0], d);
      SpelledOnOneLine(lines[0]);
      if k >= |next| {
        assert forall i :: 0 <= i < |lines[1..]| ==> lines[1..][i] == lines[i + 1];
        ScanFindsPlaces(next, lines[1..], Depth(lines[0], d), k);
      } else {
        OnThisLine(before, line, rest, d, k);
      }
    }
  }

  lemma NothingThere(text: string, k: nat)
    requires k >= |text|
    ensures !Decl(text, k)
  {
  }

  lemma NextLine(before: string, line: Line, d: nat)
    requires Tidy(line) && Run(TOP, before) == State(Normal, d)
    ensures Run(TOP, before + Spelled(line) + "\n") == State(Normal, Depth(line, d))
  {
    hide Tidy, Spelled, Depth, Run;
    RunLine(line, d);
    assert before + Spelled(line) + "\n" == before + (Spelled(line) + "\n");
    RunConcat(TOP, before, Spelled(line) + "\n");
  }

  lemma OnThisLine(before: string, line: string, rest: string, d: nat, k: nat)
    requires Run(TOP, before) == State(Normal, d) && Free(line, '\n')
    requires before == "" || before[|before| - 1] == '\n'
    requires |before| <= k < |before| + |line| + 1
    ensures Decl(before + line + "\n" + rest, k) <==> k == |before| && d == 0 && IsImageDecl(line)
  {
    hide Run, IsImageDecl;
    var text, at := before + line + "\n" + rest, |before|;
    assert text[..at] == before;
    assert at > 0 ==> text[at - 1] == before[at - 1];
    if k == at {
      LineBetween(before, line, rest, line);
    } else {
      assert text[k - 1] == line[k - 1 - at];
    }
  }

  lemma TextLength(lines: seq<Line>)
    requires lines != []
    ensures |TextOf(lines)| == |Spelled(lines[0])| + 1 + |TextOf(lines[1..])|
  {
    hide Spelled;
  }

  lemma {:induction false} NoPlaceInside(lines: seq<Line>, d: nat, rest: seq<Line>, at: nat)
    requires Returns(lines, d)
    ensures Places(lines + rest, d, at) == Places(rest, 0, at + |TextOf(lines)|)
    decreases |lines|
  {
    hide Places, TextOf;
    if lines == [] {
      assert lines + rest == rest;
      assert TextOf([]) == "" by { NoText(); }
    } else {
      DeepLine(lines, d);
      assert (lines + rest)[1..] == lines[1..] + rest && (lines + rest)[0] == lines[0];
      TextLength(lines);
      SkippedLine(lines + rest, d, at);
      NoPlaceInside(lines[1..], Depth(lines[0], d), rest, at + |Spelled(lines[0])| + 1);
    }
  }

  lemma NoText()
    ensures TextOf([]) == ""
  {
  }

  lemma DeepLine(lines: seq<Line>, d: nat)
    requires Returns(lines, d) && lines != []
    ensures d > 0 && Returns(lines[1..], Depth(lines[0], d))
  {
  }

  lemma SkippedLine(lines: seq<Line>, d: nat, at: nat)
    requires lines != [] && d > 0
    ensures Places(lines, d, at) == Places(lines[1..], Depth(lines[0], d), at + |Spelled(lines[0])| + 1)
  {
    hide IsImageDecl, Depth, Spelled;
  }

  lemma PlaceOfBlock(lines: seq<Line>, rest: seq<Line>, at: nat)
    requires Block(lines)
    ensures Places(lines + rest, 0, at)
            == (if IsImageDecl(Spelled(lines[0])) then {at} else {}) + Places(rest, 0, at + |TextOf(lines)|)
  {
    hide IsImageDecl, Depth, Spelled, Tidy, TextOf, Places, Reads, Returns;
    assert (lines + rest)[1..] == lines[1..] + rest && (lines + rest)[0] == lines[0];
    TextLength(lines);
    ShallowLine(lines + rest, at);
    NoPlaceInside(lines[1..], Depth(lines[0], 0), rest, at + |Spelled(lines[0])| + 1);
  }

  lemma ShallowLine(lines: seq<Line>, at: nat)
    requires lines != []
    ensures Places(lines, 0, at)
            == (if IsImageDecl(Spelled(lines[0])) then {at} else {}) + Places(lines[1..], Depth(lines[0], 0), at + |Spelled(lines[0])| + 1)
  {
    hide IsImageDecl, Depth, Spelled;
  }

  // The first line of a field begins with the field's name.
  lemma NameLeads(name: string, value: Value)
    requires FieldLines(name, value).Ok?
    ensures var lines := FieldLines(name, value).value;
            lines != [] && HasPrefix(Spelled(lines[0]), name + " ")
  {
    hide SettingLines, Quote;
    match KindOf(name)
    case KindString => LeadsWith(name + " = ", name, "= ", [Quoted(value.text)]);
    case KindBool => LeadsWith(name + " = " + Boolean(value.on), name, "= " + Boolean(value.on), []);
    case _ =>
      assert name + " " + "" == name + " ";
      LeadsWith(name + " ", name, "", [Mark('{')]);
      LeadsWith(name + " ", name, "", [Mark('{'), Mark('}')]);
      assert Opened(0, name) == [Raw(name + " ")] + [Mark('{')];
      assert Empty(0, name) == [Raw(name + " ")] + [Mark('{'), Mark('}')];
  }

  lemma LeadsWith(text: string, name: string, tail: string, rest: Line)
    requires text == name + " " + tail
    ensures HasPrefix(Spelled([Raw(text)] + rest), name + " ")
  {
    assert ([Raw(text)] + rest)[1..] == rest;
  }

  lemma OnlyImageIsDeclared(name: string, line: string)
    requires name in FIELD_ORDER && HasPrefix(line, name + " ") && name != "image"
    ensures !IsImageDecl(line)
  {
    hide KnownField;
    NamesAreIdents(name);
    assert forall k :: 0 <= k < |name| ==> line[k] == line[..|name| + 1][k] == (name + " ")[k] == name[k];
    assert SkipBlanks(line, 0) == 0;
    if |line| >= 5 {
      assert line[0..5][0] == line[0] && line[0..5][1] == line[1];
    }
  }

  predicate Other(name: string) { name in FIELD_ORDER && name != "image" }

  lemma NoLines()
    ensures TextOf([]) == ""
  {
  }

  lemma {:induction false} NoPlaceInFields(v: Values, names: seq<string>, rest: seq<Line>, at: nat)
    requires Fields(v, names).Ok?
    requires forall k :: 0 <= k < |names| ==> Other(names[k])
    ensures Places(Fields(v, names).value + rest, 0, at) == Places(rest, 0, at + |TextOf(Fields(v, names).value)|)
    decreases |names|
  {
    hide FieldLines, Block, IsImageDecl, Places, TextOf, Spelled;
    if names == [] {
      assert Fields(v, names).value + rest == rest;
      NoLines();
    } else if names[0] !in v {
      NoPlaceInFields(v, names[1..], rest, at);
    } else {
      var lines, others := FieldLines(names[0], v[names[0]]).value, Fields(v, names[1..]).value;
      FieldIsBlock(names[0], v[names[0]]);
      NameLeads(names[0], v[names[0]]);
      OnlyImageIsDeclared(names[0], Spelled(lines[0]));
      assert lines + others + rest == lines + (others + rest);
      PlaceOfBlock(lines, others + rest, at);
      NoPlaceInFields(v, names[1..], rest, at + |TextOf(lines)|);
      TextConcat(lines, others);
    }
  }

  lemma {:induction false} FieldsConcat(v: Values, a: seq<string>, b: seq<string>)
    ensures Fields(v, a + b).Ok? <==> Fields(v, a).Ok? && Fields(v, b).Ok?
    ensures Fields(v, a + b).Ok? ==> Fields(v, a + b).value == Fields(v, a).value + Fields(v, b).value
  {
    hide FieldLines;
    if a == [] {
      assert a + b == b;
      assert Fields(v, b).Ok? ==> [] + Fields(v, b).value == Fields(v, b).value;
    } else {
      assert (a + b)[1..] == a[1..] + b;
      FieldsConcat(v, a[1..], b);
      if a[0] in v && FieldLines(a[0], v[a[0]]).Ok? && Fields(v, a + b).Ok? {
        var lines := FieldLines(a[0], v[a[0]]).value;
        assert lines + (Fields(v, a[1..]).value + Fields(v, b).value) == lines + Fields(v, a[1..]).value + Fields(v, b).value;
      }
    }
  }

  lemma {:induction false} FieldsSame(v: Values, w: Values, names: seq<string>)
    requires forall k :: 0 <= k < |names| ==> (names[k] in v <==> names[k] in w) && (names[k] in v ==> v[names[k]] == w[names[k]])
    ensures Fields(v, names) == Fields(w, names)
  {
    hide FieldLines;
    if names != [] {
      FieldsSame(v, w, names[1..]);
    }
  }

  const BEFORE_IMAGE: seq<string> := FIELD_ORDER[..5]
  const AFTER_IMAGE: seq<string> := FIELD_ORDER[6..]

  function RenderedImage(ref: string): Line { [Raw("image" + " = "), Quoted(ref)] }

  // The three parts of a rendered file: what comes before the image, the image, what comes after.
  lemma ThreeParts(v: Values, ref: string)
    requires Fields(v, FIELD_ORDER).Ok? && "image" in v && v["image"] == String(ref)
    ensures Fields(v, BEFORE_IMAGE).Ok? && Fields(v, AFTER_IMAGE).Ok?
    ensures Fields(v, FIELD_ORDER).value
            == Fields(v, BEFORE_IMAGE).value + ([RenderedImage(ref)] + Fields(v, AFTER_IMAGE).value)
  {
    hide Fields;
    assert FIELD_ORDER == BEFORE_IMAGE + (["image"] + AFTER_IMAGE);
    FieldsConcat(v, BEFORE_IMAGE, ["image"] + AFTER_IMAGE);
    FieldsConcat(v, ["image"], AFTER_IMAGE);
    ImageField(v, ref);
  }

  lemma ImageField(v: Values, ref: string)
    requires "image" in v && v["image"] == String(ref)
    ensures Fields(v, ["image"]) == Ok([RenderedImage(ref)])
  {
    assert ["image"][1..] == [];
    assert KindOf("image") == KindString;
    assert [RenderedImage(ref)] + [] == [RenderedImage(ref)];
  }

  lemma PartsAgree(v: Values, ref: string, other: string)
    requires Fields(v, FIELD_ORDER).Ok? && "image" in v && v["image"] == String(ref)
    ensures var w := v["image" := String(other)];
            && Fields(w, FIELD_ORDER).Ok?
            && Fields(w, BEFORE_IMAGE) == Fields(v, BEFORE_IMAGE)
            && Fields(w, AFTER_IMAGE) == Fields(v, AFTER_IMAGE)
  {
    hide Fields;
    var w := v["image" := String(other)];
    assert forall k :: 0 <= k < 5 ==> BEFORE_IMAGE[k] != "image";
    assert forall k :: 0 <= k < 9 ==> AFTER_IMAGE[k] != "image";
    FieldsSame(v, w, BEFORE_IMAGE);
    FieldsSame(v, w, AFTER_IMAGE);
    ThreeParts(v, ref);
    assert FIELD_ORDER == BEFORE_IMAGE + (["image"] + AFTER_IMAGE);
    FieldsConcat(w, BEFORE_IMAGE, ["image"] + AFTER_IMAGE);
    FieldsConcat(w, ["image"], AFTER_IMAGE);
    ImageField(w, other);
  }

  lemma OtherNames()
    ensures forall k :: 0 <= k < |BEFORE_IMAGE| ==> Other(BEFORE_IMAGE[k])
    ensures forall k :: 0 <= k < |AFTER_IMAGE| ==> Other(AFTER_IMAGE[k])
  {
    assert forall k :: 0 <= k < |BEFORE_IMAGE| ==> BEFORE_IMAGE[k] == FIELD_ORDER[k];
    assert forall k :: 0 <= k < |AFTER_IMAGE| ==> AFTER_IMAGE[k] == FIELD_ORDER[k + 6];
  }

  lemma NoPlaces(at: nat)
    ensures Places([], 0, at) == {}
  {
  }

  lemma PlacesAround(v: Values, first: seq<string>, ref: string, last: seq<string>)
    requires Fields(v, first).Ok? && Fields(v, last).Ok?
    requires forall k :: 0 <= k < |first| ==> Other(first[k])
    requires forall k :: 0 <= k < |last| ==> Other(last[k])
    ensures Places(Fields(v, first).value + ([RenderedImage(ref)] + Fields(v, last).value), 0, 0)
            == {|TextOf(Fields(v, first).value)|}
  {
    hide Fields, TextOf, RenderedImage, Places, Other;
    var before, after := Fields(v, first).value, Fields(v, last).value;
    var at, end := |TextOf(before)|, |TextOf(before)| + |TextOf([RenderedImage(ref)])|;
    NoPlaceInFields(v, first, [RenderedImage(ref)] + after, 0);
    ImagePlace(ref, after, at);
    NoPlaceInFields(v, last, [], end);
    assert after + [] == after;
    NoPlaces(end + |TextOf(after)|);
  }

  lemma RenderedPlaces(before: seq<Line>, ref: string, after: seq<Line>, v: Values)
    requires Fields(v, BEFORE_IMAGE) == Ok(before) && Fields(v, AFTER_IMAGE) == Ok(after)
    ensures Places(before + ([RenderedImage(ref)] + after), 0, 0) == {|TextOf(before)|}
  {
    hide Fields, TextOf, RenderedImage, Places;
    OtherNames();
    PlacesAround(v, BEFORE_IMAGE, ref, AFTER_IMAGE);
  }

  lemma RenderedTidy(before: seq<Line>, ref: string, after: seq<Line>, v: Values)
    requires Fields(v, BEFORE_IMAGE) == Ok(before) && Fields(v, AFTER_IMAGE) == Ok(after)
    ensures AllTidy(before + ([RenderedImage(ref)] + after))
  {
    hide Fields, Tidy, RenderedImage;
    OtherNames();
    FoundInFields(v, BEFORE_IMAGE);
    FoundInFields(v, AFTER_IMAGE);
    ImagePlace(ref, after, 0);
  }

  // The editor finds the rendered image line, and nothing else, to be the declaration.
  lemma RenderedDecl(before: seq<Line>, ref: string, after: seq<Line>, v: Values)
    requires Fields(v, BEFORE_IMAGE) == Ok(before) && Fields(v, AFTER_IMAGE) == Ok(after)
    ensures Decls(TextOf(before + ([RenderedImage(ref)] + after))) == [|TextOf(before)|]
  {
    hide Decl, Fields, TextOf, Run, AllTidy, RenderedImage, Decls, Places;
    var lines, at := before + ([RenderedImage(ref)] + after), |TextOf(before)|;
    RenderedPlaces(before, ref, after, v);
    RenderedTidy(before, ref, after, v);
    assert "" + TextOf(lines) == TextOf(lines);
    NothingRead();
    forall k: nat ensures Decl(TextOf(lines), k) <==> k == at {
      ScanFindsPlaces("", lines, 0, k);
    }
    TheOnlyDecl(TextOf(lines), at);
  }

  lemma NothingRead()
    ensures Run(TOP, "") == State(Normal, 0)
  {
  }

  lemma ImagePlace(ref: string, after: seq<Line>, at: nat)
    ensures Places([RenderedImage(ref)] + after, 0, at) == {at} + Places(after, 0, at + |TextOf([RenderedImage(ref)])|)
    ensures Tidy(RenderedImage(ref))
  {
    hide IsImageDecl, Places, Spelled, TextOf;
    assert Simple("image" + " = ");
    StringReads("image" + " = ", ref, 0);
    BlockOne(RenderedImage(ref));
    PlaceOfBlock([RenderedImage(ref)], after, at);
    ImageIsDeclared(ref);
  }

  lemma SpelledImage(ref: string)
    ensures Spelled(RenderedImage(ref)) == "image = " + Quote(ref)
  {
    var line := RenderedImage(ref);
    assert line[1..] == [Quoted(ref)] && [Quoted(ref)][1..] == [];
    assert "image" + " = " == "image = ";
    assert Spelled([Quoted(ref)]) == Quote(ref) + "";
  }

  lemma ImageIsDeclared(ref: string)
    ensures var line := Spelled(RenderedImage(ref));
            IsImageDecl(line) && ImageLiteral(line) == Some((8, |line|)) && line[..8] == "image = "
  {
    hide AfterImage, AfterType, OpeningQuote, IsImageDecl, ClosingQuote, Body, Spelled;
    var line, body := Spelled(RenderedImage(ref)), Body(ref, true);
    SpelledImage(ref);
    assert line == "image = " + ("\"" + body + "\"");
    assert line[..8] == "image = " && line[8] == '"';
    assert line[9..9 + |body|] == body && line[9 + |body|] == '"';
    FreshHead(line);
    ClosingOfBody(line, 9, ref, true);
    assert line[|line|..] == "";
  }

  lemma TextAround(before: seq<Line>, line: Line, after: seq<Line>)
    ensures TextOf(before + ([line] + after)) == TextOf(before) + Spelled(line) + "\n" + TextOf(after)
  {
    hide Spelled;
    TextConcat(before, [line] + after);
    TextConcat([line], after);
    assert [line][1..] == [];
    assert TextOf([line]) == Spelled(line) + "\n" + "";
    assert TextOf(before) + (Spelled(line) + "\n" + TextOf(after)) == TextOf(before) + Spelled(line) + "\n" + TextOf(after);
  }

  // The line at `at`, when what surrounds it is known.
  lemma LineBetween(a: string, line: string, b: string, changed: string)
    requires Free(line, '\n')
    ensures var text := a + line + "\n" + b;
            LineAt(text, |a|) == line && WithLine(text, |a|, changed) == a + changed + "\n" + b
  {
    var text, at := a + line + "\n" + b, |a|;
    assert text[..at] == a && text[at..at + |line|] == line && text[at + |line|..] == "\n" + b;
    assert forall i :: 0 <= i < |line| ==> text[at + i] == line[i];
    assert text[at + |line|] == '\n';
    assert LineEnd(text, at) == at + |line|;
  }

  // For every set of values that renders and has an image, and every image a line can hold: editing
  // the rendered text is rendering the edited values.
  lemma EditCommutesWithRender(v: Values, ref: string)
    requires Rendered(v).Ok? && "image" in v
    requires Free(ref, '\n') && Free(ref, '\t') && Free(ref, '\r')
    ensures var w := v["image" := String(ref)];
            Rendered(w).Ok? && Rewritten(Rendered(v).value, ref) == Edited(Rendered(w).value)
  {
    hide Fields, TextOf, Spelled, ImageLiteral, LineAt, WithLine, Decls, FirstUnknown, Quote, Literal, RenderedImage;
    var w := v["image" := String(ref)];
    var was := ImageIsString(v);
    ThreeParts(v, was);
    PartsAgree(v, was, ref);
    ThreeParts(w, ref);
    assert w.Keys == v.Keys;
    var before, after := Fields(v, BEFORE_IMAGE).value, Fields(v, AFTER_IMAGE).value;
    var line, now := Spelled(RenderedImage(was)), Spelled(RenderedImage(ref));
    TextAround(before, RenderedImage(was), after);
    TextAround(before, RenderedImage(ref), after);
    RenderedDecl(before, was, after, v);
    ImageIsDeclared(was);
    ImagePlace(was, [], 0);
    SpelledOnOneLine(RenderedImage(was));
    LineBetween(TextOf(before), line, TextOf(after), now);
    SpelledImage(ref);
    SpelledAlike(ref);
    assert WithLiteral(line, ref) == now by { assert line[|line|..] == ""; assert "image = " + Literal(ref) + "" == now; }
  }

  lemma ImageIsString(v: Values) returns (was: string)
    requires Fields(v, FIELD_ORDER).Ok? && "image" in v
    ensures v["image"] == String(was)
  {
    hide Fields;
    assert FIELD_ORDER == BEFORE_IMAGE + (["image"] + AFTER_IMAGE);
    FieldsConcat(v, BEFORE_IMAGE, ["image"] + AFTER_IMAGE);
    FieldsConcat(v, ["image"], AFTER_IMAGE);
    ImageMustBeString(v);
    was := v["image"].text;
  }

  lemma ImageMustBeString(v: Values)
    requires Fields(v, ["image"]).Ok? && "image" in v
    ensures v["image"].String?
  {
    assert KindOf("image") == KindString;
  }
}
