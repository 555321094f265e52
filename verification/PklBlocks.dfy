/**
 * The renderer against the two readers of its output: the scanner behind the image editor and the
 * line reader behind declaredFields. Whatever the strings hold, both see the same blocks.
 */
module PklBlocks {
  import opened SortedKeys
  import opened PklScan
  import opened PklString
  import opened PklRender
  import opened PklRead
  import opened Text

  // ------------------------------------------------------------ one rendered line

  predicate SimpleChar(c: char) {
    c != '/' && c != '#' && c != '"' && c != '\n' && c != '{' && c != '}' && !Opens(c) && !Closes(c)
  }

  predicate Simple(s: string) { forall k :: 0 <= k < |s| ==> SimpleChar(s[k]) }

  predicate TidyPiece(p: Piece) {
    match p
    case Raw(text) => text != "" && Simple(text)
    case Mark(c) => c == '{' || c == '}' || c == '[' || c == ']'
    case Quoted(_) => true
  }

  // No two strings side by side.
  predicate Tidy(line: Line) {
    line == [] || (TidyPiece(line[0]) && (line[0].Quoted? && |line| > 1 ==> !line[1].Quoted?) && Tidy(line[1..]))
  }

  function NextDepth(p: Piece, d: nat): nat {
    if !p.Mark? then d else if Opens(p.c) then d + 1 else if d > 0 then d - 1 else 0
  }

  // Bracket depth after the line, from d: what both readers count, when they never close too much.
  function Depth(line: Line, d: nat): nat {
    if line == [] then d
    else Depth(line[1..], NextDepth(line[0], d))
  }

  lemma {:induction false} RunSimple(s: string, d: nat)
    requires Simple(s)
    ensures Run(State(Normal, d), s) == State(Normal, d)
  {
    if s != "" {
      RunSimple(s[1..], d);
    }
  }

  // The scanner leaves the line at the depth its brackets say.
  lemma {:induction false} RunLine(line: Line, d: nat)
    requires Tidy(line)
    ensures Run(State(Normal, d), Spelled(line) + "\n") == State(Normal, Depth(line, d))
  {
    hide Run, SpellPiece;
    if line == [] {
      RunOne(State(Normal, d), '\n');
      assert Spelled(line) + "\n" == ['\n'];
    } else {
      var word, rest := SpellPiece(line[0]), Spelled(line[1..]) + "\n";
      assert Spelled(line) + "\n" == word + rest;
      RunLine(line[1..], NextDepth(line[0], d));
      if line[0].Quoted? {
        StartsAfresh(line[1..]);
      }
      RunPiece(line[0], d, rest);
    }
  }

  lemma StartsAfresh(line: Line)
    requires Tidy(line) && (line == [] || !line[0].Quoted?)
    ensures (Spelled(line) + "\n")[0] != '"'
  {
    if line != [] {
      assert SpellPiece(line[0]) != "" && (Spelled(line) + "\n")[0] == SpellPiece(line[0])[0];
    }
  }

  lemma RunPiece(p: Piece, d: nat, rest: string)
    requires TidyPiece(p) && rest != "" && (p.Quoted? ==> rest[0] != '"')
    ensures Run(State(Normal, d), SpellPiece(p) + rest) == Run(State(Normal, NextDepth(p, d)), rest)
  {
    var st := State(Normal, d);
    match p
    case Raw(text) =>
      RunConcat(st, text, rest);
      RunSimple(text, d);
    case Mark(c) =>
      RunConcat(st, [c], rest);
      RunOne(st, c);
    case Quoted(text) => ReadQuoted(text, true, d, rest);
  }

  // -------------------------------------------------- what the line reader sees

  function CodePiece(p: Piece): string {
    match p
    case Raw(text) => text
    case Mark(c) => [c]
    case Quoted(_) => "\"\""
  }

  function CodeOf(line: Line): string {
    if line == [] then "" else CodePiece(line[0]) + CodeOf(line[1..])
  }

  lemma {:induction false} SanitizeSimple(s: string, rest: string)
    requires forall k :: 0 <= k < |s| ==> s[k] != '/' && s[k] != '"'
    ensures Sanitized(s + rest, Code) == (s + Sanitized(rest, Code).0, Sanitized(rest, Code).1)
  {
    if s == "" {
      assert s + rest == rest && "" + Sanitized(rest, Code).0 == Sanitized(rest, Code).0;
    } else {
      assert (s + rest)[1..] == s[1..] + rest;
      SanitizeSimple(s[1..], rest);
      assert s == [s[0]] + s[1..];
      Associate([s[0]], s[1..], Sanitized(rest, Code).0);
      assert (s + rest)[0] == s[0];
    }
  }

  lemma {:induction false} SanitizeBody(s: string, rest: string)
    ensures Sanitized(Body(s, true) + ("\"" + rest), Literal) == Kept('"', Sanitized(rest, Code))
  {
    if s == "" {
      assert Body(s, true) + ("\"" + rest) == "\"" + rest;
      assert ("\"" + rest)[1..] == rest;
    } else {
      hide Sanitized, Spell;
      SanitizeBody(s[1..], rest);
      Associate(Spell(s[0], true), Body(s[1..], true), "\"" + rest);
    }
  }

  lemma StringOpened(line: string)
    requires line != "" && line[0] == '"'
    ensures Sanitized(line, Code) == Kept('"', Sanitized(line[1..], Literal))
  {
  }

  lemma OpensString(body: string, rest: string)
    ensures Sanitized("\"" + body + "\"" + rest, Code) == Kept('"', Sanitized(body + ("\"" + rest), Literal))
  {
    hide Sanitized;
    var quote, tail := "\"", body + ("\"" + rest);
    Associate(quote, body, quote);
    Associate(quote, body + quote, rest);
    Associate(body, quote, rest);
    AfterOne(quote, tail);
    StringOpened(quote + tail);
  }

  lemma AfterOne(a: string, b: string)
    requires |a| == 1
    ensures (a + b)[1..] == b && (a + b)[0] == a[0]
  {
  }

  lemma SanitizeQuoted(s: string, rest: string)
    ensures Sanitized(Quote(s) + rest, Code) == ("\"\"" + Sanitized(rest, Code).0, Sanitized(rest, Code).1)
  {
    hide Body;
    SanitizeBody(s, rest);
    OpensString(Body(s, true), rest);
    assert "\"" + "\"" == "\"\"";
    Associate("\"", "\"", Sanitized(rest, Code).0);
  }

  // Strings come out empty and nothing else is touched; no comment is left open.
  lemma {:induction false} SanitizeLine(line: Line)
    requires Tidy(line)
    ensures Sanitized(Spelled(line), Code) == (CodeOf(line), false)
  {
    if line != [] {
      var rest := Spelled(line[1..]);
      SanitizeLine(line[1..]);
      SanitizePiece(line[0], rest);
    }
  }

  lemma SanitizePiece(p: Piece, rest: string)
    requires TidyPiece(p)
    ensures Sanitized(SpellPiece(p) + rest, Code) == (CodePiece(p) + Sanitized(rest, Code).0, Sanitized(rest, Code).1)
  {
    match p
    case Raw(text) => SanitizeSimple(text, rest);
    case Mark(c) => SanitizeSimple([c], rest);
    case Quoted(text) => SanitizeQuoted(text, rest);
  }

  lemma {:induction false} CountConcat(a: string, b: string, c: char)
    ensures Count(a + b, c) == Count(a, c) + Count(b, c)
  {
    if a == "" {
      assert a + b == b;
    } else {
      assert (a + b)[1..] == a[1..] + b;
      CountConcat(a[1..], b, c);
    }
  }

  lemma {:induction false} CountSimple(s: string, c: char)
    requires forall k :: 0 <= k < |s| ==> s[k] != c
    ensures Count(s, c) == 0
  {
    if s != "" {
      CountSimple(s[1..], c);
    }
  }

  function CurlyPiece(p: Piece): int {
    if p == Mark('{') then 1 else if p == Mark('}') then -1 else 0
  }

  function Curly(line: Line): int {
    if line == [] then 0 else CurlyPiece(line[0]) + Curly(line[1..])
  }

  lemma {:induction false} CountCurly(line: Line)
    requires Tidy(line)
    ensures Count(CodeOf(line), '{') - Count(CodeOf(line), '}') == Curly(line)
  {
    if line != [] {
      CountCurly(line[1..]);
      var word := CodePiece(line[0]);
      CountConcat(word, CodeOf(line[1..]), '{');
      CountConcat(word, CodeOf(line[1..]), '}');
      if !line[0].Mark? {
        CountSimple(word, '{');
        CountSimple(word, '}');
      } else {
        assert [line[0].c][1..] == "";
      }
    }
  }

  // ---------------------------------------------------------------- blocks

  // Both readers take the line from depth d to depth e.
  predicate Reads(line: Line, d: nat, e: nat) {
    Tidy(line) && Depth(line, d) == e && d + Curly(line) == e
  }

  // The lines never start at depth zero, and end there.
  predicate Returns(lines: seq<Line>, d: nat)
    decreases |lines|
  {
    if lines == [] then d == 0
    else d > 0 && Reads(lines[0], d, Depth(lines[0], d)) && Returns(lines[1..], Depth(lines[0], d))
  }

  // A field: its first line is the only one that starts at depth zero.
  predicate Block(lines: seq<Line>) {
    && lines != []
    && Reads(lines[0], 0, Depth(lines[0], 0))
    && Returns(lines[1..], Depth(lines[0], 0))
  }

  // Lines inside a block, from depth d to depth e.
  predicate Nested(lines: seq<Line>, d: nat, e: nat)
    decreases |lines|
  {
    d > 0 && if lines == [] then d == e
             else Reads(lines[0], d, Depth(lines[0], d)) && Nested(lines[1..], Depth(lines[0], d), e)
  }

  lemma {:induction false} NestedConcat(a: seq<Line>, b: seq<Line>, d: nat, e: nat, f: nat)
    requires Nested(a, d, e) && Nested(b, e, f)
    ensures Nested(a + b, d, f)
    decreases |a|
  {
    if a == [] {
      assert a + b == b;
    } else {
      assert (a + b)[1..] == a[1..] + b;
      NestedConcat(a[1..], b, Depth(a[0], d), e, f);
    }
  }

  lemma {:induction false} NestedReturns(a: seq<Line>, d: nat, e: nat, last: Line)
    requires Nested(a, d, e) && Reads(last, e, 0)
    ensures Returns(a + [last], d)
    decreases |a|
  {
    if a == [] {
      assert a + [last] == [last] && [last][1..] == [];
    } else {
      assert (a + [last])[1..] == a[1..] + [last];
      NestedReturns(a[1..], Depth(a[0], d), e, last);
    }
  }

  lemma NestedOne(line: Line, d: nat, e: nat)
    requires d > 0 && e > 0 && Reads(line, d, e)
    ensures Nested([line], d, e)
  {
    assert [line][1..] == [];
  }

  lemma Wrapped(first: Line, inside: seq<Line>, last: Line)
    requires Reads(first, 0, 1) && Nested(inside, 1, 1) && Reads(last, 1, 0)
    ensures Block([first] + inside + [last])
  {
    NestedReturns(inside, 1, 1, last);
    assert ([first] + inside + [last])[1..] == inside + [last];
  }

  lemma BlockOne(line: Line)
    requires Reads(line, 0, 0)
    ensures Block([line])
  {
    assert [line][1..] == [];
  }

  // ------------------------------------------------- the renderer's lines are such

  lemma PieceReads(p: Piece, rest: Line, d: nat, e: nat)
    requires TidyPiece(p) && (p.Quoted? && rest != [] ==> !rest[0].Quoted?)
    requires Reads(rest, NextDepth(p, d), e) && NextDepth(p, d) == d + CurlyPiece(p)
    ensures Reads([p] + rest, d, e)
  {
    assert ([p] + rest)[1..] == rest;
  }

  lemma IndentReads(indent: nat, line: Line, d: nat, e: nat)
    requires Reads(line, d, e)
    ensures Reads(Spaces(indent) + line, d, e)
  {
    if indent == 0 {
      assert Spaces(indent) + line == line;
    } else {
      PieceReads(Raw(Repeat(' ', indent)), line, d, e);
    }
  }

  lemma OpenedReads(indent: nat, name: string, d: nat)
    requires Simple(name)
    ensures Reads(Opened(indent, name), d, d + 1)
  {
    PieceReads(Mark('{'), [], d, d + 1);
    PieceReads(Raw(name + " "), [Mark('{')] + [], d, d + 1);
    assert [Raw(name + " ")] + ([Mark('{')] + []) == [Raw(name + " "), Mark('{')];
    IndentReads(indent, [Raw(name + " "), Mark('{')], d, d + 1);
  }

  lemma EmptyReads(indent: nat, name: string, d: nat)
    requires Simple(name)
    ensures Reads(Empty(indent, name), d, d)
  {
    PieceReads(Mark('}'), [], d + 1, d);
    PieceReads(Mark('{'), [Mark('}')] + [], d, d);
    PieceReads(Raw(name + " "), [Mark('{')] + ([Mark('}')] + []), d, d);
    assert [Raw(name + " ")] + ([Mark('{')] + ([Mark('}')] + [])) == [Raw(name + " "), Mark('{'), Mark('}')];
    IndentReads(indent, [Raw(name + " "), Mark('{'), Mark('}')], d, d);
  }

  lemma ClosedReads(indent: nat, d: nat)
    requires d > 0
    ensures Reads(Closed(indent), d, d - 1)
  {
    PieceReads(Mark('}'), [], d, d - 1);
    assert [Mark('}')] + [] == [Mark('}')];
    IndentReads(indent, [Mark('}')], d, d - 1);
  }

  lemma StringReads(head: string, item: string, d: nat)
    requires Simple(head) && head != ""
    ensures Reads([Quoted(item)], d, d) && Reads([Raw(head), Quoted(item)], d, d)
  {
    PieceReads(Quoted(item), [], d, d);
    assert [Quoted(item)] + [] == [Quoted(item)];
    PieceReads(Raw(head), [Quoted(item)], d, d);
    assert [Raw(head)] + [Quoted(item)] == [Raw(head), Quoted(item)];
  }

  lemma {:induction false} ItemsNested(indent: nat, items: seq<string>, d: nat)
    requires d > 0
    ensures Nested(Items(indent, items), d, d)
  {
    if items != [] {
      ItemsNested(indent, items[1..], d);
      StringReads(" ", items[0], d);
      IndentReads(indent + 2, [Quoted(items[0])], d, d);
      NestedOne(Item(indent, items[0]), d, d);
      NestedConcat([Item(indent, items[0])], Items(indent, items[1..]), d, d, d);
    }
  }

  lemma ListingNested(indent: nat, name: string, items: seq<string>, d: nat)
    requires d > 0 && Simple(name)
    ensures Nested(Listing(indent, name, items), d, d)
  {
    EmptyReads(indent, name, d);
    OpenedReads(indent, name, d);
    ClosedReads(indent, d + 1);
    ItemsNested(indent, items, d + 1);
    if items == [] {
      NestedOne(Empty(indent, name), d, d);
    } else {
      NestedOne(Opened(indent, name), d, d + 1);
      NestedOne(Closed(indent), d + 1, d);
      NestedConcat([Opened(indent, name)], Items(indent, items), d, d + 1, d + 1);
      NestedConcat([Opened(indent, name)] + Items(indent, items), [Closed(indent)], d, d + 1, d);
    }
  }

  lemma ListingBlock(name: string, items: seq<string>)
    requires Simple(name)
    ensures Block(Listing(0, name, items))
  {
    EmptyReads(0, name, 0);
    OpenedReads(0, name, 0);
    ClosedReads(0, 1);
    ItemsNested(0, items, 1);
    if items == [] {
      BlockOne(Empty(0, name));
    } else {
      Wrapped(Opened(0, name), Items(0, items), Closed(0));
    }
  }

  lemma FlakeNested(f: Flake)
    ensures Nested(FlakeLines(f), 1, 1)
  {
    hide Nested, Reads;
    var url := Spaces(4) + [Raw("url = "), Quoted(f.url)];
    OpenedReads(2, "new Flake", 1);
    NestedOne(Opened(2, "new Flake"), 1, 2);
    StringReads("url = ", f.url, 2);
    IndentReads(4, [Raw("url = "), Quoted(f.url)], 2, 2);
    NestedOne(url, 2, 2);
    ListingNested(4, "packages", f.packages, 2);
    ListingNested(4, "modules", f.modules, 2);
    ClosedReads(2, 2);
    NestedOne(Closed(2), 2, 1);
    NestedConcat([url], Listing(4, "packages", f.packages), 2, 2, 2);
    NestedConcat([url] + Listing(4, "packages", f.packages), Listing(4, "modules", f.modules), 2, 2, 2);
    var inside := [url] + Listing(4, "packages", f.packages) + Listing(4, "modules", f.modules);
    NestedConcat([Opened(2, "new Flake")], inside, 1, 2, 2);
    NestedConcat([Opened(2, "new Flake")] + inside, [Closed(2)], 1, 2, 1);
  }

  lemma {:induction false} FlakesNested(flakes: seq<Flake>)
    ensures Nested(AllFlakes(flakes), 1, 1)
  {
    if flakes != [] {
      FlakeNested(flakes[0]);
      FlakesNested(flakes[1..]);
      NestedConcat(FlakeLines(flakes[0]), AllFlakes(flakes[1..]), 1, 1, 1);
    }
  }

  lemma {:induction false} DigitsSimple(n: nat)
    ensures Digits(n) != "" && Simple(Digits(n))
  {
    if n >= 10 {
      DigitsSimple(n / 10);
    }
  }

  lemma {:induction false} JoinedReads(items: seq<string>, rest: Line, d: nat, e: nat)
    requires items != [] && rest != [] && !rest[0].Quoted? && Reads(rest, d, e)
    ensures Reads(Joined(items) + rest, d, e)
    ensures Joined(items)[0].Quoted?
  {
    hide Reads;
    if |items| == 1 {
      PieceReads(Quoted(items[0]), rest, d, e);
    } else {
      var tail := Joined(items[1..]) + rest;
      JoinedReads(items[1..], rest, d, e);
      PieceReads(Raw("; "), tail, d, e);
      PieceReads(Quoted(items[0]), [Raw("; ")] + tail, d, e);
      assert Joined(items) + rest == [Quoted(items[0])] + ([Raw("; ")] + tail);
    }
  }

  lemma EndReads(d: nat)
    ensures Reads([Raw(" "), Mark('}')], d + 1, d)
  {
    PieceReads(Mark('}'), [], d + 1, d);
    PieceReads(Raw(" "), [Mark('}')] + [], d + 1, d);
    assert [Raw(" ")] + ([Mark('}')] + []) == [Raw(" "), Mark('}')];
  }

  lemma BeginReads(inside: Line, d: nat)
    requires Reads(inside, d + 1, d)
    ensures Reads([Raw("new Listing "), Mark('{'), Raw(" ")] + inside, d, d)
  {
    hide Reads;
    PieceReads(Raw(" "), inside, d + 1, d);
    PieceReads(Mark('{'), [Raw(" ")] + inside, d, d);
    PieceReads(Raw("new Listing "), [Mark('{')] + ([Raw(" ")] + inside), d, d);
    assert [Raw("new Listing ")] + ([Mark('{')] + ([Raw(" ")] + inside))
        == [Raw("new Listing "), Mark('{'), Raw(" ")] + inside;
  }

  lemma ListReads(items: seq<string>, d: nat)
    ensures Reads(ListValue(items), d, d)
  {
    hide Reads, Joined;
    if items == [] {
      EmptyReads(0, "new Listing", d);
      assert "new Listing" + " " == "new Listing ";
      assert ListValue(items) == Empty(0, "new Listing");
    } else {
      var end := [Raw(" "), Mark('}')];
      EndReads(d);
      JoinedReads(items, end, d + 1, d);
      BeginReads(Joined(items) + end, d);
      assert ListValue(items) == [Raw("new Listing "), Mark('{'), Raw(" ")] + (Joined(items) + end);
    }
  }

  lemma ValueReads(v: Setting, d: nat)
    requires PklValue(v).Some?
    ensures Reads(PklValue(v).value, d, d)
  {
    hide Reads, ListValue, Decimal, Boolean;
    match v
    case SettingString(text) => StringReads(" ", text, d);
    case SettingBool(on) => WordReads(Boolean(on), d) by { BooleanSimple(on); }
    case SettingInt(n) => WordReads(Decimal(n), d) by { DecimalSimple(n); }
    case SettingStrings(items) => ListReads(items, d);
    case SettingBoxed(elements) => ListReads(Unboxed(elements).value, d);
  }

  lemma BooleanSimple(b: bool)
    ensures Boolean(b) != "" && Simple(Boolean(b))
  {
  }

  lemma DecimalSimple(n: int)
    ensures Decimal(n) != "" && Simple(Decimal(n))
  {
    DigitsSimple(if n < 0 then -n else n);
  }

  lemma WordReads(word: string, d: nat)
    requires word != "" && Simple(word)
    ensures Reads([Raw(word)], d, d)
  {
    PieceReads(Raw(word), [], d, d);
    assert [Raw(word)] + [] == [Raw(word)];
  }

  // One piece before a line, for each of the three things a reader takes from it.
  lemma PieceFirst(p: Piece, rest: Line, d: nat)
    ensures Depth([p] + rest, d) == Depth(rest, NextDepth(p, d))
    ensures Curly([p] + rest) == CurlyPiece(p) + Curly(rest)
    ensures TidyPiece(p) && (p.Quoted? && rest != [] ==> !rest[0].Quoted?) && Tidy(rest) ==> Tidy([p] + rest)
  {
    assert ([p] + rest)[1..] == rest;
  }

  lemma NotCounted(p: Piece, d: nat)
    requires !p.Mark?
    ensures NextDepth(p, d) == d && CurlyPiece(p) == 0 && (p.Quoted? ==> TidyPiece(p))
  {
  }

  lemma Brackets(d: nat)
    ensures NextDepth(Mark('['), d) == d + 1 && NextDepth(Mark(']'), d + 1) == d
    ensures CurlyPiece(Mark('[')) == CurlyPiece(Mark(']')) == 0
    ensures TidyPiece(Raw(" = ")) && TidyPiece(Raw("  ")) && TidyPiece(Mark('[')) && TidyPiece(Mark(']'))
  {
  }

  // From the closing bracket of a setting's key on.
  function SettingTail(value: Line): Line { [Mark(']')] + ([Raw(" = ")] + value) }

  lemma SettingShape(key: string, value: Line)
    ensures SettingLine(key, value) == [Raw("  ")] + ([Mark('[')] + ([Quoted(key)] + SettingTail(value)))
  {
  }

  lemma TailReads(value: Line, d: nat)
    requires Tidy(value) && Depth(value, d) == d && Curly(value) == 0
    ensures Tidy(SettingTail(value)) && Depth(SettingTail(value), d + 1) == d && Curly(SettingTail(value)) == 0
    ensures SettingTail(value)[0] == Mark(']')
  {
    hide Depth, Curly, Tidy, TidyPiece, NextDepth, CurlyPiece;
    NotCounted(Raw(" = "), d);
    Brackets(d);
    PieceFirst(Raw(" = "), value, d);
    PieceFirst(Mark(']'), [Raw(" = ")] + value, d + 1);
  }

  // Square brackets nest for the scanner and do not exist for the line reader.
  lemma SettingReads(key: string, value: Line, d: nat)
    requires Tidy(value) && Depth(value, d) == d && Curly(value) == 0
    ensures Reads(SettingLine(key, value), d, d)
  {
    hide Depth, Curly, Tidy, TidyPiece, NextDepth, CurlyPiece, SettingTail, SettingLine;
    NotCounted(Quoted(key), d + 1);
    NotCounted(Raw("  "), d);
    Brackets(d);
    TailReads(value, d);
    var tail := SettingTail(value);
    PieceFirst(Quoted(key), tail, d + 1);
    PieceFirst(Mark('['), [Quoted(key)] + tail, d);
    PieceFirst(Raw("  "), [Mark('[')] + ([Quoted(key)] + tail), d);
    SettingShape(key, value);
  }

  lemma {:induction false} SettingsNested(settings: map<string, Setting>, keys: seq<string>)
    requires forall k :: k in keys ==> k in settings
    requires SettingLines(settings, keys).Ok?
    ensures Nested(SettingLines(settings, keys).value, 1, 1)
  {
    hide PklValue, SettingLine;
    if keys != [] {
      var value := PklValue(settings[keys[0]]).value;
      ValueReads(settings[keys[0]], 1);
      SettingReads(keys[0], value, 1);
      SettingsNested(settings, keys[1..]);
      NestedOne(SettingLine(keys[0], value), 1, 1);
      NestedConcat([SettingLine(keys[0], value)], SettingLines(settings, keys[1..]).value, 1, 1, 1);
    }
  }

  predicate IdentName(s: string) {
    s != "" && IdentStart(s[0]) && forall k :: 0 <= k < |s| ==> IdentPart(s[k])
  }

  lemma NamesAreIdents(name: string)
    requires name in FIELD_ORDER
    ensures IdentName(name) && Simple(name) && KnownField(name)
  {
    hide IdentName, Simple;
    assert name in FIELD_ORDER[..4] || name in FIELD_ORDER[4..8] || name in FIELD_ORDER[8..11] || name in FIELD_ORDER[11..];
    if name in FIELD_ORDER[..4] {
      FirstNames(name);
    } else if name in FIELD_ORDER[4..8] {
      SecondNames(name);
    } else if name in FIELD_ORDER[8..11] {
      ThirdNames(name);
    } else {
      LastNames(name);
    }
    NamesAreSimple(name);
  }

  lemma NamesAreSimple(name: string)
    requires IdentName(name)
    ensures Simple(name)
  {
  }

  lemma FirstNames(name: string)
    requires name in ["basePath", "region", "size", "template"]
    ensures IdentName(name)
  {
  }

  lemma SecondNames(name: string)
    requires name in ["arch", "image", "tailscale", "beads"]
    ensures IdentName(name)
  {
  }

  lemma ThirdNames(name: string)
    requires name in ["sshKeys", "packages", "agents"]
    ensures IdentName(name)
  {
  }

  lemma LastNames(name: string)
    requires name in ["allowUnfreePackages", "instructions", "flakes", "settings"]
    ensures IdentName(name)
  {
  }

  // Every field the renderer writes is a block, whatever its strings hold.
  lemma FieldIsBlock(name: string, value: Value)
    requires name in FIELD_ORDER && FieldLines(name, value).Ok?
    ensures Block(FieldLines(name, value).value)
  {
    hide Block, Nested, Reads, SettingLines, Simple, IdentName, KnownField;
    NamesAreIdents(name);
    match KindOf(name)
    case KindString =>
      HeadIsSimple(name, "");
      StringReads(name + " = ", value.text, 0);
      BlockOne([Raw(name + " = "), Quoted(value.text)]);
    case KindBool =>
      BooleanSimple(value.on);
      HeadIsSimple(name, Boolean(value.on));
      WordReads(name + " = " + Boolean(value.on), 0);
      BlockOne([Raw(name + " = " + Boolean(value.on))]);
    case KindStringList => ListingBlock(name, value.items);
    case KindFlakeList => FlakesAreBlock(value.flakes);
    case KindSettingsMap => SettingsAreBlock(value.settings);
  }

  lemma HeadIsSimple(name: string, word: string)
    requires Simple(name) && Simple(word)
    ensures Simple(name + " = ") && Simple(name + " = " + word)
  {
  }

  lemma FlakesAreBlock(flakes: seq<Flake>)
    ensures Block(FlakesBlock(flakes))
  {
    hide Nested, Reads;
    EmptyReads(0, "flakes", 0);
    OpenedReads(0, "flakes", 0);
    ClosedReads(0, 1);
    FlakesNested(flakes);
    if flakes == [] {
      BlockOne(Empty(0, "flakes"));
    } else {
      Wrapped(Opened(0, "flakes"), AllFlakes(flakes), Closed(0));
    }
  }

  lemma SettingsAreBlock(settings: map<string, Setting>)
    requires SettingsBlock(settings).Ok?
    ensures Block(SettingsBlock(settings).value)
  {
    hide Nested, Reads;
    EmptyReads(0, "settings", 0);
    OpenedReads(0, "settings", 0);
    ClosedReads(0, 1);
    if settings == map[] {
      BlockOne(Empty(0, "settings"));
    } else {
      SettingsNested(settings, InOrder(settings.Keys));
      Wrapped(Opened(0, "settings"), SettingLines(settings, InOrder(settings.Keys)).value, Closed(0));
    }
  }
}
