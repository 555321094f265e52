/**
 * Reading a rendered file back (internal/config/write.go): a reader of the members of a Pkl file
 * that knows the schema's fields and nothing of the renderer finds the values that were rendered.
 */
module PklValues {
  import opened Options
  import opened SortedKeys
  import opened PklScan
  import opened PklString
  import opened PklRender
  import opened PklBlocks
  import opened PklTokens
  import opened Text

  // ------------------------------------------------------------------- the reader

  function NumberIn(word: string): Option<int> {
    var digits := if word != "" && word[0] == '-' then word[1..] else word;
    if digits == "" || !AllDigits(digits) then None
    else Some(if word[0] == '-' then -(NumberOf(digits) as int) else NumberOf(digits))
  }

  // The strings of a listing, past its opening brace and up to its closing one.
  function ReadItems(ts: seq<Token>): (r: Option<(seq<string>, seq<Token>)>)
    ensures r.Some? ==> |r.value.1| < |ts|
    decreases |ts|
  {
    if ts == [] then None
    else if ts[0] == Sym('}') then Some(([], ts[1..]))
    else if ts[0].Str? then
      var rest := ReadItems(ts[1..]);
      if rest.None? then None else Some(([ts[0].text] + rest.value.0, rest.value.1))
    else None
  }

  // `name { ... }`.
  function ReadListing(ts: seq<Token>, name: string): (r: Option<(seq<string>, seq<Token>)>)
    ensures r.Some? ==> |r.value.1| < |ts|
  {
    if |ts| >= 2 && ts[0] == Word(name) && ts[1] == Sym('{') then ReadItems(ts[2..]) else None
  }

  // One `new Flake { url = ... packages ... modules ... }`.
  function ReadFlake(ts: seq<Token>): (r: Option<(Flake, seq<Token>)>)
    ensures r.Some? ==> |r.value.1| < |ts|
  {
    if !(|ts| >= 6 && ts[..3] == [Word("new"), Word("Flake"), Sym('{')] && ts[3] == Word("url") && ts[4] == Sym('=') && ts[5].Str?) then None
    else
      var packages := ReadListing(ts[6..], "packages");
      if packages.None? then None
      else
        var modules := ReadListing(packages.value.1, "modules");
        if modules.None? || modules.value.1 == [] || modules.value.1[0] != Sym('}') then None
        else Some((Flake(ts[5].text, packages.value.0, modules.value.0), modules.value.1[1..]))
  }

  function ReadFlakes(ts: seq<Token>): (r: Option<(seq<Flake>, seq<Token>)>)
    ensures r.Some? ==> |r.value.1| < |ts|
    decreases |ts|
  {
    if ts != [] && ts[0] == Sym('}') then Some(([], ts[1..]))
    else
      var first := ReadFlake(ts);
      if first.None? then None
      else
        var rest := ReadFlakes(first.value.1);
        if rest.None? then None else Some(([first.value.0] + rest.value.0, rest.value.1))
  }

  function ReadSetting(ts: seq<Token>): (r: Option<(Setting, seq<Token>)>)
    ensures r.Some? ==> |r.value.1| < |ts|
  {
    if ts == [] then None
    else if ts[0].Str? then Some((SettingString(ts[0].text), ts[1..]))
    else if ts[0] == Word("true") then Some((SettingBool(true), ts[1..]))
    else if ts[0] == Word("false") then Some((SettingBool(false), ts[1..]))
    else if ts[0] == Word("new") then
      var items := ReadListing(ts[1..], "Listing");
      if items.None? then None else Some((SettingStrings(items.value.0), items.value.1))
    else if ts[0].Word? && NumberIn(ts[0].text).Some? then Some((SettingInt(NumberIn(ts[0].text).value), ts[1..]))
    else None
  }

  // `["key"] = value` members, each key once.
  function ReadSettings(ts: seq<Token>): (r: Option<(map<string, Setting>, seq<Token>)>)
    ensures r.Some? ==> |r.value.1| < |ts|
    decreases |ts|
  {
    if ts != [] && ts[0] == Sym('}') then Some((map[], ts[1..]))
    else if !(|ts| >= 4 && ts[0] == Sym('[') && ts[1].Str? && ts[2] == Sym(']') && ts[3] == Sym('=')) then None
    else
      var value := ReadSetting(ts[4..]);
      if value.None? then None
      else
        var rest := ReadSettings(value.value.1);
        if rest.None? || ts[1].text in rest.value.0 then None
        else Some((rest.value.0[ts[1].text := value.value.0], rest.value.1))
  }

  // What `name = ` is given.
  function ReadScalar(t: Token): Option<Value> {
    match t
    case Str(text) => Some(String(text))
    case Word(text) => if text == "true" then Some(Bool(true)) else if text == "false" then Some(Bool(false)) else None
    case _ => None
  }

  // What `name { ` opens.
  function ReadBlock(ts: seq<Token>, name: string): (r: Option<(Value, seq<Token>)>)
    ensures r.Some? ==> |r.value.1| < |ts|
  {
    if name == "flakes" then
      var flakes := ReadFlakes(ts);
      if flakes.None? then None else Some((Flakes(flakes.value.0), flakes.value.1))
    else if name == "settings" then
      var settings := ReadSettings(ts);
      if settings.None? then None else Some((Settings(settings.value.0), settings.value.1))
    else
      var items := ReadItems(ts);
      if items.None? then None else Some((Strings(items.value.0), items.value.1))
  }

  // The fields of a file, each once.
  function ReadFields(ts: seq<Token>): Option<Values>
    decreases |ts|
  {
    if ts == [] then Some(map[])
    else if !(|ts| >= 3 && ts[0].Word?) then None
    else if ts[1] == Sym('=') then
      var rest := ReadFields(ts[3..]);
      if ReadScalar(ts[2]).None? || rest.None? || ts[0].text in rest.value then None
      else Some(rest.value[ts[0].text := ReadScalar(ts[2]).value])
    else if ts[1] == Sym('{') then
      var value := ReadBlock(ts[2..], ts[0].text);
      if value.None? then None
      else
        var rest := ReadFields(value.value.1);
        if rest.None? || ts[0].text in rest.value then None else Some(rest.value[ts[0].text := value.value.0])
    else None
  }

  function ReadValues(text: string): Option<Values> {
    var ts := Tokens(text);
    if ts.None? then None else ReadFields(ts.value)
  }

  // --------------------------------------------------------------- the same values

  // A list is the same list in either of its two shapes.
  ghost predicate SameSetting(v: Setting, w: Setting) {
    match v
    case SettingBoxed(elements) =>
      w.SettingStrings? && |w.items| == |elements| && forall i :: 0 <= i < |elements| ==> elements[i] == SettingString(w.items[i])
    case _ => v == w
  }

  ghost predicate SameValue(v: Value, w: Value) {
    if v.Settings? then
      && w.Settings? && w.settings.Keys == v.settings.Keys
      && forall k :: k in v.settings ==> SameSetting(v.settings[k], w.settings[k])
    else v == w
  }

  // The fields the renderer has no line for.
  const UNWRITTEN: set<string> := {"provider", "digitalocean", "gcloud", "shell", "herdrTabs"}

  ghost predicate SameValues(v: Values, w: Values) {
    && w.Keys == v.Keys - UNWRITTEN
    && forall n :: n in w ==> SameValue(v[n], w[n])
  }

  // ------------------------------------------------------------- listings and their items

  function Strs(items: seq<string>): seq<Token> {
    if items == [] then [] else [Str(items[0])] + Strs(items[1..])
  }

  lemma {:induction false} ItemsRead(items: seq<string>, rest: seq<Token>)
    ensures ReadItems(Strs(items) + [Sym('}')] + rest) == Some((items, rest))
  {
    var ts := Strs(items) + [Sym('}')] + rest;
    if items == [] {
      assert ts == [Sym('}')] + rest;
    } else {
      ItemsRead(items[1..], rest);
      assert ts == [Str(items[0])] + (Strs(items[1..]) + [Sym('}')] + rest);
      assert items == [items[0]] + items[1..];
    }
  }

  function ListingTokens(name: string, items: seq<string>): seq<Token> {
    [Word(name), Sym('{')] + (Strs(items) + [Sym('}')])
  }

  lemma ListingRead(name: string, items: seq<string>, rest: seq<Token>)
    ensures ReadListing(ListingTokens(name, items) + rest, name) == Some((items, rest))
  {
    var ts := ListingTokens(name, items) + rest;
    ItemsRead(items, rest);
    assert ts[2..] == Strs(items) + [Sym('}')] + rest;
  }

  lemma OpenedLexes(indent: nat, name: string)
    requires IsWord(name)
    ensures LineLexes(Opened(indent, name), [Word(name), Sym('{')])
  {
    hide LineLexes, LooseLine;
    LineSpaces(indent);
    LineTerm(name);
    LineMark('{');
    LineBoth([Raw(name + " ")], [Word(name)], [Mark('{')], [Sym('{')]);
    LineBoth(Spaces(indent), [], [Raw(name + " ")] + [Mark('{')], [Word(name)] + [Sym('{')]);
    assert Opened(indent, name) == Spaces(indent) + ([Raw(name + " ")] + [Mark('{')]);
    assert [] + ([Word(name)] + [Sym('{')]) == [Word(name), Sym('{')];
  }

  lemma ClosedLexes(indent: nat)
    ensures LineLexes(Closed(indent), [Sym('}')])
  {
    hide LineLexes, LooseLine;
    LineSpaces(indent);
    LineMark('}');
    LineBoth(Spaces(indent), [], [Mark('}')], [Sym('}')]);
    assert [] + [Sym('}')] == [Sym('}')];
  }

  lemma EmptyLexes(indent: nat, name: string)
    requires IsWord(name)
    ensures LineLexes(Empty(indent, name), [Word(name), Sym('{'), Sym('}')])
  {
    hide LineLexes, LooseLine;
    OpenedLexes(indent, name);
    OpenedLoose(indent, name);
    LineMark('}');
    LineBoth(Opened(indent, name), [Word(name), Sym('{')], [Mark('}')], [Sym('}')]);
    assert Empty(indent, name) == Opened(indent, name) + [Mark('}')];
    assert [Word(name), Sym('{')] + [Sym('}')] == [Word(name), Sym('{'), Sym('}')];
  }

  lemma OpenedLoose(indent: nat, name: string)
    ensures LooseLine(Opened(indent, name))
  {
    var front := Spaces(indent) + [Raw(name + " ")];
    assert Opened(indent, name) == front + [Mark('{')];
    SpelledConcat(front, [Mark('{')]);
    LineMark('{');
    assert Spelled([Mark('{')]) == "{" by { LinePieceIs(Mark('{')); }
  }

  lemma LinePieceIs(p: Piece)
    ensures Spelled([p]) == SpellPiece(p)
  {
    assert [p][1..] == [];
    assert SpellPiece(p) + "" == SpellPiece(p);
  }

  lemma {:induction false} ItemsLex(indent: nat, items: seq<string>)
    ensures Lexes(TextOf(Items(indent, items)), Strs(items))
  {
    hide Lexes, LineLexes, LooseLine;
    if items == [] {
      TextNothing();
    } else {
      ItemsLex(indent, items[1..]);
      LineSpaces(indent + 2);
      LineQuoted(items[0]);
      LineBoth(Spaces(indent + 2), [], [Quoted(items[0])], [Str(items[0])]);
      assert [] + [Str(items[0])] == [Str(items[0])];
      TextLine(Item(indent, items[0]), [Str(items[0])], Items(indent, items[1..]), Strs(items[1..]));
    }
  }

  lemma TextOne(line: Line, t: seq<Token>)
    requires LineLexes(line, t)
    ensures Lexes(TextOf([line]), t)
  {
    hide Lexes, LineLexes;
    TextNothing();
    TextLine(line, t, [], []);
    assert [line] + [] == [line] && t + [] == t;
  }

  lemma ListingLexes(indent: nat, name: string, items: seq<string>)
    requires IsWord(name)
    ensures Lexes(TextOf(Listing(indent, name, items)), ListingTokens(name, items))
  {
    hide Lexes, LineLexes;
    if items == [] {
      EmptyLexes(indent, name);
      TextOne(Empty(indent, name), [Word(name), Sym('{'), Sym('}')]);
      assert ListingTokens(name, items) == [Word(name), Sym('{'), Sym('}')];
    } else {
      ItemsLex(indent, items);
      OpenedLexes(indent, name);
      Enclosed(Opened(indent, name), [Word(name), Sym('{')], Items(indent, items), Strs(items), indent);
    }
  }

  // Lines between an opening and a closing one.
  lemma Enclosed(opening: Line, o: seq<Token>, inside: seq<Line>, t: seq<Token>, indent: nat)
    requires LineLexes(opening, o) && Lexes(TextOf(inside), t)
    ensures Lexes(TextOf([opening] + inside + [Closed(indent)]), o + (t + [Sym('}')]))
  {
    hide Lexes, LineLexes;
    ClosedLexes(indent);
    TextOne(Closed(indent), [Sym('}')]);
    TextBoth(inside, t, [Closed(indent)], [Sym('}')]);
    TextLine(opening, o, inside + [Closed(indent)], t + [Sym('}')]);
    assert [opening] + inside + [Closed(indent)] == [opening] + (inside + [Closed(indent)]);
  }

  // ---------------------------------------------------------------------- flakes

  // `new Flake `, `new Listing `.
  lemma NewLexes(what: string)
    requires IsWord(what)
    ensures LineLexes([Raw("new " + what + " ")], [Word("new"), Word(what)]) && LooseLine([Raw("new " + what + " ")])
  {
    hide Lexes, Tokens;
    LexesTerm("new");
    LexesTerm(what);
    assert "new" + " " == "new ";
    LexesBoth("new ", [Word("new")], what + " ", [Word(what)]);
    assert "new " + (what + " ") == "new " + what + " ";
    assert [Word("new")] + [Word(what)] == [Word("new"), Word(what)];
    LinePiece(Raw("new " + what + " "), [Word("new"), Word(what)]);
  }

  lemma FlakeOpens()
    ensures LineLexes(Opened(2, "new Flake"), [Word("new"), Word("Flake"), Sym('{')])
  {
    hide LineLexes, LooseLine;
    NewLexes("Flake");
    assert "new " + "Flake" + " " == "new Flake" + " ";
    LineSpaces(2);
    LineMark('{');
    LineBoth([Raw("new Flake" + " ")], [Word("new"), Word("Flake")], [Mark('{')], [Sym('{')]);
    LineBoth(Spaces(2), [], [Raw("new Flake" + " ")] + [Mark('{')], [Word("new"), Word("Flake")] + [Sym('{')]);
    assert Opened(2, "new Flake") == Spaces(2) + ([Raw("new Flake" + " ")] + [Mark('{')]);
    assert [] + ([Word("new"), Word("Flake")] + [Sym('{')]) == [Word("new"), Word("Flake"), Sym('{')];
  }

  lemma UrlLexes(url: string)
    ensures LineLexes(Spaces(4) + [Raw("url = "), Quoted(url)], [Word("url"), Sym('='), Str(url)])
  {
    hide LineLexes, LooseLine;
    LineSpaces(4);
    LineAssigns("url");
    LineQuoted(url);
    assert "url" + " = " == "url = ";
    LineBoth([Raw("url = ")], [Word("url"), Sym('=')], [Quoted(url)], [Str(url)]);
    LineBoth(Spaces(4), [], [Raw("url = ")] + [Quoted(url)], [Word("url"), Sym('=')] + [Str(url)]);
    assert [Raw("url = ")] + [Quoted(url)] == [Raw("url = "), Quoted(url)];
    assert [] + ([Word("url"), Sym('=')] + [Str(url)]) == [Word("url"), Sym('='), Str(url)];
  }

  function FlakeTokens(f: Flake): seq<Token> {
    [Word("new"), Word("Flake"), Sym('{')]
    + (([Word("url"), Sym('='), Str(f.url)] + ListingTokens("packages", f.packages) + ListingTokens("modules", f.modules)) + [Sym('}')])
  }

  lemma FlakeLexes(f: Flake)
    ensures Lexes(TextOf(FlakeLines(f)), FlakeTokens(f))
  {
    hide Lexes, LineLexes, ListingTokens;
    var url := Spaces(4) + [Raw("url = "), Quoted(f.url)];
    var packages, modules := Listing(4, "packages", f.packages), Listing(4, "modules", f.modules);
    var pt, mt, ut := ListingTokens("packages", f.packages), ListingTokens("modules", f.modules), [Word("url"), Sym('='), Str(f.url)];
    FlakeOpens();
    UrlLexes(f.url);
    ListingLexes(4, "packages", f.packages);
    ListingLexes(4, "modules", f.modules);
    TextLine(url, ut, packages, pt);
    TextBoth([url] + packages, ut + pt, modules, mt);
    Enclosed(Opened(2, "new Flake"), [Word("new"), Word("Flake"), Sym('{')], [url] + packages + modules, ut + pt + mt, 2);
  }

  lemma FlakeRead(f: Flake, rest: seq<Token>)
    ensures ReadFlake(FlakeTokens(f) + rest) == Some((f, rest))
  {
    hide ReadListing, ListingTokens;
    var ts := FlakeTokens(f) + rest;
    var pt, mt := ListingTokens("packages", f.packages), ListingTokens("modules", f.modules);
    var after := [Sym('}')] + rest;
    ListingRead("packages", f.packages, mt + after);
    ListingRead("modules", f.modules, after);
    assert ts[..3] == [Word("new"), Word("Flake"), Sym('{')];
    assert ts[3] == Word("url") && ts[4] == Sym('=') && ts[5] == Str(f.url);
    assert ts[6..] == pt + (mt + after);
  }

  function FlakesTokens(flakes: seq<Flake>): seq<Token> {
    if flakes == [] then [] else FlakeTokens(flakes[0]) + FlakesTokens(flakes[1..])
  }

  lemma {:induction false} FlakesLex(flakes: seq<Flake>)
    ensures Lexes(TextOf(AllFlakes(flakes)), FlakesTokens(flakes))
  {
    hide Lexes, FlakeLines, FlakeTokens;
    if flakes == [] {
      TextNothing();
    } else {
      FlakeLexes(flakes[0]);
      FlakesLex(flakes[1..]);
      TextBoth(FlakeLines(flakes[0]), FlakeTokens(flakes[0]), AllFlakes(flakes[1..]), FlakesTokens(flakes[1..]));
    }
  }

  lemma {:induction false} FlakesRead(flakes: seq<Flake>, rest: seq<Token>)
    ensures ReadFlakes(FlakesTokens(flakes) + [Sym('}')] + rest) == Some((flakes, rest))
  {
    hide ReadFlake;
    var ts := FlakesTokens(flakes) + [Sym('}')] + rest;
    if flakes == [] {
      assert ts == [Sym('}')] + rest;
    } else {
      var more := FlakesTokens(flakes[1..]) + [Sym('}')] + rest;
      FlakesRead(flakes[1..], rest);
      FlakeRead(flakes[0], more);
      assert ts == FlakeTokens(flakes[0]) + more;
      assert ts[0] == Word("new");
      assert flakes == [flakes[0]] + flakes[1..];
    }
  }

  // -------------------------------------------------------------------- settings

  lemma {:induction false} JoinedLexes(items: seq<string>)
    requires items != []
    ensures LineLexes(Joined(items), Strs(items)) && LooseLine(Joined(items))
  {
    hide LineLexes, LooseLine;
    LineQuoted(items[0]);
    if |items| == 1 {
      assert items[1..] == [] && [Str(items[0])] + [] == [Str(items[0])];
    } else {
      JoinedLexes(items[1..]);
      SeparatorLexes();
      LineBoth([Raw("; ")], [], Joined(items[1..]), Strs(items[1..]));
      LineBoth([Quoted(items[0])], [Str(items[0])], [Raw("; ")] + Joined(items[1..]), [] + Strs(items[1..]));
      assert Joined(items) == [Quoted(items[0])] + ([Raw("; ")] + Joined(items[1..]));
      assert [] + Strs(items[1..]) == Strs(items[1..]);
    }
  }

  lemma SeparatorLexes()
    ensures LineLexes([Raw("; ")], []) && LooseLine([Raw("; ")])
    ensures LineLexes([Raw(" ")], []) && LooseLine([Raw(" ")])
  {
    LexesBlank(';');
    LexesBlank(' ');
    LexesBoth(";", [], " ", []);
    assert ";" + " " == "; ";
    LinePiece(Raw("; "), []);
    LinePiece(Raw(" "), []);
  }

  // `new Listing {`, as it begins a list value.
  lemma ListValueOpens()
    ensures LineLexes([Raw("new Listing "), Mark('{')], [Word("new"), Word("Listing"), Sym('{')])
    ensures LooseLine([Raw("new Listing "), Mark('{')])
  {
    hide LineLexes, LooseLine;
    NewLexes("Listing");
    assert "new " + "Listing" + " " == "new Listing ";
    LineMark('{');
    LineBoth([Raw("new Listing ")], [Word("new"), Word("Listing")], [Mark('{')], [Sym('{')]);
    assert [Raw("new Listing ")] + [Mark('{')] == [Raw("new Listing "), Mark('{')];
    assert [Word("new"), Word("Listing")] + [Sym('{')] == [Word("new"), Word("Listing"), Sym('{')];
  }

  lemma ListValueInside(items: seq<string>)
    requires items != []
    ensures LineLexes([Raw(" ")] + (Joined(items) + [Raw(" "), Mark('}')]), Strs(items) + [Sym('}')])
  {
    hide LineLexes, LooseLine;
    JoinedLexes(items);
    SeparatorLexes();
    LineMark('}');
    LineBoth([Raw(" ")], [], [Mark('}')], [Sym('}')]);
    assert [Raw(" ")] + [Mark('}')] == [Raw(" "), Mark('}')] && [] + [Sym('}')] == [Sym('}')];
    LineBoth(Joined(items), Strs(items), [Raw(" "), Mark('}')], [Sym('}')]);
    LineBoth([Raw(" ")], [], Joined(items) + [Raw(" "), Mark('}')], Strs(items) + [Sym('}')]);
    assert [] + (Strs(items) + [Sym('}')]) == Strs(items) + [Sym('}')];
  }

  lemma ListValueLexes(items: seq<string>)
    ensures LineLexes(ListValue(items), [Word("new")] + ListingTokens("Listing", items))
  {
    hide LineLexes, LooseLine, Joined;
    ListValueOpens();
    var head, ht := [Raw("new Listing "), Mark('{')], [Word("new"), Word("Listing"), Sym('{')];
    if items == [] {
      LineMark('}');
      LineBoth(head, ht, [Mark('}')], [Sym('}')]);
      assert ListValue(items) == head + [Mark('}')];
      assert [Word("new")] + ListingTokens("Listing", items) == ht + [Sym('}')];
    } else {
      ListValueInside(items);
      var j, s := Joined(items), Strs(items);
      LineBoth(head, ht, [Raw(" ")] + (j + [Raw(" "), Mark('}')]), s + [Sym('}')]);
      assert ListValue(items) == head + ([Raw(" ")] + (j + [Raw(" "), Mark('}')]));
      assert [Word("new")] + ListingTokens("Listing", items) == ht + (s + [Sym('}')]);
    }
  }

  lemma WordLine(word: string)
    requires IsWord(word)
    ensures LineLexes([Raw(word)], [Word(word)])
  {
    LexesWord(word);
    LinePiece(Raw(word), [Word(word)]);
  }

  lemma DigitsAreAWord(s: string)
    requires s != "" && AllDigits(s)
    ensures IsWord(s) && IsWord("-" + s)
  {
    forall k | 0 <= k < |s| ensures WordChar(s[k]) {
      assert IsDigit(s[k]);
    }
    forall k | 0 <= k < |"-" + s| ensures WordChar(("-" + s)[k]) {
      assert k > 0 ==> ("-" + s)[k] == s[k - 1];
    }
  }

  lemma NumberRead(n: int)
    ensures IsWord(Decimal(n)) && NumberIn(Decimal(n)) == Some(n)
    ensures IsDigit(Decimal(n)[0]) || Decimal(n)[0] == '-'
  {
    hide Digits, NumberOf, IsWord;
    var magnitude := if n < 0 then -n else n;
    var digits := Digits(magnitude);
    DigitsSpell(magnitude);
    DigitsAreAWord(digits);
    assert IsDigit(digits[0]);
    if n < 0 {
      assert Decimal(n) == "-" + digits && ("-" + digits)[1..] == digits;
    }
  }

  lemma {:induction false} UnboxedSame(elements: seq<Setting>)
    requires Unboxed(elements).Some?
    ensures SameSetting(SettingBoxed(elements), SettingStrings(Unboxed(elements).value))
  {
    if elements != [] {
      UnboxedSame(elements[1..]);
      var items, rest := Unboxed(elements).value, Unboxed(elements[1..]).value;
      forall i | 0 <= i < |elements| ensures elements[i] == SettingString(items[i]) {
        if i > 0 {
          assert elements[i] == elements[1..][i - 1] && items[i] == rest[i - 1];
        }
      }
    }
  }

  ghost predicate SettingReadsAs(t: seq<Token>, w: Setting) {
    t != [] && forall rest: seq<Token> :: ReadSetting(t + rest) == Some((w, rest))
  }

  lemma OneToken(t: Token, rest: seq<Token>)
    ensures ([t] + rest)[0] == t && ([t] + rest)[1..] == rest
  {
  }

  // A rendered settings value is read as the same value.
  lemma ValueReadsBack(v: Setting) returns (w: Setting, t: seq<Token>)
    requires PklValue(v).Some?
    ensures SameSetting(v, w) && LineLexes(PklValue(v).value, t) && SettingReadsAs(t, w)
  {
    hide LineLexes, NumberIn, ReadListing;
    match v {
      case SettingString(text) =>
        LineQuoted(text);
        w, t := v, [Str(text)];
      case SettingBool(on) =>
        WordLine("true");
        WordLine("false");
        w, t := v, [Word(if on then "true" else "false")];
      case SettingInt(n) =>
        NumberRead(n);
        assert Decimal(n)[0] != 't' && Decimal(n)[0] != 'f' && Decimal(n)[0] != 'n';
        WordLine(Decimal(n));
        w, t := v, [Word(Decimal(n))];
      case SettingStrings(items) =>
        t := ListReadsBack(items);
        w := v;
        return;
      case SettingBoxed(elements) =>
        var items := Unboxed(elements).value;
        UnboxedSame(elements);
        t := ListReadsBack(items);
        w := SettingStrings(items);
        return;
    }
    forall rest: seq<Token> ensures ReadSetting(t + rest) == Some((w, rest)) {
      OneToken(t[0], rest);
    }
  }

  lemma ListReadsBack(items: seq<string>) returns (t: seq<Token>)
    ensures LineLexes(ListValue(items), t) && SettingReadsAs(t, SettingStrings(items))
  {
    hide LineLexes, ReadListing, ListingTokens;
    ListValueLexes(items);
    var inside := ListingTokens("Listing", items);
    t := [Word("new")] + inside;
    forall rest: seq<Token> ensures ReadSetting(t + rest) == Some((SettingStrings(items), rest)) {
      ListingRead("Listing", items, rest);
      assert t + rest == [Word("new")] + (inside + rest);
    }
  }

  lemma SettingLineLexes(key: string, value: Line, t: seq<Token>)
    requires LineLexes(value, t)
    ensures LineLexes(SettingLine(key, value), [Sym('['), Str(key), Sym(']'), Sym('=')] + t)
  {
    hide LineLexes, LooseLine;
    LineSpaces(2);
    LineMark('[');
    LineQuoted(key);
    LineMark(']');
    SetLexes();
    assert Spaces(2) == [Raw("  ")] by { assert Repeat(' ', 2) == "  "; }
    LineBoth([Raw(" = ")], [Sym('=')], value, t);
    LineBoth([Mark(']')], [Sym(']')], [Raw(" = ")] + value, [Sym('=')] + t);
    var l2, t2 := [Mark(']')] + ([Raw(" = ")] + value), [Sym(']')] + ([Sym('=')] + t);
    LineBoth([Quoted(key)], [Str(key)], l2, t2);
    LineBoth([Mark('[')], [Sym('[')], [Quoted(key)] + l2, [Str(key)] + t2);
    LineBoth([Raw("  ")], [], [Mark('[')] + ([Quoted(key)] + l2), [Sym('[')] + ([Str(key)] + t2));
    assert SettingLine(key, value) == [Raw("  ")] + ([Mark('[')] + ([Quoted(key)] + l2));
    assert [Sym('['), Str(key), Sym(']'), Sym('=')] + t == [] + ([Sym('[')] + ([Str(key)] + t2));
  }

  lemma SetLexes()
    ensures LineLexes([Raw(" = ")], [Sym('=')]) && LooseLine([Raw(" = ")])
  {
    hide Tokens;
    LexesBlank(' ');
    LexesEquals();
    LexesBoth(" ", [], "= ", [Sym('=')]);
    assert " " + "= " == " = " && [] + [Sym('=')] == [Sym('=')];
    LinePiece(Raw(" = "), [Sym('=')]);
  }

  ghost predicate SettingsReadAs(t: seq<Token>, w: map<string, Setting>) {
    forall rest: seq<Token> :: ReadSettings(t + [Sym('}')] + rest) == Some((w, rest))
  }

  lemma NoSettings()
    ensures SettingsReadAs([], map[])
  {
    forall rest: seq<Token> ensures ReadSettings([] + [Sym('}')] + rest) == Some((map[], rest)) {
      assert [] + [Sym('}')] + rest == [Sym('}')] + rest;
    }
  }

  lemma OneSettingMore(key: string, t: seq<Token>, w: Setting, more: seq<Token>, ws: map<string, Setting>)
    requires SettingReadsAs(t, w) && SettingsReadAs(more, ws) && key !in ws
    ensures SettingsReadAs([Sym('['), Str(key), Sym(']'), Sym('=')] + t + more, ws[key := w])
  {
    hide ReadSetting;
    forall rest: seq<Token>
      ensures ReadSettings([Sym('['), Str(key), Sym(']'), Sym('=')] + t + more + [Sym('}')] + rest) == Some((ws[key := w], rest))
    {
      var tail := more + [Sym('}')] + rest;
      var ts := [Sym('['), Str(key), Sym(']'), Sym('=')] + t + more + [Sym('}')] + rest;
      assert ts[4..] == t + tail;
      assert ReadSetting(t + tail) == Some((w, tail));
      assert ReadSettings(tail) == Some((ws, rest));
    }
  }

  lemma {:induction false} SettingsReadBack(settings: map<string, Setting>, keys: seq<string>)
    returns (ws: map<string, Setting>, t: seq<Token>)
    requires Sorted(keys) && forall k :: k in keys ==> k in settings
    requires SettingLines(settings, keys).Ok?
    ensures Lexes(TextOf(SettingLines(settings, keys).value), t) && SettingsReadAs(t, ws)
    ensures ws.Keys == (set k | k in keys) && forall k :: k in ws ==> SameSetting(settings[k], ws[k])
  {
    hide Lexes, LineLexes, SettingsReadAs, SettingReadsAs, PklValue, SettingLine, SameSetting;
    if keys == [] {
      NoSettings();
      TextNothing();
      ws, t := map[], [];
    } else {
      var key, value := keys[0], PklValue(settings[keys[0]]).value;
      var w, vt := ValueReadsBack(settings[key]);
      var more;
      ws, more := SettingsReadBack(settings, keys[1..]);
      FirstOnce(keys);
      SettingLineLexes(key, value, vt);
      var kt := [Sym('['), Str(key), Sym(']'), Sym('=')] + vt;
      TextLine(SettingLine(key, value), kt, SettingLines(settings, keys[1..]).value, more);
      OneSettingMore(key, vt, w, more, ws);
      ws, t := ws[key := w], kt + more;
      assert keys == [key] + keys[1..];
    }
  }

  lemma FirstOnce(keys: seq<string>)
    requires keys != [] && Sorted(keys)
    ensures keys[0] !in keys[1..] && Sorted(keys[1..])
  {
    forall k | k in keys[1..] ensures k != keys[0] {
      Trichotomy(k, keys[0]);
    }
  }

  // ---------------------------------------------------------------------- fields

  // The field's tokens are read as its name and this value, whatever follows.
  ghost predicate FieldReadsAs(t: seq<Token>, name: string, w: Value) {
    || (|t| == 3 && t[..2] == [Word(name), Sym('=')] && ReadScalar(t[2]) == Some(w))
    || (|t| >= 3 && t[..2] == [Word(name), Sym('{')] && forall rest: seq<Token> :: ReadBlock(t[2..] + rest, name) == Some((w, rest)))
  }

  lemma FieldThen(t: seq<Token>, name: string, w: Value, more: seq<Token>, ws: Values)
    requires FieldReadsAs(t, name, w) && ReadFields(more) == Some(ws) && name !in ws
    ensures ReadFields(t + more) == Some(ws[name := w])
  {
    hide ReadBlock, ReadScalar;
    var ts := t + more;
    assert ts[0] == t[..2][0] && ts[1] == t[..2][1];
    if t[..2] == [Word(name), Sym('=')] && |t| == 3 && ReadScalar(t[2]) == Some(w) {
      assert ts[3..] == more && ts[2] == t[2];
    } else {
      assert ts[2..] == t[2..] + more;
    }
  }

  lemma NamesAreWords(name: string)
    requires name in FIELD_ORDER
    ensures IsWord(name)
  {
    NamesAreIdents(name);
  }

  lemma ScalarLexes(name: string, p: Piece, word: string, t: Token)
    requires IsWord(name) && Lexes(SpellPiece(p), [t])
    ensures LineLexes([Raw(name + " = "), p], [Word(name), Sym('='), t])
    ensures p == Raw(word) ==> LineLexes([Raw(name + " = " + word)], [Word(name), Sym('='), t])
  {
    hide Lexes, Tokens;
    LineAssigns(name);
    LinePiece(p, [t]);
    LineBoth([Raw(name + " = ")], [Word(name), Sym('=')], [p], [t]);
    assert [Raw(name + " = ")] + [p] == [Raw(name + " = "), p];
    assert [Word(name), Sym('=')] + [t] == [Word(name), Sym('='), t];
    if p == Raw(word) {
      SpelledConcat([Raw(name + " = ")], [p]);
      LinePieceIs(Raw(name + " = "));
      LinePieceIs(p);
      LinePieceIs(Raw(name + " = " + word));
    }
  }

  lemma StringReadsBack(name: string, text: string) returns (t: seq<Token>)
    requires IsWord(name)
    ensures Lexes(TextOf([[Raw(name + " = "), Quoted(text)]]), t) && FieldReadsAs(t, name, String(text))
  {
    hide Lexes, LineLexes;
    LexesQuote(text);
    ScalarLexes(name, Quoted(text), "", Str(text));
    t := [Word(name), Sym('='), Str(text)];
    TextOne([Raw(name + " = "), Quoted(text)], t);
    assert t[..2] == [Word(name), Sym('=')];
  }

  lemma BoolReadsBack(name: string, on: bool) returns (t: seq<Token>)
    requires IsWord(name)
    ensures Lexes(TextOf([[Raw(name + " = " + Boolean(on))]]), t) && FieldReadsAs(t, name, Bool(on))
  {
    hide Lexes, LineLexes;
    LexesWord("true");
    LexesWord("false");
    var word := if on then "true" else "false";
    ScalarLexes(name, Raw(word), word, Word(word));
    t := [Word(name), Sym('='), Word(word)];
    TextOne([Raw(name + " = " + word)], t);
    assert t[..2] == [Word(name), Sym('=')];
  }

  // A rendered field is read as the same value.
  lemma FieldReadsBack(name: string, value: Value) returns (w: Value, t: seq<Token>)
    requires name in FIELD_ORDER && FieldLines(name, value).Ok?
    ensures SameValue(value, w) && Lexes(TextOf(FieldLines(name, value).value), t) && FieldReadsAs(t, name, w)
  {
    hide Lexes, LineLexes, SettingsBlock, FlakesBlock, Listing, FieldReadsAs, TextOf, FIELD_ORDER, ListingTokens, Boolean;
    NamesAreWords(name);
    w := value;
    match KindOf(name) {
      case KindString =>
        t := StringReadsBack(name, value.text);
      case KindBool =>
        t := BoolReadsBack(name, value.on);
      case KindStringList =>
        ListingLexes(0, name, value.items);
        t := ListingTokens(name, value.items);
        BlockOfItems(name, value.items);
      case KindFlakeList =>
        t := FlakesReadBack(value.flakes);
      case KindSettingsMap =>
        w, t := SettingsFieldReadsBack(value.settings);
    }
  }

  lemma BlockOfItems(name: string, items: seq<string>)
    requires name != "flakes" && name != "settings"
    ensures FieldReadsAs(ListingTokens(name, items), name, Strings(items))
  {
    var t := ListingTokens(name, items);
    assert t[..2] == [Word(name), Sym('{')] && t[2..] == Strs(items) + [Sym('}')];
    forall rest: seq<Token> ensures ReadBlock(t[2..] + rest, name) == Some((Strings(items), rest)) {
      ItemsRead(items, rest);
    }
  }

  lemma FlakesReadBack(flakes: seq<Flake>) returns (t: seq<Token>)
    ensures Lexes(TextOf(FlakesBlock(flakes)), t) && FieldReadsAs(t, "flakes", Flakes(flakes))
  {
    hide Lexes, LineLexes, FlakesTokens, AllFlakes, ReadFlakes;
    t := [Word("flakes"), Sym('{')] + (FlakesTokens(flakes) + [Sym('}')]);
    FlakesLex(flakes);
    if flakes == [] {
      EmptyLexes(0, "flakes");
      TextOne(Empty(0, "flakes"), [Word("flakes"), Sym('{'), Sym('}')]);
      NoFlakes();
      assert t == [Word("flakes"), Sym('{'), Sym('}')];
    } else {
      OpenedLexes(0, "flakes");
      Enclosed(Opened(0, "flakes"), [Word("flakes"), Sym('{')], AllFlakes(flakes), FlakesTokens(flakes), 0);
    }
    assert t[..2] == [Word("flakes"), Sym('{')] && t[2..] == FlakesTokens(flakes) + [Sym('}')];
    forall rest: seq<Token> ensures ReadBlock(t[2..] + rest, "flakes") == Some((Flakes(flakes), rest)) {
      FlakesRead(flakes, rest);
    }
  }

  lemma NoFlakes()
    ensures FlakesTokens([]) == []
  {
  }

  lemma SettingsFieldReadsBack(settings: map<string, Setting>) returns (w: Value, t: seq<Token>)
    requires SettingsBlock(settings).Ok?
    ensures SameValue(Settings(settings), w) && Lexes(TextOf(SettingsBlock(settings).value), t) && FieldReadsAs(t, "settings", w)
  {
    hide Lexes, LineLexes, SettingLines, SettingsReadAs, SameSetting;
    var ws, inside;
    if settings == map[] {
      NoSettings();
      EmptyLexes(0, "settings");
      TextOne(Empty(0, "settings"), [Word("settings"), Sym('{'), Sym('}')]);
      ws, inside := map[], [];
      assert [Word("settings"), Sym('{')] + ([] + [Sym('}')]) == [Word("settings"), Sym('{'), Sym('}')];
    } else {
      ws, inside := SettingsReadBack(settings, InOrder(settings.Keys));
      OpenedLexes(0, "settings");
      Enclosed(Opened(0, "settings"), [Word("settings"), Sym('{')], SettingLines(settings, InOrder(settings.Keys)).value, inside, 0);
    }
    w, t := Settings(ws), [Word("settings"), Sym('{')] + (inside + [Sym('}')]);
    SettingsFieldRead(inside, ws);
  }

  lemma SettingsFieldRead(inside: seq<Token>, ws: map<string, Setting>)
    requires SettingsReadAs(inside, ws)
    ensures FieldReadsAs([Word("settings"), Sym('{')] + (inside + [Sym('}')]), "settings", Settings(ws))
  {
    hide ReadSettings;
    var t := [Word("settings"), Sym('{')] + (inside + [Sym('}')]);
    assert t[..2] == [Word("settings"), Sym('{')] && t[2..] == inside + [Sym('}')];
    forall rest: seq<Token> ensures ReadBlock(t[2..] + rest, "settings") == Some((Settings(ws), rest)) {
      assert ReadSettings(inside + [Sym('}')] + rest) == Some((ws, rest));
    }
  }

  lemma {:induction false} FieldsReadBack(v: Values, names: seq<string>) returns (ws: Values, t: seq<Token>)
    requires Fields(v, names).Ok? && (forall n :: n in names ==> n in FIELD_ORDER) && Distinct(names)
    ensures Lexes(TextOf(Fields(v, names).value), t) && ReadFields(t) == Some(ws)
    ensures ws.Keys == (set n | n in names && n in v) && forall n :: n in ws ==> SameValue(v[n], ws[n])
  {
    hide Lexes, FieldLines, FieldReadsAs, SameValue, ReadFields;
    if names == [] {
      TextNothing();
      NoFields();
      ws, t := map[], [];
    } else {
      assert names == [names[0]] + names[1..] && names[0] !in names[1..];
      ws, t := FieldsReadBack(v, names[1..]);
      if names[0] in v {
        var w, ft := FieldReadsBack(names[0], v[names[0]]);
        TextBoth(FieldLines(names[0], v[names[0]]).value, ft, Fields(v, names[1..]).value, t);
        FieldThen(ft, names[0], w, t, ws);
        ws, t := ws[names[0] := w], ft + t;
      }
    }
  }

  lemma NoFields()
    ensures ReadFields([]) == Some(map[])
  {
  }

  // Whatever values render, reading the text gives them back: every field but those without a line,
  // every listing and flake by its elements, every setting by its key, booleans and numbers included.
  lemma ReadsBackValues(v: Values)
    requires Rendered(v).Ok?
    ensures ReadValues(Rendered(v).value).Some? && SameValues(v, ReadValues(Rendered(v).value).value)
  {
    hide Lexes, Tokens, Fields, ReadFields, SameValue;
    OrderIsDistinct();
    var ws, t := FieldsReadBack(v, FIELD_ORDER);
    LexesWhole(TextOf(Fields(v, FIELD_ORDER).value), t);
    forall n | n in v ensures n in FIELD_ORDER <==> n !in UNWRITTEN {
      AllKnown(v, n);
    }
  }

  lemma OrderIsDistinct()
    ensures Distinct(FIELD_ORDER)
  {
  }

  lemma {:induction false} KnownNames(names: seq<string>, n: string)
    requires FirstUnknown(names).None? && n in names
    ensures KnownField(n)
  {
    if n != names[0] {
      KnownNames(names[1..], n);
    }
  }

  lemma AllKnown(v: Values, n: string)
    requires Rendered(v).Ok? && n in v
    ensures n in FIELD_ORDER <==> n !in UNWRITTEN
  {
    hide Fields, FIELD_ORDER;
    KnownNames(InOrder(v.Keys), n);
    UnwrittenApart();
  }

  lemma UnwrittenApart()
    ensures forall n :: n in FIELD_ORDER ==> n !in UNWRITTEN
  {
  }
}
