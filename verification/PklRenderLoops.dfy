/** The renderer's loops over a builder, each writing exactly the lines PklRender says. */
module PklRenderLoops {
  import opened Options
  import opened SortedKeys
  import opened PklScan
  import opened PklString
  import opened PklRender
  import opened Text

  class Builder {
    var text: string

    constructor ()
      ensures text == ""
    {
      text := "";
    }

    method Write(s: string)
      modifies this
      ensures text == old(text) + s
    {
      text := text + s;
    }
  }

  lemma SpelledOne(p: Piece)
    ensures Spelled([p]) == SpellPiece(p)
  {
    assert [p][1..] == [];
    assert Spelled([p]) == SpellPiece(p) + "";
  }

  lemma SpelledCons(p: Piece, rest: Line)
    ensures Spelled([p] + rest) == SpellPiece(p) + Spelled(rest)
  {
    assert ([p] + rest)[1..] == rest;
  }

  lemma SpelledPadded(indent: nat, line: Line)
    ensures Spelled(Spaces(indent) + line) == Repeat(' ', indent) + Spelled(line)
  {
    if indent == 0 {
      assert Spaces(indent) + line == line;
      assert Repeat(' ', indent) + Spelled(line) == Spelled(line);
    } else {
      SpelledCons(Raw(Repeat(' ', indent)), line);
    }
  }

  lemma SpelledOpened(indent: nat, name: string)
    ensures Spelled(Opened(indent, name)) == Repeat(' ', indent) + (name + " {")
  {
    var line := [Mark('{')];
    assert [Raw(name + " "), Mark('{')] == [Raw(name + " ")] + line;
    SpelledCons(Raw(name + " "), line);
    SpelledOne(Mark('{'));
    SpelledPadded(indent, [Raw(name + " "), Mark('{')]);
    assert name + " " + "{" == name + " {";
  }

  lemma SpelledEmpty(indent: nat, name: string)
    ensures Spelled(Empty(indent, name)) == Repeat(' ', indent) + (name + " {}")
  {
    assert [Raw(name + " "), Mark('{'), Mark('}')] == [Raw(name + " ")] + ([Mark('{')] + [Mark('}')]);
    SpelledCons(Raw(name + " "), [Mark('{')] + [Mark('}')]);
    SpelledCons(Mark('{'), [Mark('}')]);
    SpelledOne(Mark('}'));
    SpelledPadded(indent, [Raw(name + " "), Mark('{'), Mark('}')]);
    assert name + " " + ("{" + "}") == name + " {}";
  }

  lemma SpelledClosed(indent: nat)
    ensures Spelled(Closed(indent)) == Repeat(' ', indent) + "}"
  {
    SpelledPadded(indent, [Mark('}')]);
    SpelledOne(Mark('}'));
  }

  lemma SpelledItem(indent: nat, item: string)
    ensures Spelled(Item(indent, item)) == Repeat(' ', indent) + ("  " + Quote(item))
  {
    hide Quote, Spelled, Spaces;
    SpelledPadded(indent + 2, [Quoted(item)]);
    SpelledOne(Quoted(item));
    assert Repeat(' ', indent + 2) == Repeat(' ', indent) + "  ";
    Associate(Repeat(' ', indent), "  ", Quote(item));
  }

  lemma TextSnoc(lines: seq<Line>, line: Line)
    ensures TextOf(lines + [line]) == TextOf(lines) + (Spelled(line) + "\n")
  {
    TextConcat(lines, [line]);
    assert [line][1..] == [];
    assert TextOf([line]) == Spelled(line) + "\n" + "";
  }

  lemma {:induction false} ItemsConcat(indent: nat, a: seq<string>, b: seq<string>)
    ensures Items(indent, a + b) == Items(indent, a) + Items(indent, b)
  {
    if a == [] {
      assert a + b == b;
    } else {
      assert (a + b)[1..] == a[1..] + b;
      ItemsConcat(indent, a[1..], b);
    }
  }

  lemma ItemsSnoc(indent: nat, items: seq<string>, n: nat)
    requires n < |items|
    ensures Items(indent, items[..n + 1]) == Items(indent, items[..n]) + [Item(indent, items[n])]
  {
    ItemsConcat(indent, items[..n], [items[n]]);
    assert items[..n] + [items[n]] == items[..n + 1];
    assert [items[n]][1..] == [];
  }

  // What has been written: `before`, then these lines.
  ghost predicate Wrote(text: string, before: string, lines: seq<Line>) {
    text == before + TextOf(lines)
  }

  lemma WroteLine(text: string, before: string, lines: seq<Line>, line: Line, written: string)
    requires Wrote(text, before, lines) && written == Spelled(line) + "\n"
    ensures Wrote(text + written, before, lines + [line])
  {
    TextSnoc(lines, line);
    Associate(before, TextOf(lines), written);
  }

  lemma WroteLines(middle: string, text: string, before: string, first: seq<Line>, second: seq<Line>)
    requires Wrote(middle, before, first) && Wrote(text, middle, second)
    ensures Wrote(text, before, first + second)
  {
    hide TextOf;
    TextConcat(first, second);
    Associate(before, TextOf(first), TextOf(second));
  }

  method RenderStringListing(b: Builder, indent: nat, name: string, items: seq<string>)
    modifies b
    ensures Wrote(b.text, old(b.text), Listing(indent, name, items))
  {
    hide TextOf, Spelled, Quote, Wrote;
    ghost var before, lines: seq<Line> := b.text, [];
    assert Wrote(b.text, before, []) by { NothingWritten(before); }
    var pad := Repeat(' ', indent);
    if |items| == 0 {
      SpelledEmpty(indent, name);
      WroteLine(b.text, before, lines, Empty(indent, name), pad + (name + " {}") + "\n");
      assert lines + [Empty(indent, name)] == Listing(indent, name, items);
      b.Write(pad + (name + " {}") + "\n");
      return;
    }
    SpelledOpened(indent, name);
    WroteLine(b.text, before, lines, Opened(indent, name), pad + (name + " {") + "\n");
    assert lines + [Opened(indent, name)] == [Opened(indent, name)] + Items(indent, items[..0]);
    b.Write(pad + (name + " {") + "\n");
    for n := 0 to |items|
      invariant Wrote(b.text, before, [Opened(indent, name)] + Items(indent, items[..n]))
    {
      SpelledItem(indent, items[n]);
      ItemsSnoc(indent, items, n);
      lines := [Opened(indent, name)] + Items(indent, items[..n]);
      WroteLine(b.text, before, lines, Item(indent, items[n]), pad + ("  " + Quote(items[n])) + "\n");
      assert lines + [Item(indent, items[n])] == [Opened(indent, name)] + Items(indent, items[..n + 1]);
      b.Write(pad + ("  " + Quote(items[n])) + "\n");
    }
    assert items[..|items|] == items;
    SpelledClosed(indent);
    WroteLine(b.text, before, [Opened(indent, name)] + Items(indent, items), Closed(indent), pad + "}" + "\n");
    b.Write(pad + "}" + "\n");
  }

  lemma NothingWritten(before: string)
    ensures Wrote(before, before, [])
  {
  }

  lemma AllFlakesSnoc(flakes: seq<Flake>, n: nat)
    requires n < |flakes|
    ensures AllFlakes(flakes[..n + 1]) == AllFlakes(flakes[..n]) + FlakeLines(flakes[n])
  {
    AllFlakesConcat(flakes[..n], [flakes[n]]);
    assert flakes[..n] + [flakes[n]] == flakes[..n + 1];
    assert [flakes[n]][1..] == [];
    assert AllFlakes([flakes[n]]) == FlakeLines(flakes[n]) + [];
  }

  lemma {:induction false} AllFlakesConcat(a: seq<Flake>, b: seq<Flake>)
    ensures AllFlakes(a + b) == AllFlakes(a) + AllFlakes(b)
  {
    if a == [] {
      assert a + b == b;
    } else {
      assert (a + b)[1..] == a[1..] + b;
      AllFlakesConcat(a[1..], b);
    }
  }

  lemma SpelledUrl(url: string)
    ensures Spelled(Spaces(4) + [Raw("url = "), Quoted(url)]) == "    " + ("url = " + Quote(url))
  {
    hide Quote;
    SpelledPadded(4, [Raw("url = "), Quoted(url)]);
    assert [Raw("url = "), Quoted(url)] == [Raw("url = ")] + [Quoted(url)];
    SpelledCons(Raw("url = "), [Quoted(url)]);
    SpelledOne(Quoted(url));
    assert Repeat(' ', 4) == "    ";
  }

  method RenderFlake(b: Builder, f: Flake)
    modifies b
    ensures Wrote(b.text, old(b.text), FlakeLines(f))
  {
    hide TextOf, Spelled, Quote, Wrote, Listing, Opened, Closed;
    ghost var before, none: seq<Line> := b.text, [];
    NothingWritten(before);
    SpelledOpened(2, "new Flake");
    assert Repeat(' ', 2) == "  ";
    WroteLine(b.text, before, none, Opened(2, "new Flake"), "  " + ("new Flake" + " {") + "\n");
    b.Write("  new Flake {\n");
    assert "  " + ("new Flake" + " {") + "\n" == "  new Flake {\n";
    ghost var url := Spaces(4) + [Raw("url = "), Quoted(f.url)];
    SpelledUrl(f.url);
    ghost var lines := none + [Opened(2, "new Flake")];
    WroteLine(b.text, before, lines, url, "    " + ("url = " + Quote(f.url)) + "\n");
    b.Write("    " + ("url = " + Quote(f.url)) + "\n");
    lines := lines + [url];
    ghost var middle := b.text;
    RenderStringListing(b, 4, "packages", f.packages);
    WroteLines(middle, b.text, before, lines, Listing(4, "packages", f.packages));
    lines := lines + Listing(4, "packages", f.packages);
    middle := b.text;
    RenderStringListing(b, 4, "modules", f.modules);
    WroteLines(middle, b.text, before, lines, Listing(4, "modules", f.modules));
    lines := lines + Listing(4, "modules", f.modules);
    SpelledClosed(2);
    WroteLine(b.text, before, lines, Closed(2), "  " + "}" + "\n");
    b.Write("  }\n");
    assert "  " + "}" + "\n" == "  }\n";
    assert lines + [Closed(2)] == FlakeLines(f);
  }

  method RenderFlakes(b: Builder, flakes: seq<Flake>)
    modifies b
    ensures Wrote(b.text, old(b.text), FlakesBlock(flakes))
  {
    hide TextOf, Spelled, Wrote, FlakeLines, Empty, Opened, Closed;
    ghost var before, lines: seq<Line> := b.text, [];
    NothingWritten(before);
    if |flakes| == 0 {
      SpelledEmpty(0, "flakes");
      WroteLine(b.text, before, lines, Empty(0, "flakes"), "" + ("flakes" + " {}") + "\n");
      b.Write("flakes {}\n");
      assert "" + ("flakes" + " {}") + "\n" == "flakes {}\n";
      assert lines + [Empty(0, "flakes")] == FlakesBlock(flakes);
      return;
    }
    SpelledOpened(0, "flakes");
    WroteLine(b.text, before, lines, Opened(0, "flakes"), "" + ("flakes" + " {") + "\n");
    b.Write("flakes {\n");
    assert "" + ("flakes" + " {") + "\n" == "flakes {\n";
    assert lines + [Opened(0, "flakes")] == [Opened(0, "flakes")] + AllFlakes(flakes[..0]);
    for n := 0 to |flakes|
      invariant Wrote(b.text, before, [Opened(0, "flakes")] + AllFlakes(flakes[..n]))
    {
      AllFlakesSnoc(flakes, n);
      lines := [Opened(0, "flakes")] + AllFlakes(flakes[..n]);
      ghost var middle := b.text;
      RenderFlake(b, flakes[n]);
      WroteLines(middle, b.text, before, lines, FlakeLines(flakes[n]));
      assert lines + FlakeLines(flakes[n]) == [Opened(0, "flakes")] + AllFlakes(flakes[..n + 1]);
    }
    assert flakes[..|flakes|] == flakes;
    SpelledClosed(0);
    lines := [Opened(0, "flakes")] + AllFlakes(flakes);
    WroteLine(b.text, before, lines, Closed(0), "" + "}" + "\n");
    b.Write("}\n");
    assert "" + "}" + "\n" == "}\n";
  }

  // strings.Join with "; " between.
  function Join(parts: seq<string>): string {
    if parts == [] then "" else if |parts| == 1 then parts[0] else parts[0] + "; " + Join(parts[1..])
  }

  lemma {:induction false} SpelledJoined(items: seq<string>, quoted: seq<string>)
    requires items != [] && |quoted| == |items|
    requires forall k :: 0 <= k < |items| ==> quoted[k] == Quote(items[k])
    ensures Spelled(Joined(items)) == Join(quoted)
  {
    hide Quote;
    if |items| == 1 {
      SpelledOne(Quoted(items[0]));
    } else {
      SpelledJoined(items[1..], quoted[1..]);
      var rest := Joined(items[1..]);
      assert Joined(items) == [Quoted(items[0])] + ([Raw("; ")] + rest);
      SpelledCons(Quoted(items[0]), [Raw("; ")] + rest);
      SpelledCons(Raw("; "), rest);
      Associate(Quote(items[0]), "; ", Spelled(rest));
    }
  }

  lemma SpelledList(items: seq<string>)
    ensures items == [] ==> Spelled(ListValue(items)) == "new Listing {}"
    ensures items != [] ==> Spelled(ListValue(items)) == "new Listing { " + Spelled(Joined(items)) + " }"
  {
    if items == [] {
      assert "new Listing" + " " == "new Listing ";
      assert ListValue(items) == [] + ListValue(items) == Empty(0, "new Listing");
      SpelledEmpty(0, "new Listing");
      assert "" + ("new Listing" + " {}") == "new Listing {}";
    } else {
      var head, tail: Line := [Raw("new Listing "), Mark('{'), Raw(" ")], [Raw(" "), Mark('}')];
      SpelledConcat(head + Joined(items), tail);
      SpelledConcat(head, Joined(items));
      assert head == [Raw("new Listing ")] + ([Mark('{')] + [Raw(" ")]);
      SpelledCons(Raw("new Listing "), [Mark('{')] + [Raw(" ")]);
      SpelledCons(Mark('{'), [Raw(" ")]);
      SpelledOne(Raw(" "));
      assert "new Listing " + ("{" + " ") == "new Listing { ";
      assert tail == [Raw(" ")] + [Mark('}')];
      SpelledCons(Raw(" "), [Mark('}')]);
      SpelledOne(Mark('}'));
    }
  }

  // The elements of a list in either shape; `bad` when a boxed one is no string.
  method SettingList(v: Setting) returns (list: seq<string>, isList: bool, bad: bool)
    ensures isList == (v.SettingStrings? || v.SettingBoxed?)
    ensures v.SettingStrings? ==> !bad && list == v.items
    ensures v.SettingBoxed? ==> bad == Unboxed(v.elements).None? && (!bad ==> Unboxed(v.elements) == Some(list))
    ensures !isList ==> !bad
  {
    list, isList, bad := [], false, false;
    match v
    case SettingStrings(items) => list, isList := items, true;
    case SettingBoxed(elements) =>
      isList := true;
      var k := |elements|;
      while k > 0
        invariant 0 <= k <= |elements| && !bad && Unboxed(elements[k..]) == Some(list)
      {
        k := k - 1;
        assert elements[k..][1..] == elements[k + 1..];
        if !elements[k].SettingString? {
          bad := true;
          UnboxedFails(elements, k);
          return;
        }
        list := [elements[k].text] + list;
      }
    case _ =>
  }

  lemma {:induction false} UnboxedFails(elements: seq<Setting>, k: nat)
    requires k < |elements| && !elements[k].SettingString?
    ensures Unboxed(elements).None?
  {
    if k > 0 {
      assert elements[1..][k - 1] == elements[k];
      UnboxedFails(elements[1..], k - 1);
    }
  }

  method WritePklValue(v: Setting) returns (r: Option<string>)
    ensures r == (if PklValue(v).None? then None else Some(Spelled(PklValue(v).value)))
  {
    hide Quote, Spelled, Joined, Join, ListValue;
    var list, isList, bad := SettingList(v);
    if isList {
      if bad { return None; }
      SpelledList(list);
      if |list| == 0 { return Some("new Listing {}"); }
      var quoted: seq<string> := [];
      for k := 0 to |list|
        invariant |quoted| == k && forall i :: 0 <= i < k ==> quoted[i] == Quote(list[i])
      {
        quoted := quoted + [Quote(list[k])];
      }
      SpelledJoined(list, quoted);
      return Some("new Listing { " + Join(quoted) + " }");
    }
    match v
    case SettingString(text) =>
      SpelledOne(Quoted(text));
      return Some(Quote(text));
    case SettingBool(on) =>
      SpelledOne(Raw(Boolean(on)));
      return Some(Boolean(on));
    case SettingInt(n) =>
      SpelledOne(Raw(Decimal(n)));
      return Some(Decimal(n));
    case _ => return None;
  }

  lemma SpelledSetting(key: string, value: Line)
    ensures Spelled(SettingLine(key, value)) == "  [" + Quote(key) + "] = " + Spelled(value)
  {
    hide Quote;
    var rest := [Mark(']')] + ([Raw(" = ")] + value);
    assert SettingLine(key, value) == [Raw("  ")] + ([Mark('[')] + ([Quoted(key)] + rest));
    SpelledCons(Raw("  "), [Mark('[')] + ([Quoted(key)] + rest));
    SpelledCons(Mark('['), [Quoted(key)] + rest);
    SpelledCons(Quoted(key), rest);
    SpelledCons(Mark(']'), [Raw(" = ")] + value);
    SpelledCons(Raw(" = "), value);
  }

  lemma {:induction false} SettingLinesSnoc(settings: map<string, Setting>, keys: seq<string>, n: nat)
    requires n < |keys| && forall k :: k in keys ==> k in settings
    requires SettingLines(settings, keys[..n]).Ok?
    ensures var value := PklValue(settings[keys[n]]);
            if value.None?
            then SettingLines(settings, keys) == Failed(BadSetting(keys[n]))
            else SettingLines(settings, keys[..n + 1])
                 == Ok(SettingLines(settings, keys[..n]).value + [SettingLine(keys[n], value.value)])
    decreases n
  {
    hide PklValue, SettingLine;
    if n == 0 {
      assert keys[..1][1..] == [];
      assert forall line: Line :: [line] + [] == [] + [line];
    } else {
      assert keys[..n][1..] == keys[1..][..n - 1];
      assert keys[..n + 1][1..] == keys[1..][..n];
      SettingLinesSnoc(settings, keys[1..], n - 1);
      var value := PklValue(settings[keys[n]]);
      if value.Some? {
        var head := SettingLine(keys[0], PklValue(settings[keys[0]]).value);
        Associate([head], SettingLines(settings, keys[1..][..n - 1]).value, [SettingLine(keys[n], value.value)]);
      }
    }
  }

  // Keys in byte order, whatever order the map gives them in.
  method RenderSettings(b: Builder, settings: map<string, Setting>) returns (problem: Option<Problem>)
    modifies b
    ensures match SettingsBlock(settings)
            case Failed(p) => problem == Some(p)
            case Ok(lines) => problem == None && Wrote(b.text, old(b.text), lines)
  {
    hide TextOf, Spelled, Quote, Wrote, PklValue, SettingLine, Empty, Opened, Closed;
    ghost var before, lines: seq<Line> := b.text, [];
    NothingWritten(before);
    if |settings| == 0 {
      SpelledEmpty(0, "settings");
      WroteLine(b.text, before, lines, Empty(0, "settings"), "" + ("settings" + " {}") + "\n");
      b.Write("settings {}\n");
      assert "" + ("settings" + " {}") + "\n" == "settings {}\n";
      assert lines + [Empty(0, "settings")] == [Empty(0, "settings")];
      return None;
    }
    var keys := SortKeys(settings.Keys);
    SpelledOpened(0, "settings");
    WroteLine(b.text, before, lines, Opened(0, "settings"), "" + ("settings" + " {") + "\n");
    b.Write("settings {\n");
    assert "" + ("settings" + " {") + "\n" == "settings {\n";
    lines := lines + [Opened(0, "settings")];
    for n := 0 to |keys|
      invariant SettingLines(settings, keys[..n]).Ok?
      invariant lines == [Opened(0, "settings")] + SettingLines(settings, keys[..n]).value
      invariant Wrote(b.text, before, lines)
    {
      assert keys[n] in keys;
      SettingLinesSnoc(settings, keys, n);
      var v := WritePklValue(settings[keys[n]]);
      if v.None? {
        return Some(BadSetting(keys[n]));
      }
      ghost var line := SettingLine(keys[n], PklValue(settings[keys[n]]).value);
      SpelledSetting(keys[n], PklValue(settings[keys[n]]).value);
      WroteLine(b.text, before, lines, line, "  [" + Quote(keys[n]) + "] = " + v.value + "\n");
      b.Write("  [" + Quote(keys[n]) + "] = " + v.value + "\n");
      lines := lines + [line];
    }
    assert keys[..|keys|] == keys;
    SpelledClosed(0);
    WroteLine(b.text, before, lines, Closed(0), "" + "}" + "\n");
    b.Write("}\n");
    assert "" + "}" + "\n" == "}\n";
    return None;
  }

  lemma SpelledScalar(name: string, text: string)
    ensures Spelled([Raw(name + " = "), Quoted(text)]) == name + " = " + Quote(text)
    ensures Spelled([Raw(name + " = " + text)]) == name + " = " + text
  {
    hide Quote;
    assert [Raw(name + " = "), Quoted(text)] == [Raw(name + " = ")] + [Quoted(text)];
    SpelledCons(Raw(name + " = "), [Quoted(text)]);
    SpelledOne(Quoted(text));
    SpelledOne(Raw(name + " = " + text));
  }

  method RenderField(b: Builder, name: string, value: Value) returns (problem: Option<Problem>)
    modifies b
    ensures match FieldLines(name, value)
            case Failed(p) => problem == Some(p)
            case Ok(lines) => problem == None && Wrote(b.text, old(b.text), lines)
  {
    hide TextOf, Spelled, Quote, Wrote, SettingsBlock, FlakesBlock, Listing;
    ghost var before, none: seq<Line> := b.text, [];
    NothingWritten(before);
    match KindOf(name)
    case KindString =>
      if !value.String? { return Some(WrongType(name)); }
      SpelledScalar(name, value.text);
      ghost var line: Line := [Raw(name + " = "), Quoted(value.text)];
      WroteLine(b.text, before, none, line, name + " = " + Quote(value.text) + "\n");
      b.Write(name + " = " + Quote(value.text) + "\n");
      assert none + [line] == [line];
      return None;
    case KindBool =>
      if !value.Bool? { return Some(WrongType(name)); }
      SpelledScalar(name, Boolean(value.on));
      ghost var line: Line := [Raw(name + " = " + Boolean(value.on))];
      WroteLine(b.text, before, none, line, name + " = " + Boolean(value.on) + "\n");
      b.Write(name + " = " + Boolean(value.on) + "\n");
      assert none + [line] == [line];
      return None;
    case KindStringList =>
      if !value.Strings? { return Some(WrongType(name)); }
      RenderStringListing(b, 0, name, value.items);
      return None;
    case KindFlakeList =>
      if !value.Flakes? { return Some(WrongType(name)); }
      RenderFlakes(b, value.flakes);
      return None;
    case KindSettingsMap =>
      if !value.Settings? { return Some(WrongType(name)); }
      problem := RenderSettings(b, value.settings);
  }

  lemma {:induction false} FieldsSnoc(v: Values, names: seq<string>, n: nat)
    requires n < |names| && Fields(v, names[..n]).Ok?
    ensures if names[n] !in v then Fields(v, names[..n + 1]) == Fields(v, names[..n])
            else match FieldLines(names[n], v[names[n]])
                 case Failed(p) => Fields(v, names) == Failed(p)
                 case Ok(lines) => Fields(v, names[..n + 1]) == Ok(Fields(v, names[..n]).value + lines)
    decreases n
  {
    hide FieldLines;
    if n == 0 {
      assert names[..1][1..] == [];
      assert forall lines: seq<Line> :: lines + [] == [] + lines;
    } else {
      assert names[..n][1..] == names[1..][..n - 1];
      assert names[..n + 1][1..] == names[1..][..n];
      FieldsSnoc(v, names[1..], n - 1);
      if names[0] in v && names[n] in v && FieldLines(names[n], v[names[n]]).Ok? {
        Associate(FieldLines(names[0], v[names[0]]).value, Fields(v, names[1..][..n - 1]).value,
                FieldLines(names[n], v[names[n]]).value);
      }
    }
  }

  lemma {:induction false} UnknownSnoc(names: seq<string>, n: nat)
    requires n < |names| && FirstUnknown(names[..n]) == None
    ensures if KnownField(names[n]) then FirstUnknown(names[..n + 1]) == None else FirstUnknown(names) == Some(names[n])
    decreases n
  {
    hide KnownField;
    if n == 0 {
      assert names[..1][1..] == [];
    } else {
      assert names[..n][1..] == names[1..][..n - 1];
      assert names[..n + 1][1..] == names[1..][..n];
      UnknownSnoc(names[1..], n - 1);
    }
  }

  method CheckNames(v: Values) returns (unknown: Option<string>)
    ensures unknown == FirstUnknown(InOrder(v.Keys))
  {
    hide KnownField;
    var names := SortKeys(v.Keys);
    for n := 0 to |names|
      invariant FirstUnknown(names[..n]) == None
    {
      UnknownSnoc(names, n);
      if !KnownField(names[n]) { return Some(names[n]); }
    }
    assert names[..|names|] == names;
    return None;
  }

  // The same values give the same text, whatever order they were put in the map in.
  method Render(v: Values) returns (r: Result<string>)
    ensures r == Rendered(v)
  {
    hide TextOf, KnownField, FieldLines, Wrote;
    var unknown := CheckNames(v);
    if unknown.Some? { return Failed(UnknownField(unknown.value)); }
    var b := new Builder();
    ghost var lines: seq<Line> := [];
    NothingWritten("");
    for n := 0 to |FIELD_ORDER|
      invariant Fields(v, FIELD_ORDER[..n]) == Ok(lines)
      invariant Wrote(b.text, "", lines)
    {
      FieldsSnoc(v, FIELD_ORDER, n);
      if FIELD_ORDER[n] in v {
        ghost var middle := b.text;
        var problem := RenderField(b, FIELD_ORDER[n], v[FIELD_ORDER[n]]);
        if problem.Some? { return Failed(problem.value); }
        ghost var more := FieldLines(FIELD_ORDER[n], v[FIELD_ORDER[n]]).value;
        WroteLines(middle, b.text, "", lines, more);
        lines := lines + more;
      }
    }
    assert FIELD_ORDER[..|FIELD_ORDER|] == FIELD_ORDER;
    FromNothing(b.text, lines);
    return Ok(b.text);
  }

  lemma FromNothing(text: string, lines: seq<Line>)
    requires Wrote(text, "", lines)
    ensures text == TextOf(lines)
  {
  }
}
