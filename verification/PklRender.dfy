/**
 * The renderer of internal/config/write.go: sparse field values to the text of a Pkl file.
 * Every line is built from pieces, so that what a reader makes of it can be said piece by piece.
 */
module PklRender {
  import opened Options
  import opened SortedKeys
  import opened PklScan
  import opened PklString
  import opened Text

  // ----------------------------------------------------------------- values

  datatype Flake = Flake(url: string, packages: seq<string>, modules: seq<string>)

  // A settings value. A list comes in two shapes; `Unsupported` is any other Go type.
  datatype Setting =
    | SettingString(text: string)
    | SettingBool(on: bool)
    | SettingInt(n: int)
    | SettingStrings(items: seq<string>)
    | SettingBoxed(elements: seq<Setting>)
    | Unsupported

  datatype Value =
    | String(text: string)
    | Bool(on: bool)
    | Strings(items: seq<string>)
    | Flakes(flakes: seq<Flake>)
    | Settings(settings: map<string, Setting>)
    | OtherValue

  type Values = map<string, Value>

  datatype Problem = UnknownField(name: string) | WrongType(field: string) | BadSetting(key: string)
  datatype Result<+T> = Ok(value: T) | Failed(problem: Problem)

  datatype Kind = KindString | KindBool | KindStringList | KindFlakeList | KindSettingsMap

  const FIELD_ORDER: seq<string> := [
    "basePath", "region", "size", "template", "arch", "image", "tailscale", "beads",
    "sshKeys", "packages", "agents", "allowUnfreePackages", "instructions", "flakes", "settings"
  ]

  function KindOf(name: string): Kind {
    if name == "tailscale" then KindBool
    else if name in ["sshKeys", "packages", "agents", "allowUnfreePackages", "instructions"] then KindStringList
    else if name == "flakes" then KindFlakeList
    else if name == "settings" then KindSettingsMap
    else KindString
  }

  predicate KnownField(name: string) {
    name in FIELD_ORDER || name in ["provider", "digitalocean", "gcloud", "shell", "herdrTabs"]
  }

  // ------------------------------------------------------------------ lines

  // A stretch with no bracket, quote, comment mark or line end; one curly or square bracket; a string.
  datatype Piece = Raw(text: string) | Mark(c: char) | Quoted(text: string)

  type Line = seq<Piece>

  function SpellPiece(p: Piece): string {
    match p
    case Raw(text) => text
    case Mark(c) => [c]
    case Quoted(text) => Quote(text)
  }

  function Spelled(line: Line): string {
    if line == [] then "" else SpellPiece(line[0]) + Spelled(line[1..])
  }

  function TextOf(lines: seq<Line>): string {
    if lines == [] then "" else Spelled(lines[0]) + "\n" + TextOf(lines[1..])
  }

  lemma {:induction false} SpelledConcat(a: Line, b: Line)
    ensures Spelled(a + b) == Spelled(a) + Spelled(b)
  {
    if a == [] {
      assert a + b == b;
    } else {
      assert (a + b)[1..] == a[1..] + b;
      SpelledConcat(a[1..], b);
    }
  }

  lemma {:induction false} TextConcat(a: seq<Line>, b: seq<Line>)
    ensures TextOf(a + b) == TextOf(a) + TextOf(b)
  {
    if a == [] {
      assert a + b == b;
    } else {
      assert (a + b)[1..] == a[1..] + b;
      TextConcat(a[1..], b);
    }
  }

  function Spaces(n: nat): Line { if n == 0 then [] else [Raw(Repeat(' ', n))] }

  function Empty(indent: nat, name: string): Line { Spaces(indent) + [Raw(name + " "), Mark('{'), Mark('}')] }
  function Opened(indent: nat, name: string): Line { Spaces(indent) + [Raw(name + " "), Mark('{')] }
  function Closed(indent: nat): Line { Spaces(indent) + [Mark('}')] }
  function Item(indent: nat, item: string): Line { Spaces(indent + 2) + [Quoted(item)] }

  function Items(indent: nat, items: seq<string>): seq<Line> {
    if items == [] then [] else [Item(indent, items[0])] + Items(indent, items[1..])
  }

  function Listing(indent: nat, name: string, items: seq<string>): seq<Line> {
    if items == [] then [Empty(indent, name)]
    else [Opened(indent, name)] + Items(indent, items) + [Closed(indent)]
  }

  function FlakeLines(f: Flake): seq<Line> {
    [Opened(2, "new Flake")]
    + ([Spaces(4) + [Raw("url = "), Quoted(f.url)]] + Listing(4, "packages", f.packages) + Listing(4, "modules", f.modules))
    + [Closed(2)]
  }

  function AllFlakes(flakes: seq<Flake>): seq<Line> {
    if flakes == [] then [] else FlakeLines(flakes[0]) + AllFlakes(flakes[1..])
  }

  function Decimal(n: int): string { if n < 0 then "-" + Digits(-n) else Digits(n) }

  function Boolean(b: bool): string { if b then "true" else "false" }

  // A list's elements, whichever shape it came in; None for a boxed list with an element that is no string.
  function Unboxed(elements: seq<Setting>): Option<seq<string>> {
    if elements == [] then Some([])
    else if !elements[0].SettingString? then None
    else
      var rest := Unboxed(elements[1..]);
      if rest.None? then None else Some([elements[0].text] + rest.value)
  }

  function Joined(items: seq<string>): Line
    requires items != []
  {
    if |items| == 1 then [Quoted(items[0])] else [Quoted(items[0]), Raw("; ")] + Joined(items[1..])
  }

  function ListValue(items: seq<string>): Line {
    if items == [] then [Raw("new Listing "), Mark('{'), Mark('}')]
    else [Raw("new Listing "), Mark('{'), Raw(" ")] + Joined(items) + [Raw(" "), Mark('}')]
  }

  function PklValue(v: Setting): Option<Line> {
    match v
    case SettingString(text) => Some([Quoted(text)])
    case SettingBool(on) => Some([Raw(Boolean(on))])
    case SettingInt(n) => Some([Raw(Decimal(n))])
    case SettingStrings(items) => Some(ListValue(items))
    case SettingBoxed(elements) =>
      var items := Unboxed(elements);
      if items.None? then None else Some(ListValue(items.value))
    case Unsupported => None
  }

  function SettingLine(key: string, value: Line): Line {
    [Raw("  "), Mark('['), Quoted(key), Mark(']'), Raw(" = ")] + value
  }

  function SettingLines(settings: map<string, Setting>, keys: seq<string>): Result<seq<Line>>
    requires forall k :: k in keys ==> k in settings
  {
    if keys == [] then Ok([])
    else
      var value := PklValue(settings[keys[0]]);
      if value.None? then Failed(BadSetting(keys[0]))
      else
        match SettingLines(settings, keys[1..])
        case Failed(p) => Failed(p)
        case Ok(rest) => Ok([SettingLine(keys[0], value.value)] + rest)
  }

  ghost function SettingsBlock(settings: map<string, Setting>): Result<seq<Line>> {
    if settings == map[] then Ok([Empty(0, "settings")])
    else
      match SettingLines(settings, InOrder(settings.Keys))
      case Failed(p) => Failed(p)
      case Ok(rest) => Ok([Opened(0, "settings")] + rest + [Closed(0)])
  }

  function FlakesBlock(flakes: seq<Flake>): seq<Line> {
    if flakes == [] then [Empty(0, "flakes")] else [Opened(0, "flakes")] + AllFlakes(flakes) + [Closed(0)]
  }

  ghost function FieldLines(name: string, value: Value): Result<seq<Line>> {
    match KindOf(name)
    case KindString => if value.String? then Ok([[Raw(name + " = "), Quoted(value.text)]]) else Failed(WrongType(name))
    case KindBool => if value.Bool? then Ok([[Raw(name + " = " + Boolean(value.on))]]) else Failed(WrongType(name))
    case KindStringList => if value.Strings? then Ok(Listing(0, name, value.items)) else Failed(WrongType(name))
    case KindFlakeList => if value.Flakes? then Ok(FlakesBlock(value.flakes)) else Failed(WrongType(name))
    case KindSettingsMap => if value.Settings? then SettingsBlock(value.settings) else Failed(WrongType(name))
  }

  // The fields of `names` that are present, in that order; the first that cannot be rendered decides.
  ghost function Fields(v: Values, names: seq<string>): Result<seq<Line>> {
    if names == [] then Ok([])
    else if names[0] !in v then Fields(v, names[1..])
    else
      match FieldLines(names[0], v[names[0]])
      case Failed(p) => Failed(p)
      case Ok(lines) =>
        match Fields(v, names[1..])
        case Failed(p) => Failed(p)
        case Ok(rest) => Ok(lines + rest)
  }

  function FirstUnknown(names: seq<string>): Option<string> {
    if names == [] then None else if !KnownField(names[0]) then Some(names[0]) else FirstUnknown(names[1..])
  }

  ghost function Rendered(v: Values): Result<string> {
    match FirstUnknown(InOrder(v.Keys))
    case Some(name) => Failed(UnknownField(name))
    case None =>
      match Fields(v, FIELD_ORDER)
      case Failed(p) => Failed(p)
      case Ok(lines) => Ok(TextOf(lines))
  }
}
