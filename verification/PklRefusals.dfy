/** Which values the renderer of internal/config/write.go writes, and why it refuses the others. */
module PklRefusals {
  import opened Options
  import opened SortedKeys
  import opened PklRender

  predicate Expressible(v: Setting) {
    !v.Unsupported? && (v.SettingBoxed? ==> forall i :: 0 <= i < |v.elements| ==> v.elements[i].SettingString?)
  }

  // The type the schema gives the field, if it has a line at all.
  predicate RightType(name: string, value: Value) {
    match value
    case String(_) => name in ["basePath", "region", "size", "template", "arch", "image", "beads"]
    case Bool(_) => name == "tailscale"
    case Strings(_) => name in ["sshKeys", "packages", "agents", "allowUnfreePackages", "instructions"]
    case Flakes(_) => name == "flakes"
    case Settings(_) => name == "settings"
    case OtherValue => false
  }

  predicate Fits(name: string, value: Value) {
    RightType(name, value) && (value.Settings? ==> forall k :: k in value.settings ==> Expressible(value.settings[k]))
  }

  // Why the values are refused: the first unknown field of all in key order; else, of the fields that
  // do not fit, the first in schema order, and within the settings the first key in key order.
  ghost predicate Refused(v: Values, p: Problem) {
    match p
    case UnknownField(n) => n in v && !KnownField(n) && forall m :: m in v && Below(m, n) ==> KnownField(m)
    case WrongType(n) => n in v && n in FIELD_ORDER && !RightType(n, v[n]) && AllKnownIn(v) && EarlierFit(v, n)
    case BadSetting(k) =>
      && "settings" in v && RightType("settings", v["settings"]) && AllKnownIn(v) && EarlierFit(v, "settings")
      && FirstInexpressible(v["settings"].settings, k)
  }

  predicate AllKnownIn(v: Values) { forall n :: n in v ==> KnownField(n) }

  predicate EarlierFit(v: Values, n: string) {
    exists i :: 0 <= i < |FIELD_ORDER| && FIELD_ORDER[i] == n && AllFit(v, FIELD_ORDER[..i])
  }

  predicate AllFit(v: Values, names: seq<string>) { forall n :: n in names && n in v ==> Fits(n, v[n]) }

  ghost predicate FirstInexpressible(settings: map<string, Setting>, k: string) {
    && k in settings && !Expressible(settings[k])
    && forall j :: j in settings && Below(j, k) ==> Expressible(settings[j])
  }

  lemma {:induction false} UnboxedExactly(elements: seq<Setting>)
    ensures Unboxed(elements).Some? <==> forall i :: 0 <= i < |elements| ==> elements[i].SettingString?
  {
    if elements != [] {
      UnboxedExactly(elements[1..]);
      assert forall i :: 0 < i < |elements| ==> elements[i] == elements[1..][i - 1];
      assert forall i :: 0 <= i < |elements| - 1 ==> elements[1..][i] == elements[i + 1];
    }
  }

  lemma SettingRenders(v: Setting)
    ensures PklValue(v).Some? <==> Expressible(v)
  {
    if v.SettingBoxed? {
      UnboxedExactly(v.elements);
    }
  }

  lemma {:induction false} SettingsRender(settings: map<string, Setting>, keys: seq<string>)
    requires Sorted(keys) && forall k :: k in keys ==> k in settings
    ensures SettingLines(settings, keys).Ok? <==> forall k :: k in keys ==> Expressible(settings[k])
    ensures SettingLines(settings, keys).Failed? ==>
              && SettingLines(settings, keys).problem.BadSetting?
              && var k := SettingLines(settings, keys).problem.key;
                 k in keys && !Expressible(settings[k]) && forall j :: j in keys && Below(j, k) ==> Expressible(settings[j])
  {
    hide PklValue, Expressible;
    if keys != [] {
      SettingRenders(settings[keys[0]]);
      SettingsRender(settings, keys[1..]);
      assert keys == [keys[0]] + keys[1..];
      forall j | j in keys ensures !Below(j, keys[0]) {
        Trichotomy(j, keys[0]);
      }
    }
  }

  lemma BlockRenders(settings: map<string, Setting>)
    ensures SettingsBlock(settings).Ok? <==> forall k :: k in settings ==> Expressible(settings[k])
    ensures SettingsBlock(settings).Failed? ==>
              SettingsBlock(settings).problem.BadSetting? && FirstInexpressible(settings, SettingsBlock(settings).problem.key)
  {
    hide SettingLines, Expressible;
    SettingsRender(settings, InOrder(settings.Keys));
  }

  ghost predicate BlamesSetting(name: string, value: Value, p: Problem) {
    name == "settings" && value.Settings? && p.BadSetting? && FirstInexpressible(value.settings, p.key)
  }

  lemma FieldRenders(name: string, value: Value)
    requires name in FIELD_ORDER
    ensures FieldLines(name, value).Ok? <==> Fits(name, value)
    ensures FieldLines(name, value).Failed? ==>
              if RightType(name, value) then BlamesSetting(name, value, FieldLines(name, value).problem)
              else FieldLines(name, value).problem == WrongType(name)
  {
    hide SettingsBlock, FlakesBlock, Expressible;
    if value.Settings? {
      BlockRenders(value.settings);
    }
  }

  lemma {:induction false} FieldsRender(v: Values, names: seq<string>)
    requires forall n :: n in names ==> n in FIELD_ORDER
    ensures Fields(v, names).Ok? <==> AllFit(v, names)
    ensures Fields(v, names).Failed? ==>
              exists i :: 0 <= i < |names| && AllFit(v, names[..i]) && names[i] in v && !Fits(names[i], v[names[i]])
                && Fields(v, names).problem == FieldProblem(names[i], v[names[i]])
  {
    hide FieldLines, Fits, FIELD_ORDER;
    if names != [] {
      assert names == [names[0]] + names[1..];
      if names[0] in v {
        FieldRenders(names[0], v[names[0]]);
        if FieldLines(names[0], v[names[0]]).Failed? {
          assert AllFit(v, names[..0]);
          return;
        }
      }
      FieldsRender(v, names[1..]);
      if Fields(v, names[1..]).Failed? {
        var i :| 0 <= i < |names| - 1 && AllFit(v, names[1..][..i]) && names[1..][i] in v
          && !Fits(names[1..][i], v[names[1..][i]])
          && Fields(v, names[1..]).problem == FieldProblem(names[1..][i], v[names[1..][i]]);
        assert names[..i + 1] == [names[0]] + names[1..][..i];
        assert AllFit(v, names[..i + 1]) && names[i + 1] == names[1..][i];
      }
    }
  }

  ghost function FieldProblem(name: string, value: Value): Problem {
    if FieldLines(name, value).Failed? then FieldLines(name, value).problem else WrongType(name)
  }

  lemma {:induction false} UnknownFirst(names: seq<string>)
    requires Sorted(names)
    ensures FirstUnknown(names).None? <==> forall n :: n in names ==> KnownField(n)
    ensures FirstUnknown(names).Some? ==>
              var n := FirstUnknown(names).value;
              n in names && !KnownField(n) && forall m :: m in names && Below(m, n) ==> KnownField(m)
  {
    hide KnownField;
    if names != [] {
      assert names == [names[0]] + names[1..];
      UnknownFirst(names[1..]);
      forall m | m in names ensures !Below(m, names[0]) {
        Trichotomy(m, names[0]);
      }
    }
  }

  // Values render if and only if every field is known and has the type of its place, and the error
  // of values that do not is the first one in the order the source looks.
  lemma RendersExactly(v: Values)
    ensures Rendered(v).Ok? <==> AllKnownIn(v) && AllFit(v, FIELD_ORDER)
    ensures Rendered(v).Failed? ==> Refused(v, Rendered(v).problem)
  {
    hide Fits, KnownField, Fields, FIELD_ORDER, FieldLines;
    UnknownFirst(InOrder(v.Keys));
    FieldsRender(v, FIELD_ORDER);
    if Rendered(v).Failed? && AllKnownIn(v) {
      var i :| 0 <= i < |FIELD_ORDER| && AllFit(v, FIELD_ORDER[..i]) && FIELD_ORDER[i] in v
        && !Fits(FIELD_ORDER[i], v[FIELD_ORDER[i]])
        && Fields(v, FIELD_ORDER).problem == FieldProblem(FIELD_ORDER[i], v[FIELD_ORDER[i]]);
      FieldRenders(FIELD_ORDER[i], v[FIELD_ORDER[i]]);
      assert EarlierFit(v, FIELD_ORDER[i]);
    }
  }
}
