/**
 * `MacroEngine.ApplyStyle` and `ParseColor`: a style is flattened to its
 * dictionary, an obfuscate container first gets its prepared filter, and each
 * key is then resolved against the field registry, coerced and set.
 */
module StyleMapper {
  import opened Wrappers
  import opened Int32
  import opened Models
  import opened Runtime
  import Text
  import Coercion

  const PreparedFilterObfuscate: FieldType := FieldType("PREPARED_FILTER_OBFUSCATE")

  /** Fields whose value is parsed as a colour. */
  const ColorFields: set<string> := {"LINE_COLOR", "FILL_COLOR", "HIGHLIGHT_COLOR"}

  /** Fields whose value goes through `Convert.ToInt32`. */
  const IntegerFields: set<string> := {"LINE_THICKNESS", "PIXEL_SIZE", "MAGNIFICATION_FACTOR", "BLUR_RADIUS"}

  /** Fields whose value goes through `Convert.ToBoolean`. */
  const BooleanFields: set<string> := {"SHADOW", "FONT_BOLD", "FONT_ITALIC"}

  /** A style key upper-cased with its underscores removed (no other separator is removed). */
  function NormalizeKey(key: string): string {
    Text.Remove(Text.ToUpper(key), '_')
  }

  /** The first field type whose name, with underscores removed, equals the key; `None` when none does. */
  function Resolve(types: seq<FieldType>, key: string): (r: Option<FieldType>)
    ensures r.Some? ==> r.value in types && Text.Remove(r.value.name, '_') == key
    ensures r.None? <==> forall i :: 0 <= i < |types| ==> Text.Remove(types[i].name, '_') != key
  {
    if |types| == 0 then None
    else if Text.Remove(types[0].name, '_') == key then Some(types[0])
    else Resolve(types[1..], key)
  }

  /** The field found is the first registry entry whose name matches. */
  lemma {:induction false} ResolveFirstMatch(types: seq<FieldType>, key: string, i: nat)
    requires i < |types| && Text.Remove(types[i].name, '_') == key
    requires forall j :: 0 <= j < i ==> Text.Remove(types[j].name, '_') != key
    ensures Resolve(types, key) == Some(types[i])
  {
    if i > 0 {
      ResolveFirstMatch(types[1..], key, i - 1);
    }
  }

  /**
   * `ParseColor`: null and "transparent" in any letter case give transparent,
   * otherwise the HTML colour, and red when that cannot be parsed.
   */
  function ParseColor(env: Env, value: Option<string>): (c: Color)
    ensures value.None? ==> c == Transparent
    ensures value.Some? && Text.ToLower(value.value) == "transparent" ==> c == Transparent
    ensures value.Some? && Text.ToLower(value.value) != "transparent" ==>
      c == (if env.fromHtml(value.value).Some? then env.fromHtml(value.value).value else Red)
  {
    match value
    case None => Transparent
    case Some(s) =>
      if Text.ToLower(s) == "transparent" then Transparent
      else
        match env.fromHtml(s)
        case Some(c) => c
        case None => Red
  }

  /** Each letter of "transparent" may be written in either case. */
  lemma TransparentInAnyCase(env: Env, s: string)
    requires |s| == 11
    requires forall i :: 0 <= i < 11 ==> Text.LowerChar(s[i]) == "transparent"[i]
    ensures ParseColor(env, Some(s)) == Transparent
  {
    assert Text.ToLower(s) == "transparent";
  }

  /** The value handed to `SetFieldValue` for a field; `None` where the conversion throws. */
  function Coerce(env: Env, f: FieldType, v: StyleValue): Option<FieldValue> {
    if f.name in ColorFields then Some(ColorValue(ParseColor(env, Some(Coercion.ToText(env, v)))))
    else if f.name in IntegerFields then (var n :- Coercion.ToInt32(env, v); Some(IntValue(n)))
    else if f.name in BooleanFields then (var b :- Coercion.ToBoolean(v); Some(BoolValue(b)))
    else Some(Uncoerced(v))
  }

  /** What happens to one dictionary entry. */
  datatype KeyResult =
    | Unknown(key: string)
    | Unsupported(field: FieldType)
    | Rejected(field: FieldType, value: StyleValue)
    | Applied(assignment: FieldAssignment)
    | NotApplied(field: FieldType)

  function ApplyEntry(env: Env, h: Holder, entry: StyleEntry): (r: KeyResult)
    ensures r.Rejected? ==> r.value == entry.value
  {
    match Resolve(env.fieldTypes, NormalizeKey(entry.key))
    case None => Unknown(entry.key)
    case Some(f) =>
      if !env.hasField(h, f) then Unsupported(f)
      else
        match Coerce(env, f, entry.value)
        case None => Rejected(f, entry.value)
        case Some(v) => if env.setField(h, f, v) then Applied(FieldAssignment(f, v)) else NotApplied(f)
  }

  function Assigned(k: KeyResult): seq<FieldAssignment> {
    if k.Applied? then [k.assignment] else []
  }

  function Logged(k: KeyResult): seq<Event> {
    match k
    case Unknown(key) => [Warned(UnknownStyleProperty(key))]
    case Unsupported(f) => [Warned(FieldNotSupported(f))]
    case NotApplied(f) => [Warned(SetFieldFailed(f))]
    case _ => []
  }

  /**
   * The fields set on a container, in order, and the warnings logged; a
   * `failure` is the exception that escapes `ApplyStyle`.
   */
  datatype Styled = Styled(fields: seq<FieldAssignment>, log: seq<Event>, failure: Option<Error>)

  const Unstyled: Styled := Styled([], [], None)

  /** One key's result followed by the remaining keys; a rejected value throws and ends the loop. */
  function Cons(k: KeyResult, rest: Styled): Styled {
    if k.Rejected? then Styled([], [], Some(CoercionFailed(k.field, k.value)))
    else Styled(Assigned(k) + rest.fields, Logged(k) + rest.log, rest.failure)
  }

  /** The `foreach` over the dictionary. */
  function ApplyEntries(env: Env, h: Holder, d: seq<StyleEntry>): Styled {
    if |d| == 0 then Unstyled
    else Cons(ApplyEntry(env, h, d[0]), ApplyEntries(env, h, d[1..]))
  }

  /** Running `a` and then, unless it threw, `b`. */
  function Then(a: Styled, b: Styled): Styled {
    if a.failure.Some? then a else Styled(a.fields + b.fields, a.log + b.log, b.failure)
  }

  /** The obfuscate preset the dictionary selects; blur is tested first. */
  function PresetFor(d: seq<StyleEntry>): Option<Preset> {
    if ContainsKey(d, "blur_radius") || ContainsKey(d, "blurradius") then Some(Blur)
    else if ContainsKey(d, "pixel_size") || ContainsKey(d, "pixelsize") then Some(Pixelize)
    else None
  }

  /**
   * `ApplyStyle(container, style)` for a container of the given kind. An
   * obfuscation first gets the preset filter the dictionary selects; the keys
   * are then applied to the container with that filter in place.
   */
  function ApplyStyle(env: Env, kind: ElementKind, style: Option<MacroStyle>): (r: Styled)
    ensures style.None? ==> r == Unstyled
  {
    match style
    case None => Unstyled
    case Some(s) =>
      var d := ToDictionary(s);
      var created := Holder(kind, None);
      var preset := if kind == Obfuscate then PresetFor(d) else None;
      if preset.None? then ApplyEntries(env, created, d)
      else
        var v := PresetValue(preset.value);
        if !env.setField(created, PreparedFilterObfuscate, v) then Styled([], [], Some(PresetRejected(preset.value)))
        else Then(Styled([FieldAssignment(PreparedFilterObfuscate, v)], [], None), ApplyEntries(env, Holder(kind, preset), d))
  }

  // ---- properties ----

  /** Applying a dictionary in two parts is applying the first part, then (unless it threw) the second. */
  lemma {:induction false} ApplyEntriesAppend(env: Env, h: Holder, xs: seq<StyleEntry>, ys: seq<StyleEntry>)
    ensures ApplyEntries(env, h, xs + ys) == Then(ApplyEntries(env, h, xs), ApplyEntries(env, h, ys))
  {
    if |xs| == 0 {
      assert xs + ys == ys;
    } else {
      assert (xs + ys)[0] == xs[0];
      assert (xs + ys)[1..] == xs[1..] + ys;
      ApplyEntriesAppend(env, h, xs[1..], ys);
      ConsThen(ApplyEntry(env, h, xs[0]), ApplyEntries(env, h, xs[1..]), ApplyEntries(env, h, ys));
    }
  }

  lemma ConsThen(k: KeyResult, a: Styled, b: Styled)
    ensures Cons(k, Then(a, b)) == Then(Cons(k, a), b)
  {
    if !k.Rejected? && a.failure.None? {
      assert Assigned(k) + (a.fields + b.fields) == (Assigned(k) + a.fields) + b.fields;
      assert Logged(k) + (a.log + b.log) == (Logged(k) + a.log) + b.log;
    }
  }

  /**
   * A key that names no field, a field the container lacks, or a set that
   * throws only adds a warning: the fields set from the other keys, and whether
   * the style throws, are as if the key were absent.
   */
  lemma SkippedKeyIsInert(env: Env, h: Holder, xs: seq<StyleEntry>, e: StyleEntry, ys: seq<StyleEntry>)
    requires ApplyEntry(env, h, e).Unknown? || ApplyEntry(env, h, e).Unsupported? ||
             ApplyEntry(env, h, e).NotApplied?
    ensures ApplyEntries(env, h, xs + [e] + ys).fields == ApplyEntries(env, h, xs + ys).fields
    ensures ApplyEntries(env, h, xs + [e] + ys).failure == ApplyEntries(env, h, xs + ys).failure
    ensures |Logged(ApplyEntry(env, h, e))| == 1 && Logged(ApplyEntry(env, h, e))[0].Warned?
    ensures ApplyEntries(env, h, xs).failure.None? ==>
      ApplyEntries(env, h, xs + [e] + ys).log ==
        ApplyEntries(env, h, xs).log + Logged(ApplyEntry(env, h, e)) + ApplyEntries(env, h, ys).log
    ensures ApplyEntries(env, h, xs).failure.Some? ==>
      ApplyEntries(env, h, xs + [e] + ys) == ApplyEntries(env, h, xs + ys)
  {
    var k := ApplyEntry(env, h, e);
    var a, b := ApplyEntries(env, h, xs), ApplyEntries(env, h, ys);
    var one := Cons(k, Unstyled);
    ApplyOne(env, h, e);
    assert one == Styled([], Logged(k), None) && |Logged(k)| == 1;
    ApplyEntriesAppend(env, h, xs + [e], ys);
    ApplyEntriesAppend(env, h, xs, [e]);
    ApplyEntriesAppend(env, h, xs, ys);
    assert ApplyEntries(env, h, xs + [e] + ys) == Then(Then(a, one), b);
    ThenSkip(a, one, b);
  }

  /** A step that sets nothing and does not throw only adds to the log. */
  lemma ThenSkip(a: Styled, one: Styled, b: Styled)
    requires one.fields == [] && one.failure.None?
    ensures Then(Then(a, one), b).fields == Then(a, b).fields
    ensures Then(Then(a, one), b).failure == Then(a, b).failure
    ensures a.failure.None? ==> Then(Then(a, one), b).log == a.log + one.log + b.log
    ensures a.failure.Some? ==> Then(Then(a, one), b) == Then(a, b)
  {
    if a.failure.None? {
      assert a.fields + [] == a.fields;
    }
  }

  /**
   * A conversion that throws ends the style: the keys before it have been set,
   * and the keys after it are never looked at.
   */
  lemma CoercionFailureStopsStyle(env: Env, h: Holder, xs: seq<StyleEntry>, e: StyleEntry, ys: seq<StyleEntry>)
    requires ApplyEntries(env, h, xs).failure.None?
    requires ApplyEntry(env, h, e).Rejected?
    ensures ApplyEntries(env, h, xs + [e] + ys).failure ==
      Some(CoercionFailed(ApplyEntry(env, h, e).field, e.value))
    ensures ApplyEntries(env, h, xs + [e] + ys).fields == ApplyEntries(env, h, xs).fields
  {
    var a := ApplyEntries(env, h, xs);
    ApplyOne(env, h, e);
    ApplyEntriesAppend(env, h, xs, [e]);
    ApplyEntriesAppend(env, h, xs + [e], ys);
    assert a.fields + [] == a.fields;
  }

  lemma ApplyOne(env: Env, h: Holder, e: StyleEntry)
    ensures ApplyEntries(env, h, [e]) == Cons(ApplyEntry(env, h, e), Unstyled)
  {
    assert [e][1..] == [];
  }

  /** Without a throw, a field value is set exactly when some key resolves, is supported, converts and sets. */
  lemma AppliedExactly(env: Env, h: Holder, d: seq<StyleEntry>, a: FieldAssignment)
    requires ApplyEntries(env, h, d).failure.None?
    ensures a in ApplyEntries(env, h, d).fields <==>
      exists i :: 0 <= i < |d| && ApplyEntry(env, h, d[i]) == Applied(a)
  {
    var ks := KeyResults(env, h, d);
    ApplyEntriesFolds(env, h, d);
    FoldedFieldIff(ks, a);
    if exists i :: 0 <= i < |ks| && ks[i] == Applied(a) {
      var i :| 0 <= i < |ks| && ks[i] == Applied(a);
      SetByKey(env, h, d, i, a);
    }
    if exists j :: 0 <= j < |d| && ApplyEntry(env, h, d[j]) == Applied(a) {
      var j :| 0 <= j < |d| && ApplyEntry(env, h, d[j]) == Applied(a);
      assert ks[j] == Applied(a);
    }
  }

  /** Blur wins over pixelate; the run-together spellings the engine also tests never occur. */
  lemma PresetForStyle(s: MacroStyle)
    ensures PresetFor(ToDictionary(s)) ==
      if s.blurRadius.Some? then Some(Blur) else if s.pixelSize.Some? then Some(Pixelize) else None
  {
    DictionaryHas(s, "blur_radius");
    DictionaryHas(s, "blurradius");
    DictionaryHas(s, "pixel_size");
    DictionaryHas(s, "pixelsize");
    RunTogetherKeyUnset(s, "blurradius");
    RunTogetherKeyUnset(s, "pixelsize");
    PresetKeys(s);
  }

  lemma DictionaryHas(s: MacroStyle, key: string)
    ensures ContainsKey(ToDictionary(s), key) <==> StyleProperty(s, key).Some?
  {
    DictionaryLookup(s, key);
  }

  lemma PresetKeys(s: MacroStyle)
    ensures StyleProperty(s, "blur_radius").Some? <==> s.blurRadius.Some?
    ensures StyleProperty(s, "pixel_size").Some? <==> s.pixelSize.Some?
  {
    assert "pixel_size" != "line_color" by { assert "pixel_size"[0] != "line_color"[0]; }
    assert "pixel_size" != "fill_color" by { assert "pixel_size"[0] != "fill_color"[0]; }
  }

  /** A key of nine or ten characters without the underscore of the snake_case keys names no property. */
  lemma RunTogetherKeyUnset(s: MacroStyle, key: string)
    requires (|key| == 10 && key[4] != '_' && key[5] != '_') || (|key| == 9 && key[4] != '_')
    ensures StyleProperty(s, key) == None
  {
    assert key != "line_color" by { assert "line_color"[4] == '_'; }
    assert key != "fill_color" by { assert "fill_color"[4] == '_'; }
    assert key != "font_size" by { assert "font_size"[4] == '_'; }
    assert key != "pixel_size" by { assert "pixel_size"[5] == '_'; }
    assert |key| !in {6, 11, 14};
  }

  /**
   * On an obfuscate container a blur radius selects the blur filter, else a
   * pixel size selects pixelate. The filter is set before any key is applied,
   * and every key is then applied to the container with that filter in place.
   * A throw while setting the filter ends the style.
   */
  lemma ObfuscatePresetFirst(env: Env, s: MacroStyle)
    requires s.blurRadius.Some? || s.pixelSize.Some?
    ensures var p := if s.blurRadius.Some? then Blur else Pixelize;
      var r := ApplyStyle(env, Obfuscate, Some(s));
      if env.setField(Holder(Obfuscate, None), PreparedFilterObfuscate, PresetValue(p))
      then
        && |r.fields| > 0 && r.fields[0] == FieldAssignment(PreparedFilterObfuscate, PresetValue(p))
        && r.fields[1..] == ApplyEntries(env, Holder(Obfuscate, Some(p)), ToDictionary(s)).fields
      else r == Styled([], [], Some(PresetRejected(p)))
  {
    PresetForStyle(s);
  }

  /** Every field a style sets comes from a dictionary key that resolves to it and is applied. */
  lemma AppliedOnlyFromKeys(env: Env, h: Holder, d: seq<StyleEntry>, a: FieldAssignment)
    requires a in ApplyEntries(env, h, d).fields
    ensures exists i :: 0 <= i < |d| && ApplyEntry(env, h, d[i]) == Applied(a)
  {
    var ks := KeyResults(env, h, d);
    ApplyEntriesFolds(env, h, d);
    FoldedFieldFrom(ks, a);
    var i :| 0 <= i < |ks| && ks[i] == Applied(a);
    SetByKey(env, h, d, i, a);
  }

  lemma SetByKey(env: Env, h: Holder, d: seq<StyleEntry>, i: nat, a: FieldAssignment)
    requires i < |d| && KeyResults(env, h, d)[i] == Applied(a)
    ensures exists j :: 0 <= j < |d| && ApplyEntry(env, h, d[j]) == Applied(a)
  {
    assert ApplyEntry(env, h, d[i]) == Applied(a);
  }

  /** Each key's result, in dictionary order. */
  function KeyResults(env: Env, h: Holder, d: seq<StyleEntry>): (ks: seq<KeyResult>)
    ensures |ks| == |d|
    ensures forall i :: 0 <= i < |d| ==> ks[i] == ApplyEntry(env, h, d[i])
  {
    seq(|d|, i requires 0 <= i < |d| => ApplyEntry(env, h, d[i]))
  }

  /** The key results folded with `Cons`, ending in `Unstyled`. */
  function Folded(ks: seq<KeyResult>): Styled {
    if |ks| == 0 then Unstyled else Cons(ks[0], Folded(ks[1..]))
  }

  lemma {:induction false} ApplyEntriesFolds(env: Env, h: Holder, d: seq<StyleEntry>)
    ensures ApplyEntries(env, h, d) == Folded(KeyResults(env, h, d))
  {
    if |d| > 0 {
      ApplyEntriesFolds(env, h, d[1..]);
      assert KeyResults(env, h, d)[1..] == KeyResults(env, h, d[1..]);
    }
  }

  lemma {:induction false} FoldedFieldIff(ks: seq<KeyResult>, a: FieldAssignment)
    requires Folded(ks).failure.None?
    ensures a in Folded(ks).fields <==> exists i :: 0 <= i < |ks| && ks[i] == Applied(a)
  {
    if a in Folded(ks).fields {
      FoldedFieldFrom(ks, a);
    }
    if exists i :: 0 <= i < |ks| && ks[i] == Applied(a) {
      var i :| 0 <= i < |ks| && ks[i] == Applied(a);
      FoldedKeepsApplied(ks, i);
    }
  }

  lemma {:induction false} FoldedKeepsApplied(ks: seq<KeyResult>, i: nat)
    requires i < |ks| && ks[i].Applied? && Folded(ks).failure.None?
    ensures ks[i].assignment in Folded(ks).fields
  {
    assert !ks[0].Rejected?;
    if i > 0 {
      assert ks[1..][i - 1] == ks[i];
      FoldedKeepsApplied(ks[1..], i - 1);
    }
  }

  lemma {:induction false} FoldedFieldFrom(ks: seq<KeyResult>, a: FieldAssignment)
    requires a in Folded(ks).fields
    ensures exists i :: 0 <= i < |ks| && ks[i] == Applied(a)
  {
    ConsFieldFrom(ks[0], Folded(ks[1..]), a);
    if ks[0] != Applied(a) {
      FoldedFieldFrom(ks[1..], a);
      var i :| 0 <= i < |ks[1..]| && ks[1..][i] == Applied(a);
      assert ks[i + 1] == Applied(a);
    }
  }

  /** A field in the result of one key followed by the rest was set by that key or by the rest. */
  lemma ConsFieldFrom(k: KeyResult, rest: Styled, a: FieldAssignment)
    requires a in Cons(k, rest).fields
    ensures k == Applied(a) || a in rest.fields
  {
  }

  /** A key that is applied names the field it set. */
  lemma AppliedResolves(env: Env, h: Holder, e: StyleEntry, a: FieldAssignment)
    requires ApplyEntry(env, h, e) == Applied(a)
    ensures Resolve(env.fieldTypes, NormalizeKey(e.key)) == Some(a.field)
  {
    var f := Resolve(env.fieldTypes, NormalizeKey(e.key));
    var c := Coerce(env, f.value, e.value);
    assert ApplyEntry(env, h, e) == Applied(FieldAssignment(f.value, c.value));
  }

  lemma StyleWithoutPreset(env: Env, kind: ElementKind, s: MacroStyle)
    requires kind != Obfuscate
    ensures ApplyStyle(env, kind, Some(s)) == ApplyEntries(env, Holder(kind, None), ToDictionary(s))
  {
  }

  /**
   * A container other than an obfuscation gets a prepared filter only when a
   * key of its own dictionary names that field: the preset step is skipped.
   */
  lemma NoPresetOutsideObfuscate(env: Env, kind: ElementKind, s: MacroStyle, v: FieldValue)
    requires kind != Obfuscate
    requires FieldAssignment(PreparedFilterObfuscate, v) in ApplyStyle(env, kind, Some(s)).fields
    ensures var d := ToDictionary(s);
      exists i :: 0 <= i < |d| && Resolve(env.fieldTypes, NormalizeKey(d[i].key)) == Some(PreparedFilterObfuscate)
  {
    var d := ToDictionary(s);
    var h := Holder(kind, None);
    var a := FieldAssignment(PreparedFilterObfuscate, v);
    StyleWithoutPreset(env, kind, s);
    AppliedOnlyFromKeys(env, h, d, a);
    var i :| 0 <= i < |d| && ApplyEntry(env, h, d[i]) == Applied(a);
    AppliedResolves(env, h, d[i], a);
  }

  /** A letter in one of a key and a field name, but not in the other, tells them apart. */
  lemma NormalizedDiffers(key: string, name: string, x: char)
    requires 'A' <= x <= 'Z'
    requires (x in key || Text.LowerChar(x) in key) != (x in name)
    ensures NormalizeKey(key) != Text.Remove(name, '_')
  {
    Text.UpperMembership(key, x);
  }

  /**
   * The colour keys name no field whose value is converted to an integer or a
   * boolean: each such field name has a letter neither `line_color` nor
   * `fill_color` contains.
   */
  lemma ColorKeyUnconverted(key: string, name: string)
    requires key == "line_color" || key == "fill_color"
    requires name in IntegerFields || name in BooleanFields
    ensures NormalizeKey(key) != Text.Remove(name, '_')
  {
    var x := ColorKeyWitness(key, name);
    NormalizedDiffers(key, name, x);
  }

  /** The letter that tells a colour key from a converted field's name. */
  lemma ColorKeyWitness(key: string, name: string) returns (x: char)
    requires key == "line_color" || key == "fill_color"
    requires name in IntegerFields || name in BooleanFields
    ensures 'A' <= x <= 'Z' && x in name && x !in key && Text.LowerChar(x) !in key
  {
    x :=
      if name == "LINE_THICKNESS" then 'K'
      else if name == "PIXEL_SIZE" then 'P'
      else if name == "MAGNIFICATION_FACTOR" then 'M'
      else if name == "BLUR_RADIUS" || name == "FONT_BOLD" then 'B'
      else if name == "SHADOW" then 'S' else 'T';
  }

  /** `font_size` names no field whose value is converted to an integer. */
  lemma FontSizeKeyUnconverted(key: string, name: string)
    requires key == "font_size"
    requires name in IntegerFields
    ensures NormalizeKey(key) != Text.Remove(name, '_')
  {
    var x := if name == "PIXEL_SIZE" then 'P' else 'Z';
    NormalizedDiffers(key, name, x);
  }

  /**
   * A value typed as its property is declared converts for whichever field
   * its key resolves to: text and doubles never meet a conversion that can fail.
   */
  lemma CoerceTyped(env: Env, f: FieldType, e: StyleEntry)
    requires TypedAsDeclared(e)
    requires Text.Remove(f.name, '_') == NormalizeKey(e.key)
    ensures Coerce(env, f, e.value).Some?
  {
    match e.value
    case Text(_) =>
      if f.name in IntegerFields || f.name in BooleanFields {
        ColorKeyUnconverted(e.key, f.name);
      }
    case Real(_) =>
      if f.name in IntegerFields {
        FontSizeKeyUnconverted(e.key, f.name);
      }
    case Integer(n) =>
      assert Coercion.ToInt32(env, e.value) == Some(n);
    case Boolean(b) =>
      assert Coercion.ToBoolean(e.value) == Some(b);
  }


  /** No key of a style's dictionary is rejected by its conversion. */
  lemma EntryNeverRejected(env: Env, h: Holder, e: StyleEntry)
    requires TypedAsDeclared(e)
    ensures !ApplyEntry(env, h, e).Rejected?
  {
    var r := Resolve(env.fieldTypes, NormalizeKey(e.key));
    RejectedByCoerce(env, h, e);
    if r.Some? {
      CoerceTyped(env, r.value, e);
    }
  }

  /** A key is rejected only when its value does not convert for the field it resolves to. */
  lemma RejectedByCoerce(env: Env, h: Holder, e: StyleEntry)
    ensures var r := Resolve(env.fieldTypes, NormalizeKey(e.key));
      ApplyEntry(env, h, e).Rejected? ==> r.Some? && Coerce(env, r.value, e.value).None?
  {
    var r := Resolve(env.fieldTypes, NormalizeKey(e.key));
    if r.Some? && env.hasField(h, r.value) {
      var c := Coerce(env, r.value, e.value);
      if c.Some? {
        var k := if env.setField(h, r.value, c.value) then Applied(FieldAssignment(r.value, c.value)) else NotApplied(r.value);
        assert ApplyEntry(env, h, e) == k;
      }
    }
  }


  lemma {:induction false} FoldedNoFailure(ks: seq<KeyResult>)
    requires forall i :: 0 <= i < |ks| ==> !ks[i].Rejected?
    ensures Folded(ks).failure.None?
  {
    if |ks| > 0 {
      FoldedNoFailure(ks[1..]);
    }
  }

  /** The key loop over a style's own dictionary never throws. */
  lemma DictionaryNeverThrows(env: Env, h: Holder, s: MacroStyle)
    ensures ApplyEntries(env, h, ToDictionary(s)).failure.None?
  {
    var d := ToDictionary(s);
    var ks := KeyResults(env, h, d);
    DictionaryTyped(s);
    forall i | 0 <= i < |ks|
      ensures !ks[i].Rejected?
    {
      EntryNeverRejected(env, h, d[i]);
    }
    ApplyEntriesFolds(env, h, d);
    FoldedNoFailure(ks);
  }

  /**
   * A style throws only when an obfuscation refuses its preset: every value
   * `ToDictionary` boxes has the type its field's conversion accepts.
   */
  lemma StyleThrowsOnlyOnPreset(env: Env, kind: ElementKind, s: MacroStyle)
    ensures var r := ApplyStyle(env, kind, Some(s));
      r.failure.Some? ==> kind == Obfuscate && r.failure.value.PresetRejected?
  {
    var d := ToDictionary(s);
    var p := if kind == Obfuscate then PresetFor(d) else None;
    StyleSteps(env, kind, s);
    DictionaryNeverThrows(env, Holder(kind, None), s);
    if p.Some? {
      DictionaryNeverThrows(env, Holder(kind, p), s);
    }
  }

  /** `ApplyStyle` on a present style, one case per path through it. */
  lemma StyleSteps(env: Env, kind: ElementKind, s: MacroStyle)
    ensures var d := ToDictionary(s);
      var p := if kind == Obfuscate then PresetFor(d) else None;
      var r := ApplyStyle(env, kind, Some(s));
      && (p.None? ==> r == ApplyEntries(env, Holder(kind, None), d))
      && (p.Some? && !env.setField(Holder(kind, None), PreparedFilterObfuscate, PresetValue(p.value)) ==>
            r == Styled([], [], Some(PresetRejected(p.value))))
      && (p.Some? && env.setField(Holder(kind, None), PreparedFilterObfuscate, PresetValue(p.value)) ==>
            r == Then(Styled([FieldAssignment(PreparedFilterObfuscate, PresetValue(p.value))], [], None),
                      ApplyEntries(env, Holder(kind, p), d)))
  {
  }

  /**
   * Normalisation removes only underscores: every other character that is not
   * a lower-case letter survives it, so `line-color` does not become `LINECOLOR`.
   */
  lemma NormalizeKeepsOtherSeparators(key: string, c: char)
    requires c in key && c != '_' && !('a' <= c <= 'z')
    ensures c in NormalizeKey(key)
  {
    var i :| 0 <= i < |key| && key[i] == c;
    assert Text.ToUpper(key)[i] == c;
  }

  /** Two different keys never resolve to the same registry field, so no field is set twice from a style. */
  lemma DistinctKeysDistinctFields(env: Env, k1: string, k2: string)
    requires NormalizeKey(k1) != NormalizeKey(k2)
    requires Resolve(env.fieldTypes, NormalizeKey(k1)).Some? && Resolve(env.fieldTypes, NormalizeKey(k2)).Some?
    ensures Resolve(env.fieldTypes, NormalizeKey(k1)).value != Resolve(env.fieldTypes, NormalizeKey(k2)).value
  {
  }
}
