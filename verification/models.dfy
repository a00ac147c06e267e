/**
 * The macro document: the records a workflow script is read into, and the
 * flattening of a style into the key/value dictionary the style mapper walks.
 * A C# null (a missing object, string, list or `Nullable<T>`) is `None`.
 */
module Models {
  import opened Wrappers
  import opened Int32

  /** A capture rectangle (`area` of a `region` capture). */
  datatype MacroArea = MacroArea(x: int32, y: int32, width: int32, height: int32)

  /** Capture options; declared in the schema but never read by the engine. */
  datatype MacroOptions = MacroOptions(showCursor: bool, delayMs: int32)

  datatype MacroPoint = MacroPoint(x: int32, y: int32)

  /** The box of a rectangle or obfuscate element. */
  datatype MacroBounds = MacroBounds(x: int32, y: int32, w: int32, h: int32)

  /** An IEEE-754 double, carried by its bit pattern; no arithmetic is done on it. */
  datatype Double = Double(bits: bv64)

  datatype MacroStyle = MacroStyle(
    lineColor: Option<string>,
    fillColor: Option<string>,
    lineThickness: Option<int32>,
    shadow: Option<bool>,
    fontSize: Option<Double>,
    blurRadius: Option<int32>,
    pixelSize: Option<int32>)

  /** One annotation; `kind` is the JSON `type` (rectangle, arrow, text, obfuscate). */
  datatype MacroElement = MacroElement(
    kind: Option<string>,
    bounds: Option<MacroBounds>,
    from: Option<MacroPoint>,
    to: Option<MacroPoint>,
    position: Option<MacroPoint>,
    content: Option<string>,
    obfuscateMethod: Option<string>,
    pixelSize: Option<int32>,
    style: Option<MacroStyle>)

  /** One export target; `kind` is the JSON `type` (file, clipboard). */
  datatype MacroDestination = MacroDestination(kind: Option<string>, path: Option<string>, overwrite: Option<bool>)

  /**
   * One workflow step. `step` names the stage (capture, annotate, export);
   * `captureType` is the JSON `type`, the capture mode.
   */
  datatype MacroStep = MacroStep(
    step: Option<string>,
    captureType: Option<string>,
    area: Option<MacroArea>,
    path: Option<string>,
    options: Option<MacroOptions>,
    autoCrop: Option<bool>,
    autoCropDifference: Option<int32>,
    elements: Option<seq<MacroElement>>,
    destinations: Option<seq<MacroDestination>>)

  datatype MacroScript = MacroScript(version: Option<string>, workflow: Option<seq<MacroStep>>)

  /** A boxed style value, as stored in the `Dictionary<string, object>`. */
  datatype StyleValue = Text(text: string) | Integer(number: int32) | Boolean(flag: bool) | Real(double: Double)

  datatype StyleEntry = StyleEntry(key: string, value: StyleValue)

  /** The seven snake_case style keys, in declaration order. */
  const StyleKeys: seq<string> :=
    ["line_color", "fill_color", "line_thickness", "shadow", "font_size", "blur_radius", "pixel_size"]

  const EmptyStyle := MacroStyle(None, None, None, None, None, None, None)

  /** The style property each JSON key is bound to, boxed; `None` when it is null or the key is not a style key. */
  function StyleProperty(s: MacroStyle, key: string): Option<StyleValue> {
    if key == "line_color" then (if s.lineColor.Some? then Some(Text(s.lineColor.value)) else None)
    else if key == "fill_color" then (if s.fillColor.Some? then Some(Text(s.fillColor.value)) else None)
    else if key == "line_thickness" then (if s.lineThickness.Some? then Some(Integer(s.lineThickness.value)) else None)
    else if key == "shadow" then (if s.shadow.Some? then Some(Boolean(s.shadow.value)) else None)
    else if key == "font_size" then (if s.fontSize.Some? then Some(Real(s.fontSize.value)) else None)
    else if key == "blur_radius" then (if s.blurRadius.Some? then Some(Integer(s.blurRadius.value)) else None)
    else if key == "pixel_size" then (if s.pixelSize.Some? then Some(Integer(s.pixelSize.value)) else None)
    else None
  }

  /** `Dictionary.TryGetValue`: the value stored under `key`. */
  function Lookup(d: seq<StyleEntry>, key: string): Option<StyleValue> {
    if |d| == 0 then None
    else if d[0].key == key then Some(d[0].value)
    else Lookup(d[1..], key)
  }

  predicate ContainsKey(d: seq<StyleEntry>, key: string) {
    Lookup(d, key).Some?
  }

  /** No key is stored twice. */
  predicate DistinctKeys(d: seq<StyleEntry>) {
    forall i, j :: 0 <= i < j < |d| ==> d[i].key != d[j].key
  }

  function Entry(key: string, v: Option<StyleValue>): seq<StyleEntry> {
    if v.Some? then [StyleEntry(key, v.value)] else []
  }

  /** The entries for `keys`, in order, skipping the null properties. */
  function Flatten(s: MacroStyle, keys: seq<string>): (d: seq<StyleEntry>)
    ensures forall i :: 0 <= i < |d| ==> d[i].key in keys
  {
    if |keys| == 0 then [] else Entry(keys[0], StyleProperty(s, keys[0])) + Flatten(s, keys[1..])
  }

  /**
   * `MacroStyle.ToDictionary`: one entry per non-null property, in declaration
   * order (a `Dictionary` that is only added to enumerates in insertion order).
   */
  function ToDictionary(s: MacroStyle): (d: seq<StyleEntry>)
    ensures DistinctKeys(d)
    ensures d == [] <==> s == EmptyStyle
  {
    StyleKeysDistinct();
    FlattenDistinct(s, StyleKeys);
    DictionaryEmpty(s);
    Flatten(s, StyleKeys)
  }

  /**
   * The boxed value of a dictionary entry has the type of the property it came
   * from: text only under the two colour keys, a double only under `font_size`.
   */
  predicate TypedAsDeclared(e: StyleEntry) {
    && (e.value.Text? ==> e.key == "line_color" || e.key == "fill_color")
    && (e.value.Real? ==> e.key == "font_size")
  }

  /** Every entry of a style's dictionary is typed as its property is declared. */
  lemma DictionaryTyped(s: MacroStyle)
    ensures forall i :: 0 <= i < |ToDictionary(s)| ==> TypedAsDeclared(ToDictionary(s)[i])
  {
    FlattenTyped(s, StyleKeys);
  }

  lemma {:induction false} FlattenTyped(s: MacroStyle, keys: seq<string>)
    ensures forall i :: 0 <= i < |Flatten(s, keys)| ==> TypedAsDeclared(Flatten(s, keys)[i])
  {
    if |keys| > 0 {
      FlattenTyped(s, keys[1..]);
      var v := StyleProperty(s, keys[0]);
      PropertyTyped(s, keys[0]);
      var head := Entry(keys[0], v);
      assert Flatten(s, keys) == head + Flatten(s, keys[1..]);
    }
  }

  lemma PropertyTyped(s: MacroStyle, key: string)
    ensures StyleProperty(s, key).Some? ==> TypedAsDeclared(StyleEntry(key, StyleProperty(s, key).value))
  {
  }

  /** No style key is listed twice: they differ in length or in their first character. */
  lemma StyleKeysDistinct()
    ensures forall i, j :: 0 <= i < j < |StyleKeys| ==> StyleKeys[i] != StyleKeys[j]
  {
    forall i, j | 0 <= i < j < |StyleKeys|
      ensures StyleKeys[i] != StyleKeys[j]
    {
      assert |StyleKeys[i]| != |StyleKeys[j]| || StyleKeys[i][0] != StyleKeys[j][0];
    }
  }

  /**
   * Each key of the dictionary maps to its property's value, which is there
   * exactly when the property is set; only the seven style keys occur.
   */
  lemma DictionaryLookup(s: MacroStyle, key: string)
    ensures Lookup(ToDictionary(s), key) == StyleProperty(s, key)
    ensures ContainsKey(ToDictionary(s), key) ==> key in StyleKeys
  {
    FlattenLookup(s, StyleKeys, key);
  }

  lemma LookupAppend(a: seq<StyleEntry>, b: seq<StyleEntry>, key: string)
    ensures Lookup(a + b, key) == if Lookup(a, key).Some? then Lookup(a, key) else Lookup(b, key)
  {
    if |a| > 0 {
      assert (a + b)[0] == a[0];
      assert (a + b)[1..] == a[1..] + b;
      LookupAppend(a[1..], b, key);
    } else {
      assert a + b == b;
    }
  }

  lemma DictionaryEmpty(s: MacroStyle)
    ensures Flatten(s, StyleKeys) == [] <==> s == EmptyStyle
  {
    FlattenEmpty(s, StyleKeys);
    if s == EmptyStyle {
      forall i | 0 <= i < |StyleKeys|
        ensures StyleProperty(s, StyleKeys[i]) == None
      {
      }
    } else {
      var i := if s.lineColor.Some? then 0 else if s.fillColor.Some? then 1
        else if s.lineThickness.Some? then 2 else if s.shadow.Some? then 3
        else if s.fontSize.Some? then 4 else if s.blurRadius.Some? then 5 else 6;
      PropertyAtKey(s, i);
      assert StyleProperty(s, StyleKeys[i]).Some?;
    }
  }

  /** The property under the `i`-th style key is the `i`-th field of the style. */
  lemma PropertyAtKey(s: MacroStyle, i: nat)
    requires i < 7
    ensures StyleProperty(s, StyleKeys[i]).Some? <==>
      match i
      case 0 => s.lineColor.Some?
      case 1 => s.fillColor.Some?
      case 2 => s.lineThickness.Some?
      case 3 => s.shadow.Some?
      case 4 => s.fontSize.Some?
      case 5 => s.blurRadius.Some?
      case _ => s.pixelSize.Some?
  {
    var k := StyleKeys[i];
    if i == 1 {
      assert k[0] != "line_color"[0];
    } else if i == 2 {
      assert |k| != 10;
    } else if i == 3 {
      assert |k| !in {10, 14};
    } else if i == 4 {
      assert |k| == 9 && k[0] != 's';
    } else if i == 5 {
      assert |k| == 11 && k[0] != 'f';
    } else if i == 6 {
      assert |k| == 10 && k[0] !in {'l', 'f'} && |k| != 9 && |k| != 11;
    }
  }

  lemma LookupAbsent(d: seq<StyleEntry>, key: string)
    requires forall i :: 0 <= i < |d| ==> d[i].key != key
    ensures Lookup(d, key) == None
  {
  }

  lemma {:induction false} FlattenDistinct(s: MacroStyle, keys: seq<string>)
    requires forall i, j :: 0 <= i < j < |keys| ==> keys[i] != keys[j]
    ensures DistinctKeys(Flatten(s, keys))
  {
    if |keys| > 0 {
      FlattenDistinct(s, keys[1..]);
      var rest := Flatten(s, keys[1..]);
      assert forall i :: 0 <= i < |rest| ==> rest[i].key != keys[0];
    }
  }

  lemma {:induction false} FlattenLookup(s: MacroStyle, keys: seq<string>, key: string)
    requires forall k :: k !in StyleKeys ==> StyleProperty(s, k) == None
    requires key !in keys ==> key !in StyleKeys
    ensures Lookup(Flatten(s, keys), key) == StyleProperty(s, key)
  {
    if |keys| == 0 {
    } else {
      var head := Entry(keys[0], StyleProperty(s, keys[0]));
      var rest := Flatten(s, keys[1..]);
      LookupAppend(head, rest, key);
      if key != keys[0] || key in keys[1..] {
        FlattenLookup(s, keys[1..], key);
      } else {
        LookupAbsent(rest, key);
      }
    }
  }

  lemma {:induction false} FlattenEmpty(s: MacroStyle, keys: seq<string>)
    ensures Flatten(s, keys) == [] <==> forall i :: 0 <= i < |keys| ==> StyleProperty(s, keys[i]) == None
  {
    if |keys| > 0 {
      FlattenEmpty(s, keys[1..]);
      assert forall i :: 1 <= i < |keys| ==> keys[i] == keys[1..][i - 1];
    }
  }
}
