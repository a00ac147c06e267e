/**
 * The JSON key mapping of the macro document (`[JsonProperty]` attributes):
 * every property is bound to one fixed key, and a property marked
 * `NullValueHandling.Ignore` is left out of the object when it is null.
 * JSON is modelled as a value tree whose objects are maps from key to value.
 */
module JsonMapping {
  import opened Wrappers
  import opened Int32
  import opened Models

  datatype Json =
    | JNull
    | JBool(b: bool)
    | JInt(i: int)
    | JDouble(d: Double)
    | JString(s: string)
    | JArray(items: seq<Json>)
    | JObject(fields: map<string, Json>)

  const ScriptKeys: set<string> := {"version", "workflow"}
  const StepKeys: set<string> :=
    {"step", "type", "area", "path", "options", "autocrop", "autocrop_difference", "elements", "destinations"}
  const ElementKeys: set<string> :=
    {"type", "bounds", "from", "to", "position", "content", "method", "pixel_size", "style"}
  const DestinationKeys: set<string> := {"type", "path", "overwrite"}

  // ---- writing ----

  /** A property without `NullValueHandling.Ignore`: a null is written as `null`. */
  function StringOrNull(v: Option<string>): Json {
    if v.Some? then JString(v.value) else JNull
  }

  function OptString(v: Option<string>): Option<Json> {
    if v.Some? then Some(JString(v.value)) else None
  }

  function OptInt(v: Option<int32>): Option<Json> {
    if v.Some? then Some(JInt(v.value)) else None
  }

  function OptBool(v: Option<bool>): Option<Json> {
    if v.Some? then Some(JBool(v.value)) else None
  }

  function AreaToJson(a: MacroArea): (j: Json)
    ensures j.JObject? && j.fields.Keys == {"x", "y", "width", "height"}
  {
    JObject(map["x" := JInt(a.x), "y" := JInt(a.y), "width" := JInt(a.width), "height" := JInt(a.height)])
  }

  function OptionsToJson(o: MacroOptions): (j: Json)
    ensures j.JObject? && j.fields.Keys == {"show_cursor", "delay_ms"}
  {
    JObject(map["show_cursor" := JBool(o.showCursor), "delay_ms" := JInt(o.delayMs)])
  }

  function PointToJson(p: MacroPoint): (j: Json)
    ensures j.JObject? && j.fields.Keys == {"x", "y"}
  {
    JObject(map["x" := JInt(p.x), "y" := JInt(p.y)])
  }

  function BoundsToJson(b: MacroBounds): (j: Json)
    ensures j.JObject? && j.fields.Keys == {"x", "y", "w", "h"}
  {
    JObject(map["x" := JInt(b.x), "y" := JInt(b.y), "w" := JInt(b.w), "h" := JInt(b.h)])
  }

  function ValueToJson(v: StyleValue): Json {
    match v
    case Text(s) => JString(s)
    case Integer(n) => JInt(n)
    case Boolean(b) => JBool(b)
    case Real(d) => JDouble(d)
  }

  function StyleToJson(s: MacroStyle): Json {
    JObject(map k | k in StyleKeys && StyleProperty(s, k).Some? :: ValueToJson(StyleProperty(s, k).value))
  }

  /** The JSON value an element property is written as under `key`; `None` when it is left out. */
  function ElementProperty(e: MacroElement, key: string): Option<Json> {
    if key == "type" then Some(StringOrNull(e.kind))
    else if key == "bounds" then (if e.bounds.Some? then Some(BoundsToJson(e.bounds.value)) else None)
    else if key == "from" then (if e.from.Some? then Some(PointToJson(e.from.value)) else None)
    else if key == "to" then (if e.to.Some? then Some(PointToJson(e.to.value)) else None)
    else if key == "position" then (if e.position.Some? then Some(PointToJson(e.position.value)) else None)
    else if key == "content" then OptString(e.content)
    else if key == "method" then OptString(e.obfuscateMethod)
    else if key == "pixel_size" then OptInt(e.pixelSize)
    else if key == "style" then (if e.style.Some? then Some(StyleToJson(e.style.value)) else None)
    else None
  }

  function ElementToJson(e: MacroElement): (j: Json)
    ensures j.JObject? && "type" in j.fields && j.fields.Keys <= ElementKeys
    ensures "bounds" in j.fields <==> e.bounds.Some?
    ensures "from" in j.fields <==> e.from.Some?
    ensures "to" in j.fields <==> e.to.Some?
    ensures "position" in j.fields <==> e.position.Some?
    ensures "content" in j.fields <==> e.content.Some?
    ensures "method" in j.fields <==> e.obfuscateMethod.Some?
    ensures "pixel_size" in j.fields <==> e.pixelSize.Some?
    ensures "style" in j.fields <==> e.style.Some?
  {
    JObject(map k | k in ElementKeys && ElementProperty(e, k).Some? :: ElementProperty(e, k).value)
  }

  function DestinationProperty(d: MacroDestination, key: string): Option<Json> {
    if key == "type" then Some(StringOrNull(d.kind))
    else if key == "path" then OptString(d.path)
    else if key == "overwrite" then OptBool(d.overwrite)
    else None
  }

  function DestinationToJson(d: MacroDestination): (j: Json)
    ensures j.JObject? && "type" in j.fields && j.fields.Keys <= DestinationKeys
    ensures "path" in j.fields <==> d.path.Some?
    ensures "overwrite" in j.fields <==> d.overwrite.Some?
  {
    JObject(map k | k in DestinationKeys && DestinationProperty(d, k).Some? :: DestinationProperty(d, k).value)
  }

  function EncodeAll<T>(xs: seq<T>, enc: T -> Json): (items: seq<Json>)
    ensures |items| == |xs|
    ensures forall i :: 0 <= i < |xs| ==> items[i] == enc(xs[i])
  {
    seq(|xs|, i requires 0 <= i < |xs| => enc(xs[i]))
  }

  function StepProperty(s: MacroStep, key: string): Option<Json> {
    if key == "step" then Some(StringOrNull(s.step))
    else if key == "type" then OptString(s.captureType)
    else if key == "area" then (if s.area.Some? then Some(AreaToJson(s.area.value)) else None)
    else if key == "path" then OptString(s.path)
    else if key == "options" then (if s.options.Some? then Some(OptionsToJson(s.options.value)) else None)
    else if key == "autocrop" then OptBool(s.autoCrop)
    else if key == "autocrop_difference" then OptInt(s.autoCropDifference)
    else if key == "elements" then
      (if s.elements.Some? then Some(JArray(EncodeAll(s.elements.value, ElementToJson))) else None)
    else if key == "destinations" then
      (if s.destinations.Some? then Some(JArray(EncodeAll(s.destinations.value, DestinationToJson))) else None)
    else None
  }

  function StepToJson(s: MacroStep): (j: Json)
    ensures j.JObject? && "step" in j.fields && j.fields.Keys <= StepKeys
    ensures "type" in j.fields <==> s.captureType.Some?
    ensures "area" in j.fields <==> s.area.Some?
    ensures "path" in j.fields <==> s.path.Some?
    ensures "options" in j.fields <==> s.options.Some?
    ensures "autocrop" in j.fields <==> s.autoCrop.Some?
    ensures "autocrop_difference" in j.fields <==> s.autoCropDifference.Some?
    ensures "elements" in j.fields <==> s.elements.Some?
    ensures "destinations" in j.fields <==> s.destinations.Some?
  {
    JObject(map k | k in StepKeys && StepProperty(s, k).Some? :: StepProperty(s, k).value)
  }

  /** Both script properties are written even when null. */
  function ScriptToJson(s: MacroScript): (j: Json)
    ensures j.JObject? && j.fields.Keys == ScriptKeys
  {
    JObject(map[
      "version" := StringOrNull(s.version),
      "workflow" := if s.workflow.Some? then JArray(EncodeAll(s.workflow.value, StepToJson)) else JNull])
  }

  // ---- reading ----
  // `None` is a failed read (Newtonsoft throws); a missing key reads as `null`,
  // and keys outside the schema are ignored.

  function Get(o: map<string, Json>, key: string): Json {
    if key in o then o[key] else JNull
  }

  function ReadString(j: Json): Option<Option<string>> {
    match j
    case JNull => Some(None)
    case JString(s) => Some(Some(s))
    case _ => None
  }

  function ReadInt(j: Json): Option<int32> {
    if j.JInt? && Min <= j.i <= Max then Some(j.i) else None
  }

  function ReadNullableInt(j: Json): Option<Option<int32>> {
    if j.JNull? then Some(None) else var n :- ReadInt(j); Some(Some(n))
  }

  function ReadNullableBool(j: Json): Option<Option<bool>> {
    match j
    case JNull => Some(None)
    case JBool(b) => Some(Some(b))
    case _ => None
  }

  function ReadNullableDouble(j: Json): Option<Option<Double>> {
    match j
    case JNull => Some(None)
    case JDouble(d) => Some(Some(d))
    case _ => None
  }

  /** A non-nullable `int` property: a missing key keeps the default 0; `null` cannot be read. */
  function RequiredInt(o: map<string, Json>, key: string): Option<int32> {
    if key in o then ReadInt(o[key]) else Some(0)
  }

  /** A non-nullable `bool` property: a missing key keeps the default `false`. */
  function RequiredBool(o: map<string, Json>, key: string): Option<bool> {
    if key !in o then Some(false) else if o[key].JBool? then Some(o[key].b) else None
  }

  /** A nested object property: `null` (or a missing key) reads as a null reference. */
  function ReadObject<T>(j: Json, read: map<string, Json> -> Option<T>): Option<Option<T>> {
    match j
    case JNull => Some(None)
    case JObject(o) => var v :- read(o); Some(Some(v))
    case _ => None
  }

  function ReadList<T>(j: Json, read: Json -> Option<T>): Option<Option<seq<T>>> {
    match j
    case JNull => Some(None)
    case JArray(items) => var xs :- DecodeAll(items, read); Some(Some(xs))
    case _ => None
  }

  function DecodeAll<T>(items: seq<Json>, read: Json -> Option<T>): (r: Option<seq<T>>)
    ensures r.Some? ==> |r.value| == |items|
  {
    if |items| == 0 then Some([])
    else
      var head :- read(items[0]);
      var tail :- DecodeAll(items[1..], read);
      Some([head] + tail)
  }

  function AreaFromMap(o: map<string, Json>): Option<MacroArea> {
    var x :- RequiredInt(o, "x");
    var y :- RequiredInt(o, "y");
    var w :- RequiredInt(o, "width");
    var h :- RequiredInt(o, "height");
    Some(MacroArea(x, y, w, h))
  }

  function OptionsFromMap(o: map<string, Json>): Option<MacroOptions> {
    var show :- RequiredBool(o, "show_cursor");
    var delay :- RequiredInt(o, "delay_ms");
    Some(MacroOptions(show, delay))
  }

  function PointFromMap(o: map<string, Json>): Option<MacroPoint> {
    var x :- RequiredInt(o, "x");
    var y :- RequiredInt(o, "y");
    Some(MacroPoint(x, y))
  }

  function BoundsFromMap(o: map<string, Json>): Option<MacroBounds> {
    var x :- RequiredInt(o, "x");
    var y :- RequiredInt(o, "y");
    var w :- RequiredInt(o, "w");
    var h :- RequiredInt(o, "h");
    Some(MacroBounds(x, y, w, h))
  }

  function StyleFromMap(o: map<string, Json>): Option<MacroStyle> {
    var lineColor :- ReadString(Get(o, "line_color"));
    var fillColor :- ReadString(Get(o, "fill_color"));
    var thickness :- ReadNullableInt(Get(o, "line_thickness"));
    var shadow :- ReadNullableBool(Get(o, "shadow"));
    var fontSize :- ReadNullableDouble(Get(o, "font_size"));
    var blur :- ReadNullableInt(Get(o, "blur_radius"));
    var pixel :- ReadNullableInt(Get(o, "pixel_size"));
    Some(MacroStyle(lineColor, fillColor, thickness, shadow, fontSize, blur, pixel))
  }

  function ElementFromJson(j: Json): Option<MacroElement> {
    if !j.JObject? then None
    else
      var o := j.fields;
      var kind :- ReadString(Get(o, "type"));
      var bounds :- ReadObject(Get(o, "bounds"), BoundsFromMap);
      var from :- ReadObject(Get(o, "from"), PointFromMap);
      var to :- ReadObject(Get(o, "to"), PointFromMap);
      var position :- ReadObject(Get(o, "position"), PointFromMap);
      var content :- ReadString(Get(o, "content"));
      var obfuscateMethod :- ReadString(Get(o, "method"));
      var pixel :- ReadNullableInt(Get(o, "pixel_size"));
      var style :- ReadObject(Get(o, "style"), StyleFromMap);
      Some(MacroElement(kind, bounds, from, to, position, content, obfuscateMethod, pixel, style))
  }

  function DestinationFromJson(j: Json): Option<MacroDestination> {
    if !j.JObject? then None
    else
      var o := j.fields;
      var kind :- ReadString(Get(o, "type"));
      var path :- ReadString(Get(o, "path"));
      var overwrite :- ReadNullableBool(Get(o, "overwrite"));
      Some(MacroDestination(kind, path, overwrite))
  }

  function StepFromJson(j: Json): Option<MacroStep> {
    if !j.JObject? then None
    else
      var o := j.fields;
      var step :- ReadString(Get(o, "step"));
      var captureType :- ReadString(Get(o, "type"));
      var area :- ReadObject(Get(o, "area"), AreaFromMap);
      var path :- ReadString(Get(o, "path"));
      var options :- ReadObject(Get(o, "options"), OptionsFromMap);
      var autoCrop :- ReadNullableBool(Get(o, "autocrop"));
      var difference :- ReadNullableInt(Get(o, "autocrop_difference"));
      var elements :- ReadList(Get(o, "elements"), ElementFromJson);
      var destinations :- ReadList(Get(o, "destinations"), DestinationFromJson);
      Some(MacroStep(step, captureType, area, path, options, autoCrop, difference, elements, destinations))
  }

  /**
   * `JsonConvert.DeserializeObject<MacroScript>`: `Some(None)` for a JSON
   * `null` document (the engine then reports that nothing could be read).
   */
  function ScriptFromJson(j: Json): Option<Option<MacroScript>> {
    match j
    case JNull => Some(None)
    case JObject(o) =>
      var version :- ReadString(Get(o, "version"));
      var workflow :- ReadList(Get(o, "workflow"), StepFromJson);
      Some(Some(MacroScript(version, workflow)))
    case _ => None
  }

  // ---- round trips ----

  lemma AreaRoundTrip(a: MacroArea)
    ensures ReadObject(AreaToJson(a), AreaFromMap) == Some(Some(a))
  {
  }

  lemma OptionsRoundTrip(o: MacroOptions)
    ensures ReadObject(OptionsToJson(o), OptionsFromMap) == Some(Some(o))
  {
  }

  lemma PointRoundTrip(p: MacroPoint)
    ensures ReadObject(PointToJson(p), PointFromMap) == Some(Some(p))
  {
  }

  lemma BoundsRoundTrip(b: MacroBounds)
    ensures ReadObject(BoundsToJson(b), BoundsFromMap) == Some(Some(b))
  {
  }

  /** The style object carries exactly the dictionary's keys, each with the dictionary's value. */
  lemma StyleJsonMatchesDictionary(s: MacroStyle, key: string)
    ensures key in StyleToJson(s).fields <==> ContainsKey(ToDictionary(s), key)
    ensures key in StyleToJson(s).fields ==>
      StyleToJson(s).fields[key] == ValueToJson(Lookup(ToDictionary(s), key).value)
  {
    DictionaryLookup(s, key);
    if key !in StyleKeys {
      assert StyleProperty(s, key) == None;
    }
  }

  lemma StyleGet(s: MacroStyle, key: string)
    ensures Get(StyleToJson(s).fields, key) ==
      if StyleProperty(s, key).Some? then ValueToJson(StyleProperty(s, key).value) else JNull
  {
    if key !in StyleKeys {
      assert StyleProperty(s, key) == None;
    }
  }

  lemma StyleFromMapReads(o: map<string, Json>, s: MacroStyle)
    requires ReadString(Get(o, "line_color")) == Some(s.lineColor)
    requires ReadString(Get(o, "fill_color")) == Some(s.fillColor)
    requires ReadNullableInt(Get(o, "line_thickness")) == Some(s.lineThickness)
    requires ReadNullableBool(Get(o, "shadow")) == Some(s.shadow)
    requires ReadNullableDouble(Get(o, "font_size")) == Some(s.fontSize)
    requires ReadNullableInt(Get(o, "blur_radius")) == Some(s.blurRadius)
    requires ReadNullableInt(Get(o, "pixel_size")) == Some(s.pixelSize)
    ensures StyleFromMap(o) == Some(s)
  {
  }

  lemma ReadObjectOf<T>(o: map<string, Json>, read: map<string, Json> -> Option<T>)
    ensures ReadObject(JObject(o), read) == if read(o).Some? then Some(Some(read(o).value)) else None
  {
  }

  lemma StyleRoundTrip(s: MacroStyle)
    ensures ReadObject(StyleToJson(s), StyleFromMap) == Some(Some(s))
  {
    StyleMapRoundTrip(s);
    ReadObjectOf(StyleToJson(s).fields, StyleFromMap);
  }

  lemma StyleMapRoundTrip(s: MacroStyle)
    ensures StyleFromMap(StyleToJson(s).fields) == Some(s)
  {
    var o := StyleToJson(s).fields;
    StyleReadsColors(s);
    StyleReadsNumbers(s);
    StyleFromMapReads(o, s);
  }

  lemma StyleReadsColors(s: MacroStyle)
    ensures ReadString(Get(StyleToJson(s).fields, "line_color")) == Some(s.lineColor)
    ensures ReadString(Get(StyleToJson(s).fields, "fill_color")) == Some(s.fillColor)
    ensures ReadNullableBool(Get(StyleToJson(s).fields, "shadow")) == Some(s.shadow)
    ensures ReadNullableDouble(Get(StyleToJson(s).fields, "font_size")) == Some(s.fontSize)
  {
    StyleGet(s, "line_color");
    StyleGet(s, "fill_color");
    StyleGet(s, "shadow");
    StyleGet(s, "font_size");
  }

  lemma StyleReadsNumbers(s: MacroStyle)
    ensures ReadNullableInt(Get(StyleToJson(s).fields, "line_thickness")) == Some(s.lineThickness)
    ensures ReadNullableInt(Get(StyleToJson(s).fields, "blur_radius")) == Some(s.blurRadius)
    ensures ReadNullableInt(Get(StyleToJson(s).fields, "pixel_size")) == Some(s.pixelSize)
  {
    StyleGet(s, "line_thickness");
    StyleGet(s, "blur_radius");
    StyleGet(s, "pixel_size");
  }

  /** Reading back a list written item by item gives the list, when each item round-trips. */
  lemma {:induction false} DecodeEncodeAll<T>(xs: seq<T>, enc: T -> Json, read: Json -> Option<T>)
    requires forall i :: 0 <= i < |xs| ==> read(enc(xs[i])) == Some(xs[i])
    ensures DecodeAll(EncodeAll(xs, enc), read) == Some(xs)
  {
    if |xs| > 0 {
      var items := EncodeAll(xs, enc);
      assert items[1..] == EncodeAll(xs[1..], enc);
      DecodeEncodeAll(xs[1..], enc, read);
      assert [xs[0]] + xs[1..] == xs;
    }
  }

  lemma ElementGet(e: MacroElement, key: string)
    ensures Get(ElementToJson(e).fields, key) ==
      if key in ElementKeys && ElementProperty(e, key).Some? then ElementProperty(e, key).value else JNull
  {
  }

  lemma ElementReadsPlacement(e: MacroElement)
    ensures ReadObject(Get(ElementToJson(e).fields, "bounds"), BoundsFromMap) == Some(e.bounds)
    ensures ReadObject(Get(ElementToJson(e).fields, "from"), PointFromMap) == Some(e.from)
    ensures ReadObject(Get(ElementToJson(e).fields, "to"), PointFromMap) == Some(e.to)
    ensures ReadObject(Get(ElementToJson(e).fields, "position"), PointFromMap) == Some(e.position)
  {
    ElementGet(e, "bounds");
    ElementGet(e, "from");
    ElementGet(e, "to");
    ElementGet(e, "position");
    if e.bounds.Some? {
      BoundsRoundTrip(e.bounds.value);
    }
    if e.from.Some? {
      PointRoundTrip(e.from.value);
    }
    if e.to.Some? {
      PointRoundTrip(e.to.value);
    }
    if e.position.Some? {
      PointRoundTrip(e.position.value);
    }
  }

  lemma ElementReadsContent(e: MacroElement)
    ensures ReadString(Get(ElementToJson(e).fields, "type")) == Some(e.kind)
    ensures ReadString(Get(ElementToJson(e).fields, "content")) == Some(e.content)
    ensures ReadString(Get(ElementToJson(e).fields, "method")) == Some(e.obfuscateMethod)
    ensures ReadNullableInt(Get(ElementToJson(e).fields, "pixel_size")) == Some(e.pixelSize)
    ensures ReadObject(Get(ElementToJson(e).fields, "style"), StyleFromMap) == Some(e.style)
  {
    ElementGet(e, "type");
    ElementGet(e, "content");
    ElementGet(e, "method");
    ElementGet(e, "pixel_size");
    ElementGet(e, "style");
    if e.style.Some? {
      StyleRoundTrip(e.style.value);
    }
  }

  /** Each element property lands under its own key, so reading the written element gives it back. */
  lemma ElementRoundTrip(e: MacroElement)
    ensures ElementFromJson(ElementToJson(e)) == Some(e)
  {
    ElementReadsPlacement(e);
    ElementReadsContent(e);
  }

  lemma DestinationRoundTrip(d: MacroDestination)
    ensures DestinationFromJson(DestinationToJson(d)) == Some(d)
  {
    var o := DestinationToJson(d).fields;
    assert Get(o, "type") == StringOrNull(d.kind);
    assert Get(o, "path") == StringOrNull(d.path);
    assert Get(o, "overwrite") == (if d.overwrite.Some? then JBool(d.overwrite.value) else JNull);
  }

  lemma StepGet(s: MacroStep, key: string)
    ensures Get(StepToJson(s).fields, key) ==
      if key in StepKeys && StepProperty(s, key).Some? then StepProperty(s, key).value else JNull
  {
  }

  lemma StepListsRoundTrip(s: MacroStep)
    ensures ReadList(Get(StepToJson(s).fields, "elements"), ElementFromJson) == Some(s.elements)
    ensures ReadList(Get(StepToJson(s).fields, "destinations"), DestinationFromJson) == Some(s.destinations)
  {
    StepGet(s, "elements");
    StepGet(s, "destinations");
    if s.elements.Some? {
      var es := s.elements.value;
      forall i | 0 <= i < |es|
        ensures ElementFromJson(ElementToJson(es[i])) == Some(es[i])
      {
        ElementRoundTrip(es[i]);
      }
      DecodeEncodeAll(es, ElementToJson, ElementFromJson);
    }
    if s.destinations.Some? {
      var ds := s.destinations.value;
      forall i | 0 <= i < |ds|
        ensures DestinationFromJson(DestinationToJson(ds[i])) == Some(ds[i])
      {
        DestinationRoundTrip(ds[i]);
      }
      DecodeEncodeAll(ds, DestinationToJson, DestinationFromJson);
    }
  }

  lemma StepReadsCapture(s: MacroStep)
    ensures ReadString(Get(StepToJson(s).fields, "step")) == Some(s.step)
    ensures ReadString(Get(StepToJson(s).fields, "type")) == Some(s.captureType)
    ensures ReadString(Get(StepToJson(s).fields, "path")) == Some(s.path)
    ensures ReadNullableBool(Get(StepToJson(s).fields, "autocrop")) == Some(s.autoCrop)
    ensures ReadNullableInt(Get(StepToJson(s).fields, "autocrop_difference")) == Some(s.autoCropDifference)
  {
    StepGet(s, "step");
    StepGet(s, "type");
    StepGet(s, "path");
    StepGet(s, "autocrop");
    StepGet(s, "autocrop_difference");
  }

  lemma StepReadsObjects(s: MacroStep)
    ensures ReadObject(Get(StepToJson(s).fields, "area"), AreaFromMap) == Some(s.area)
    ensures ReadObject(Get(StepToJson(s).fields, "options"), OptionsFromMap) == Some(s.options)
  {
    StepGet(s, "area");
    StepGet(s, "options");
    if s.area.Some? {
      AreaRoundTrip(s.area.value);
    }
    if s.options.Some? {
      OptionsRoundTrip(s.options.value);
    }
  }

  lemma StepRoundTrip(s: MacroStep)
    ensures StepFromJson(StepToJson(s)) == Some(s)
  {
    StepReadsCapture(s);
    StepReadsObjects(s);
    StepListsRoundTrip(s);
  }

  /** A written script reads back as the same script. */
  lemma ScriptRoundTrip(s: MacroScript)
    ensures ScriptFromJson(ScriptToJson(s)) == Some(Some(s))
  {
    if s.workflow.Some? {
      var steps := s.workflow.value;
      forall i | 0 <= i < |steps|
        ensures StepFromJson(StepToJson(steps[i])) == Some(steps[i])
      {
        StepRoundTrip(steps[i]);
      }
      DecodeEncodeAll(steps, StepToJson, StepFromJson);
    }
  }

  /** Writing, reading and writing again gives the first text. */
  lemma ScriptWriteIsStable(s: MacroScript)
    ensures ScriptFromJson(ScriptToJson(s)).Some? && ScriptFromJson(ScriptToJson(s)).value.Some?
    ensures ScriptToJson(ScriptFromJson(ScriptToJson(s)).value.value) == ScriptToJson(s)
  {
    ScriptRoundTrip(s);
  }
}
