/**
 * The engine's run-time values and the collaborators it calls. The one live
 * surface and the log of effects are plain values threaded through the steps;
 * screen capture, auto-crop detection, image files, rendering, the clipboard,
 * the field registry and the clock are fields of `Env`.
 */
module Runtime {
  import opened Wrappers
  import opened Int32
  import opened Models
  import Timestamp

  /** A `NativeRect`: left, top, width, height. */
  datatype Rect = Rect(x: int32, y: int32, width: int32, height: int32)

  /** A pixel buffer; only its identity matters to the engine. */
  datatype Image = Image(handle: nat)

  datatype Color = Argb(a: int, r: int, g: int, b: int)

  /** `Color.Transparent`: alpha 0 over white. */
  const Transparent: Color := Argb(0, 255, 255, 255)

  /** `Color.Red`, the fallback for a colour that cannot be parsed. */
  const Red: Color := Argb(255, 255, 0, 0)

  /** An entry of the field registry (`FieldType.Values`), known by its name. */
  datatype FieldType = FieldType(name: string)

  /** The two prepared filters of an obfuscate container. */
  datatype Preset = Blur | Pixelize

  /** A value handed to `SetFieldValue`, after coercion. */
  datatype FieldValue =
    | ColorValue(color: Color)
    | IntValue(number: int32)
    | BoolValue(flag: bool)
    | Uncoerced(raw: StyleValue)
    | PresetValue(preset: Preset)

  datatype FieldAssignment = FieldAssignment(field: FieldType, value: FieldValue)

  /** The four drawable containers the engine builds. */
  datatype ElementKind = Rectangle | Arrow | TextBox | Obfuscate

  /**
   * What a style writes its fields to: a container of `kind` together with the
   * prepared filter last set on it, `None` while it still has the filter it was
   * created with. An obfuscation's fields are mostly those of its filter child,
   * so which fields it has depends on that filter.
   */
  datatype Holder = Holder(kind: ElementKind, filter: Option<Preset>)

  /**
   * A drawable container as the engine leaves it. A `None` coordinate keeps the
   * constructor's default; `fields` lists the field values set on it, in order.
   */
  datatype Container = Container(
    kind: ElementKind,
    left: Option<int32>,
    top: Option<int32>,
    width: Option<int32>,
    height: Option<int32>,
    text: Option<string>,
    fields: seq<FieldAssignment>)

  /** The editable image: the captured pixels and the containers added to it, in order. */
  datatype Surface = Surface(image: Image, elements: seq<Container>)

  /** What the engine logs as a warning (or a swallowed error) and then carries on. */
  datatype Warning =
    | UnsupportedStep(step: string)
    | UnsupportedElement(elementType: string)
    | UnsupportedDestination(destinationType: string)
    | UnknownStyleProperty(key: string)
    | FieldNotSupported(field: FieldType)
    | SetFieldFailed(field: FieldType)

  /** An effect that outlives the step that caused it. */
  datatype Event =
    | Warned(warning: Warning)
    | DirectoryCreated(directory: string)
    | Saved(path: string, image: Image)
    | CopiedToClipboard(image: Image)

  /** The exception that ends a run, by where it is thrown. */
  datatype Error =
    | NullStep
    | RegionWithoutArea
    | CaptureFileNotFound(missing: Option<string>)
    | UnsupportedCaptureType(captureType: Option<string>)
    | ImageUnreadable(path: string)
    | NoImageAcquired
    | NoSurfaceToAnnotate
    | NullElementType
    | PresetRejected(preset: Preset)
    | CoercionFailed(field: FieldType, value: StyleValue)
    | NoSurfaceToExport
    | NullDestinationType
    | NullDestinationPath
    | InvalidPath(path: string)
    | DirectoryNotCreated(directory: string)
    | SaveFailed(path: string)
    | ClipboardFailed

  /** The process-wide defaults of `CoreConfiguration`. */
  datatype Config = Config(autoCrop: bool, autoCropDifference: int32)

  datatype Env = Env(
    config: Config,
    /** `DisplayInfo.ScreenBounds`. */
    screenBounds: Rect,
    /** `NativeRect.IsEmpty`. */
    isEmpty: Rect -> bool,
    /** The image `WindowCapture.CaptureRectangle` acquires; `None` for no image. */
    captureRectangle: Rect -> Option<Image>,
    /** `File.Exists`. */
    fileExists: string -> bool,
    /** `Image.FromFile` followed by the clone; `None` where it throws. */
    loadImage: string -> Option<Image>,
    /** `ImageHelper.FindAutoCropRectangle`. */
    findAutoCrop: (Image, int32) -> Rect,
    /** `ICapture.Crop`. */
    crop: (Image, Rect) -> Image,
    /** `FieldType.Values`, in registry order. */
    fieldTypes: seq<FieldType>,
    /** `HasField` of a container (including its children, so its current filter). */
    hasField: (Holder, FieldType) -> bool,
    /** Whether `SetFieldValue` returns normally rather than throwing. */
    setField: (Holder, FieldType, FieldValue) -> bool,
    /** `ColorTranslator.FromHtml`; `None` where it throws. */
    fromHtml: string -> Option<Color>,
    /** `Double.ToString()` in the current culture. */
    doubleToString: Double -> string,
    /** `Convert.ToInt32(double)`; `None` where it overflows. */
    doubleToInt32: Double -> Option<int32>,
    /** The width and height `TextContainer.FitToText` gives a text container. */
    fitToText: Container -> (int32, int32),
    /** `Surface.GetImageForExport`. */
    render: Surface -> Image,
    /** `Path.GetDirectoryName`, with a null result as ""; `None` where it throws. */
    directoryName: string -> Option<string>,
    /** `Directory.Exists`. */
    directoryExists: string -> bool,
    /** Whether `Directory.CreateDirectory` succeeds. */
    createDirectory: string -> bool,
    /** Whether `Image.Save` succeeds. */
    save: (string, Image) -> bool,
    /** Whether `Clipboard.SetImage` succeeds. */
    setClipboard: Image -> bool,
    /** `DateTime.Now` while the run exports. */
    now: Timestamp.Instant)

  /** The engine state: the current surface, if any, and every effect so far. */
  datatype Engine = Engine(surface: Option<Surface>, log: seq<Event>)

  /** A new `MacroEngine`: no surface, nothing done. */
  const Idle: Engine := Engine(None, [])

  /**
   * How a step, or a whole run, ends: normally, or with an exception. Both
   * carry the state reached, including what was committed before the throw.
   */
  datatype Outcome = Completed(engine: Engine) | Aborted(engine: Engine, error: Error)

  function Log(e: Engine, w: Warning): Engine {
    e.(log := e.log + [Warned(w)])
  }
}
