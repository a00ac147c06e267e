/**
 * `MacroEngine.ExecuteCapture`: a new surface from the whole screen, a region
 * or an image file, with auto-crop for the first two.
 */
module CaptureStage {
  import opened Wrappers
  import opened Int32
  import opened Models
  import opened Runtime
  import Text

  function AreaRect(a: MacroArea): Rect {
    Rect(a.x, a.y, a.width, a.height)
  }

  /** The capture mode, lower-cased; `None` for a null `type`. */
  function Mode(step: MacroStep): Option<string> {
    if step.captureType.Some? then Some(Text.ToLower(step.captureType.value)) else None
  }

  /** The auto-crop flag in effect: the step's own, else the configured default. */
  function AutoCropFlag(env: Env, step: MacroStep): bool {
    step.autoCrop.GetOr(env.config.autoCrop)
  }

  /** The auto-crop difference in effect: the step's own, else the configured default. */
  function AutoCropThreshold(env: Env, step: MacroStep): int32 {
    step.autoCropDifference.GetOr(env.config.autoCropDifference)
  }

  /** The acquired image after auto-crop: cropped only when enabled and a non-empty rectangle is found. */
  function AutoCrop(env: Env, step: MacroStep, image: Image): Image {
    if !AutoCropFlag(env, step) then image
    else
      var rect := env.findAutoCrop(image, AutoCropThreshold(env, step));
      if env.isEmpty(rect) then image else env.crop(image, rect)
  }

  /**
   * Screen pixels for `bounds`. Empty bounds are never captured, and a capture
   * with no image fails; otherwise the auto-cropped image becomes a new surface.
   */
  function Acquire(env: Env, e: Engine, step: MacroStep, bounds: Rect): Outcome {
    var image := if env.isEmpty(bounds) then None else env.captureRectangle(bounds);
    match image
    case None => Aborted(e, NoImageAcquired)
    case Some(i) => Completed(e.(surface := Some(Surface(AutoCrop(env, step, i), []))))
  }

  /** The `file` mode: an existing, readable image becomes the surface as it is. */
  function LoadFile(env: Env, e: Engine, path: Option<string>): Outcome {
    if path.None? || |path.value| == 0 || !env.fileExists(path.value) then Aborted(e, CaptureFileNotFound(path))
    else
      match env.loadImage(path.value)
      case None => Aborted(e, ImageUnreadable(path.value))
      case Some(image) => Completed(e.(surface := Some(Surface(image, []))))
  }

  /**
   * A capture either fails and leaves the engine as it was, or replaces the
   * surface with a fresh one holding no elements; it logs nothing.
   */
  function Capture(env: Env, e: Engine, step: MacroStep): (o: Outcome)
    ensures o.Aborted? ==> o.engine == e
    ensures o.Completed? ==> o.engine.log == e.log && o.engine.surface.Some? && o.engine.surface.value.elements == []
  {
    var mode := Mode(step);
    if mode == Some("region") then
      if step.area.None? then Aborted(e, RegionWithoutArea) else Acquire(env, e, step, AreaRect(step.area.value))
    else if mode == Some("fullscreen") then Acquire(env, e, step, env.screenBounds)
    else if mode == Some("file") then LoadFile(env, e, step.path)
    else Aborted(e, UnsupportedCaptureType(step.captureType))
  }

  // ---- properties ----

  /** The capture inputs that throw before any pixel is read. */
  lemma CaptureRejects(env: Env, e: Engine, step: MacroStep)
    ensures Mode(step) == Some("region") && step.area.None? ==> Capture(env, e, step) == Aborted(e, RegionWithoutArea)
    ensures Mode(step) == Some("file") && (step.path.None? || |step.path.value| == 0 || !env.fileExists(step.path.value))
      ==> Capture(env, e, step) == Aborted(e, CaptureFileNotFound(step.path))
    ensures Mode(step) !in {Some("region"), Some("fullscreen"), Some("file")}
      ==> Capture(env, e, step) == Aborted(e, UnsupportedCaptureType(step.captureType))
  {
  }

  /** A capture succeeds exactly when its mode is known, its input is usable, and an image is obtained. */
  lemma CaptureSucceedsIff(env: Env, e: Engine, step: MacroStep)
    ensures Capture(env, e, step).Completed? <==>
      || (Mode(step) == Some("region") && step.area.Some?
          && !env.isEmpty(AreaRect(step.area.value)) && env.captureRectangle(AreaRect(step.area.value)).Some?)
      || (Mode(step) == Some("fullscreen")
          && !env.isEmpty(env.screenBounds) && env.captureRectangle(env.screenBounds).Some?)
      || (Mode(step) == Some("file") && step.path.Some? && |step.path.value| > 0
          && env.fileExists(step.path.value) && env.loadImage(step.path.value).Some?)
  {
  }

  /**
   * A `file` capture returns before auto-crop: its result does not depend on
   * the auto-crop settings, the detector, the cropper or the screen.
   */
  lemma FileModeSkipsAutoCrop(env: Env, env': Env, e: Engine, step: MacroStep)
    requires Mode(step) == Some("file")
    requires env'.fileExists == env.fileExists && env'.loadImage == env.loadImage
    ensures Capture(env, e, step) == Capture(env', e, step)
    ensures Capture(env, e, step).Completed? ==>
      Capture(env, e, step).engine.surface == Some(Surface(env.loadImage(step.path.value).value, []))
  {
  }

  /** A step without `autocrop` behaves as if it carried the configured default flag. */
  lemma MissingAutoCropUsesDefault(env: Env, e: Engine, step: MacroStep)
    requires step.autoCrop.None?
    ensures Capture(env, e, step) == Capture(env, e, step.(autoCrop := Some(env.config.autoCrop)))
  {
    var step' := step.(autoCrop := Some(env.config.autoCrop));
    assert AutoCropFlag(env, step) == AutoCropFlag(env, step');
    assert forall i :: AutoCrop(env, step, i) == AutoCrop(env, step', i);
  }

  /** A step without `autocrop_difference` behaves as if it carried the configured default. */
  lemma MissingThresholdUsesDefault(env: Env, e: Engine, step: MacroStep)
    requires step.autoCropDifference.None?
    ensures Capture(env, e, step) ==
      Capture(env, e, step.(autoCropDifference := Some(env.config.autoCropDifference)))
  {
    var step' := step.(autoCropDifference := Some(env.config.autoCropDifference));
    assert forall i :: AutoCrop(env, step, i) == AutoCrop(env, step', i);
  }

  /** With auto-crop off (by the step, or by the default when the step is silent) the detector is never consulted. */
  lemma AutoCropOffIgnoresDetector(env: Env, e: Engine, step: MacroStep, detect: (Image, int32) -> Rect)
    requires !AutoCropFlag(env, step)
    ensures Capture(env, e, step) == Capture(env.(findAutoCrop := detect), e, step)
  {
    var env' := env.(findAutoCrop := detect);
    assert forall i :: AutoCrop(env, step, i) == AutoCrop(env', step, i);
  }

  /**
   * The surface of a region or full-screen capture holds the acquired image,
   * cropped exactly when auto-crop is on and the detector found a non-empty rectangle.
   */
  lemma AcquiredImageCropped(env: Env, e: Engine, step: MacroStep, bounds: Rect)
    requires || (Mode(step) == Some("fullscreen") && bounds == env.screenBounds)
             || (Mode(step) == Some("region") && step.area.Some? && bounds == AreaRect(step.area.value))
    requires Capture(env, e, step).Completed?
    ensures !env.isEmpty(bounds) && env.captureRectangle(bounds).Some?
    ensures var image := env.captureRectangle(bounds).value;
      var rect := env.findAutoCrop(image, AutoCropThreshold(env, step));
      Capture(env, e, step).engine.surface.value.image ==
        if AutoCropFlag(env, step) && !env.isEmpty(rect) then env.crop(image, rect) else image
  {
  }
}
