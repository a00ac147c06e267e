/**
 * `MacroEngine.Execute` and `MacroEngine.Run`: the workflow's steps run in
 * order against one engine; the first exception ends the run and keeps
 * everything already done.
 */
module MacroEngine {
  import opened Wrappers
  import opened Models
  import opened Runtime
  import JsonMapping
  import Text
  import CaptureStage
  import AnnotateStage
  import ExportStage

  /** A step whose `step` is `capture`, in any ASCII case. */
  predicate IsCapture(step: MacroStep) {
    step.step.Some? && Text.ToLower(step.step.value) == "capture"
  }

  /**
   * One step: dispatched on its lower-cased `step`; a null name throws and an
   * unknown one is logged and skipped. Effects are never taken back.
   */
  function RunStep(env: Env, e: Engine, step: MacroStep): (o: Outcome)
    ensures e.log <= o.engine.log
    ensures step.step.None? ==> o == Aborted(e, NullStep)
    ensures !IsCapture(step) && o.engine.surface.Some? ==> e.surface.Some?
    ensures !IsCapture(step) && e.surface.Some? ==> o.engine.surface.Some? && o.engine.surface.value.image == e.surface.value.image
  {
    if step.step.None? then Aborted(e, NullStep)
    else
      var kind := Text.ToLower(step.step.value);
      if kind == "capture" then CaptureStage.Capture(env, e, step)
      else if kind == "annotate" then AnnotateStage.Annotate(env, e, step)
      else if kind == "export" then ExportStage.Export(env, e, step)
      else Completed(Log(e, UnsupportedStep(step.step.value)))
  }

  /** The `foreach` of `Execute`: a step that throws ends the loop (`break`). */
  function RunSteps(env: Env, e: Engine, steps: seq<MacroStep>): (o: Outcome)
    ensures e.log <= o.engine.log
    decreases |steps|
  {
    if |steps| == 0 then Completed(e)
    else
      match RunStep(env, e, steps[0])
      case Aborted(e', err) => Aborted(e', err)
      case Completed(e') => RunSteps(env, e', steps[1..])
  }

  /** A whole script on a new engine; a null workflow does nothing. */
  function Run(env: Env, script: MacroScript): Outcome {
    if script.workflow.None? then Completed(Idle) else RunSteps(env, Idle, script.workflow.value)
  }

  /** `Execute` as a loop over the workflow; it agrees with `Run`. */
  method Execute(env: Env, script: MacroScript) returns (o: Outcome)
    ensures o == Run(env, script)
    ensures script.workflow.None? ==> o == Completed(Idle)
  {
    if script.workflow.None? {
      return Completed(Idle);
    }
    var steps := script.workflow.value;
    var e := Idle;
    var i := 0;
    while i < |steps|
      invariant 0 <= i <= |steps|
      invariant RunSteps(env, Idle, steps) == RunSteps(env, e, steps[i..])
    {
      var r := RunStep(env, e, steps[i]);
      assert steps[i..][1..] == steps[i + 1..];
      if r.Aborted? {
        return r;
      }
      e := r.engine;
      i := i + 1;
    }
    return Completed(e);
  }

  /** How `MacroEngine.Run(scriptPath)` ends: it logs and returns in every case. */
  datatype Report =
    | ScriptMissing
    | NotAScript
    | Ran(outcome: Outcome)

  /**
   * `Run(scriptPath)` given whether the file exists and the JSON it holds. A
   * missing file, a document that does not map to a script and a `null`
   * document are reported without running anything.
   */
  function RunDocument(env: Env, fileExists: bool, doc: JsonMapping.Json): (r: Report)
    ensures !fileExists ==> r == ScriptMissing
    ensures r.Ran? <==> fileExists && JsonMapping.ScriptFromJson(doc).Some? && JsonMapping.ScriptFromJson(doc).value.Some?
    ensures doc == JsonMapping.JNull ==> !r.Ran?
    ensures r.Ran? ==> r.outcome == Run(env, JsonMapping.ScriptFromJson(doc).value.value)
  {
    if !fileExists then ScriptMissing
    else
      match JsonMapping.ScriptFromJson(doc)
      case None => NotAScript
      case Some(None) => NotAScript
      case Some(Some(script)) => Ran(Run(env, script))
  }

  // ---- properties ----

  /** A saved script runs, when read back, exactly as the script itself. */
  lemma RunSavedScript(env: Env, script: MacroScript)
    ensures RunDocument(env, true, JsonMapping.ScriptToJson(script)) == Ran(Run(env, script))
  {
    JsonMapping.ScriptRoundTrip(script);
  }

  /** Running `xs + ys` is running `xs` and then, unless a step threw, `ys` from where it stopped. */
  lemma {:induction false} RunStepsAppend(env: Env, e: Engine, xs: seq<MacroStep>, ys: seq<MacroStep>)
    ensures var first := RunSteps(env, e, xs);
      RunSteps(env, e, xs + ys) == if first.Aborted? then first else RunSteps(env, first.engine, ys)
    decreases |xs|
  {
    if |xs| == 0 {
      assert xs + ys == ys;
    } else {
      assert (xs + ys)[0] == xs[0];
      assert (xs + ys)[1..] == xs[1..] + ys;
      var r := RunStep(env, e, xs[0]);
      if r.Completed? {
        RunStepsAppend(env, r.engine, xs[1..], ys);
      }
    }
  }

  /**
   * The first step that throws ends the run: its exception and the state it
   * left are the run's, and no later step is looked at.
   */
  lemma FirstFailureEndsRun(env: Env, e: Engine, steps: seq<MacroStep>, i: nat)
    requires i < |steps|
    requires RunSteps(env, e, steps[..i]).Completed?
    requires RunStep(env, RunSteps(env, e, steps[..i]).engine, steps[i]).Aborted?
    ensures RunSteps(env, e, steps) == RunStep(env, RunSteps(env, e, steps[..i]).engine, steps[i])
  {
    var mid := RunSteps(env, e, steps[..i]).engine;
    assert steps == steps[..i] + steps[i..];
    RunStepsAppend(env, e, steps[..i], steps[i..]);
    assert steps[i..][0] == steps[i];
  }

  /** A step with an unknown name adds a warning; the next step runs as if it were not there. */
  lemma UnknownStepSkipped(env: Env, e: Engine, step: MacroStep, rest: seq<MacroStep>)
    requires step.step.Some? && Text.ToLower(step.step.value) !in {"capture", "annotate", "export"}
    ensures RunSteps(env, e, [step] + rest) == RunSteps(env, Log(e, UnsupportedStep(step.step.value)), rest)
  {
    assert ([step] + rest)[1..] == rest;
  }

  /** Without a capture step, an engine that has no surface never gets one. */
  lemma {:induction false} WithoutCaptureNoSurface(env: Env, e: Engine, steps: seq<MacroStep>)
    requires e.surface.None?
    requires forall i :: 0 <= i < |steps| ==> !IsCapture(steps[i])
    ensures RunSteps(env, e, steps).engine.surface.None?
    decreases |steps|
  {
    if |steps| > 0 {
      var r := RunStep(env, e, steps[0]);
      if r.Completed? {
        WithoutCaptureNoSurface(env, r.engine, steps[1..]);
      }
    }
  }

  /**
   * In a script, an annotate or export step reached before any capture step
   * throws for want of a surface.
   */
  lemma StageBeforeCaptureFails(env: Env, steps: seq<MacroStep>, i: nat)
    requires i < |steps| && steps[i].step.Some?
    requires forall j :: 0 <= j < i ==> !IsCapture(steps[j])
    requires RunSteps(env, Idle, steps[..i]).Completed?
    ensures Text.ToLower(steps[i].step.value) == "annotate" ==>
      RunSteps(env, Idle, steps) == Aborted(RunSteps(env, Idle, steps[..i]).engine, NoSurfaceToAnnotate)
    ensures Text.ToLower(steps[i].step.value) == "export" ==>
      RunSteps(env, Idle, steps) == Aborted(RunSteps(env, Idle, steps[..i]).engine, NoSurfaceToExport)
  {
    WithoutCaptureNoSurface(env, Idle, steps[..i]);
    var kind := Text.ToLower(steps[i].step.value);
    if kind == "annotate" || kind == "export" {
      FirstFailureEndsRun(env, Idle, steps, i);
    }
  }

  /** The step name is matched without regard to ASCII case. */
  lemma StepNameIgnoresCase(env: Env, e: Engine, step: MacroStep, name: string)
    requires step.step.Some? && Text.ToLower(name) == Text.ToLower(step.step.value)
    requires Text.ToLower(name) in {"capture", "annotate", "export"}
    ensures RunStep(env, e, step.(step := Some(name))) == RunStep(env, e, step)
  {
  }
}
