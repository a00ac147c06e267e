/**
 * `MacroEngine.ExecuteExport`: the rendered surface goes to each destination
 * in turn, a file (with `{timestamp}` expanded) or the clipboard.
 */
module ExportStage {
  import opened Wrappers
  import opened Models
  import opened Runtime
  import Text
  import Timestamp
  import Decimal

  /** The destination path with every `{timestamp}` replaced by the run's stamp. */
  function ExpandPath(env: Env, path: string): string {
    Text.ReplaceAll(path, Timestamp.Placeholder, Timestamp.Format(env.now))
  }

  /** What one file export committed, and the exception it ended with, if any. */
  datatype Written = Written(events: seq<Event>, failure: Option<Error>)

  /** Whether the export must create the destination's directory first. */
  predicate NeedsDirectory(env: Env, dir: string) {
    |dir| > 0 && !env.directoryExists(dir)
  }

  /**
   * The `file` destination. A null path throws; an invalid one throws before
   * anything is created; a missing, non-empty directory is created; then the
   * rendered image is saved to the expanded path.
   */
  function SaveToFile(env: Env, s: Surface, path: Option<string>): (w: Written)
    ensures path.None? ==> w == Written([], Some(NullDestinationPath))
    ensures w.failure.None? ==>
      (path.Some? && |w.events| > 0 && w.events[|w.events| - 1] == Saved(ExpandPath(env, path.value), env.render(s)))
    ensures forall i :: 0 <= i < |w.events| ==>
      (w.events[i].DirectoryCreated? || (path.Some? && w.events[i] == Saved(ExpandPath(env, path.value), env.render(s))))
  {
    if path.None? then Written([], Some(NullDestinationPath))
    else
      var p := ExpandPath(env, path.value);
      match env.directoryName(p)
      case None => Written([], Some(InvalidPath(p)))
      case Some(dir) =>
        if NeedsDirectory(env, dir) && !env.createDirectory(dir) then Written([], Some(DirectoryNotCreated(dir)))
        else
          var created := if NeedsDirectory(env, dir) then [DirectoryCreated(dir)] else [];
          var image := env.render(s);
          if env.save(p, image) then Written(created + [Saved(p, image)], None)
          else Written(created, Some(SaveFailed(p)))
  }

  /**
   * Once the expanded path's directory is known, the export records creating
   * it exactly when it is non-empty, did not exist and could be created, and
   * ends with the failure to create it exactly when it is non-empty, did not
   * exist and could not be created.
   */
  lemma DirectoryCreatedIff(env: Env, s: Surface, path: string, dir: string)
    requires env.directoryName(ExpandPath(env, path)) == Some(dir)
    ensures var w := SaveToFile(env, s, Some(path));
      && (DirectoryCreated(dir) in w.events <==> NeedsDirectory(env, dir) && env.createDirectory(dir))
      && (w.failure == Some(DirectoryNotCreated(dir)) <==> NeedsDirectory(env, dir) && !env.createDirectory(dir))
  {
  }

  /**
   * The `foreach` over the destinations, exporting surface `s` with effects
   * `log`. A null `type` throws; an unknown one is logged and skipped; a throw
   * keeps every export already made.
   */
  function Deliver(env: Env, s: Surface, log: seq<Event>, dests: seq<MacroDestination>): (o: Outcome)
    ensures o.engine.surface == Some(s)
    ensures log <= o.engine.log
    decreases |dests|
  {
    if |dests| == 0 then Completed(Engine(Some(s), log))
    else
      var d := dests[0];
      if d.kind.None? then Aborted(Engine(Some(s), log), NullDestinationType)
      else
        var kind := Text.ToLower(d.kind.value);
        if kind == "file" then
          var w := SaveToFile(env, s, d.path);
          if w.failure.Some? then Aborted(Engine(Some(s), log + w.events), w.failure.value)
          else Deliver(env, s, log + w.events, dests[1..])
        else if kind == "clipboard" then
          var image := env.render(s);
          if env.setClipboard(image) then Deliver(env, s, log + [CopiedToClipboard(image)], dests[1..])
          else Aborted(Engine(Some(s), log), ClipboardFailed)
        else Deliver(env, s, log + [Warned(UnsupportedDestination(d.kind.value))], dests[1..])
  }

  /** The export step: it needs a surface, never changes it, and does nothing without destinations. */
  function Export(env: Env, e: Engine, step: MacroStep): (o: Outcome)
    ensures e.surface.None? ==> o == Aborted(e, NoSurfaceToExport)
    ensures o.engine.surface == e.surface
    ensures e.log <= o.engine.log
    ensures step.destinations.None? && e.surface.Some? ==> o == Completed(e)
  {
    match e.surface
    case None => Aborted(e, NoSurfaceToExport)
    case Some(s) =>
      if step.destinations.None? then Completed(e) else Deliver(env, s, e.log, step.destinations.value)
  }

  // ---- properties ----

  /** A path is left as written exactly when it holds no `{timestamp}`. */
  lemma ExpandPathUnchangedIff(env: Env, path: string)
    ensures ExpandPath(env, path) == path <==> !Text.Occurs(path, Timestamp.Placeholder)
  {
    Text.ReplaceAllUnchangedIff(path, Timestamp.Placeholder, Timestamp.Format(env.now));
  }

  /**
   * Expanding leaves no `{timestamp}` behind: the stamp is made of digits and
   * an underscore, so it cannot help form a new placeholder.
   */
  lemma ExpandLeavesNoPlaceholder(env: Env, path: string)
    ensures !Text.Occurs(ExpandPath(env, path), Timestamp.Placeholder)
  {
    var pat, rep := Timestamp.Placeholder, Timestamp.Format(env.now);
    forall k | 0 <= k < |pat|
      ensures pat[k] !in rep
    {
      assert !Decimal.IsDigit(pat[k]) && pat[k] != '_';
    }
    Text.ReplaceAllLeavesNone(path, pat, rep);
  }

  /** One placeholder between brace-free text becomes the `yyyyMMdd_HHmmss` stamp of the run. */
  lemma ExpandOnePlaceholder(env: Env, before: string, after: string)
    requires '{' !in before && '{' !in after
    ensures ExpandPath(env, before + Timestamp.Placeholder + after) == before + Timestamp.Format(env.now) + after
  {
    var pat, rep := Timestamp.Placeholder, Timestamp.Format(env.now);
    assert pat[0] == '{';
    assert before + pat + after == before + (pat + after);
    Text.ReplaceAllPrefix(before, pat + after, pat, rep);
    Text.ReplaceAllHead(after, pat, rep);
    Text.ReplaceAllPrefix(after, [], pat, rep);
    assert after + [] == after;
    assert Text.ReplaceAll([], pat, rep) == [];
  }

  /**
   * Exporting to `xs + ys` is exporting to `xs` and then, unless that threw,
   * to `ys` after the effects of `xs`.
   */
  lemma {:induction false} DeliverAppend(env: Env, s: Surface, log: seq<Event>, xs: seq<MacroDestination>, ys: seq<MacroDestination>)
    ensures var first := Deliver(env, s, log, xs);
      Deliver(env, s, log, xs + ys) == if first.Aborted? then first else Deliver(env, s, first.engine.log, ys)
    decreases |xs|
  {
    if |xs| == 0 {
      assert xs + ys == ys;
    } else {
      assert (xs + ys)[0] == xs[0];
      assert (xs + ys)[1..] == xs[1..] + ys;
      var d := xs[0];
      if d.kind.Some? {
        var kind := Text.ToLower(d.kind.value);
        if kind == "file" {
          var w := SaveToFile(env, s, d.path);
          if w.failure.None? {
            DeliverAppend(env, s, log + w.events, xs[1..], ys);
          }
        } else if kind == "clipboard" {
          if env.setClipboard(env.render(s)) {
            DeliverAppend(env, s, log + [CopiedToClipboard(env.render(s))], xs[1..], ys);
          }
        } else {
          DeliverAppend(env, s, log + [Warned(UnsupportedDestination(d.kind.value))], xs[1..], ys);
        }
      }
    }
  }

  /** Every image the events save or copy is `image`. */
  predicate OnlyExports(events: seq<Event>, image: Image) {
    forall i :: 0 <= i < |events| ==>
      (events[i].Saved? ==> events[i].image == image) && (events[i].CopiedToClipboard? ==> events[i].image == image)
  }

  lemma OnlyExportsAppend(a: seq<Event>, b: seq<Event>, image: Image)
    requires OnlyExports(a, image) && OnlyExports(b, image)
    ensures OnlyExports(a + b, image)
  {
  }

  /** Every image saved or copied during an export is the rendering of the surface being exported. */
  lemma {:induction false} DeliversRendering(env: Env, s: Surface, log: seq<Event>, dests: seq<MacroDestination>)
    ensures var o := Deliver(env, s, log, dests);
      |log| <= |o.engine.log| && OnlyExports(o.engine.log[|log|..], env.render(s))
    decreases |dests|
  {
    var o := Deliver(env, s, log, dests);
    var image := env.render(s);
    if |dests| > 0 && dests[0].kind.Some? {
      var d := dests[0];
      var kind := Text.ToLower(d.kind.value);
      var step: seq<Event> := [];
      if kind == "file" {
        step := SaveToFile(env, s, d.path).events;
      } else if kind == "clipboard" {
        step := if env.setClipboard(image) then [CopiedToClipboard(image)] else [];
      } else {
        step := [Warned(UnsupportedDestination(d.kind.value))];
      }
      assert OnlyExports(step, image);
      var aborted := (kind == "file" && SaveToFile(env, s, d.path).failure.Some?)
        || (kind == "clipboard" && !env.setClipboard(image));
      if aborted {
        assert o.engine.log[|log|..] == step || o.engine.log[|log|..] == [];
      } else {
        DeliversRendering(env, s, log + step, dests[1..]);
        var rest := o.engine.log[|log + step|..];
        assert o.engine.log[|log|..] == step + rest;
        OnlyExportsAppend(step, rest, image);
      }
    } else {
      assert o.engine.log[|log|..] == [];
    }
  }

  /** A destination whose `type` is neither `file` nor `clipboard` adds a warning and nothing else. */
  lemma UnknownDestinationSkipped(env: Env, s: Surface, log: seq<Event>, d: MacroDestination, rest: seq<MacroDestination>)
    requires d.kind.Some? && Text.ToLower(d.kind.value) !in {"file", "clipboard"}
    ensures Deliver(env, s, log, [d] + rest) ==
      Deliver(env, s, log + [Warned(UnsupportedDestination(d.kind.value))], rest)
  {
    assert ([d] + rest)[1..] == rest;
  }
}
