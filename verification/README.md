# Greenshot macro engine, modelled in Dafny

Greenshot's macro engine reads a JSON workflow script and runs its steps in
order against one engine. A step either **captures** a new surface (full
screen, a region, or an image file, with optional auto-crop), **annotates**
the surface with rectangles, arrows, text boxes and obfuscations styled from
a small style dictionary, or **exports** the rendered surface to files (with a
`{timestamp}` placeholder) and the clipboard. The first step that throws ends
the run. Everything done before the throw stays done.

This project models `MacroEngine.cs` and the document classes of `Models.cs`
as pure functions:

- An engine is its current surface (if any) plus the log of effects so far:
  warnings, created directories, saved files and clipboard copies.
- Every stage returns `Completed(engine)` or `Aborted(engine, error)`. An
  aborted outcome still carries the effects committed before the throw.
- Screen capture, auto-crop detection, cropping, image files, rendering,
  directories, the clipboard, the field registry, colour parsing, text fitting
  and the clock are fields of one `Env` record. They are parameters, not code.
- The annotate loop is written as each element's outcome followed by a fold
  over those outcomes. The outcomes are: a null type, an unknown type, a style
  that threw, or a container to add. The fold stops at the first outcome that
  throws. Every collaborator is a pure function, so this is the same run as the
  engine's one-element-at-a-time loop.

| file | module | what it holds |
|---|---|---|
| `wrappers.dfy` | `Wrappers` | `Option` with the `:-` failure propagation |
| `text.dfy` | `Text` | ASCII case mapping, `Replace("_", "")`, `char.IsWhiteSpace` and number white space, trimming, ordinal `String.Replace` |
| `decimal.dfy` | `Decimal` | decimal digit strings and their values |
| `int32.dfy` | `Int32` | C# `int`, unchecked wrap-around, `Int32.Parse` / `ToString` |
| `timestamp.dfy` | `Timestamp` | the `yyyyMMdd_HHmmss` stamp and its inverse |
| `models.dfy` | `Models` | the script, step, element, destination and style records; `MacroStyle.ToDictionary` |
| `json.dfy` | `JsonMapping` | the JSON property mapping of the records, both directions |
| `runtime.dfy` | `Runtime` | surfaces, containers, fields, events, errors, the engine state, `Env` |
| `coercion.dfy` | `Coercion` | `Convert.ToInt32`, `Convert.ToBoolean`, `Boolean.Parse` on style values |
| `style.dfy` | `StyleMapper` | `ApplyStyle` and `ParseColor` |
| `capture.dfy` | `CaptureStage` | `ExecuteCapture` |
| `annotate.dfy` | `AnnotateStage` | `ExecuteAnnotate` |
| `export.dfy` | `ExportStage` | `ExecuteExport` |
| `engine.dfy` | `MacroEngine` | `Execute` and `Run(scriptPath)` |

Behaviour of the code worth knowing when reading the model:

- **Style keys.** Key normalisation removes only underscores, so `line-color`
  does not resolve like `line_color`. See
  `StyleMapper.NormalizeKeepsOtherSeparators`.
- **Failed conversions.** A style value that fails to convert would throw out
  of `ApplyStyle` and end the run, because the conversion sits outside the
  `try` that guards `SetFieldValue` (`StyleMapper.CoercionFailureStopsStyle`
  shows this for an arbitrary dictionary). No dictionary that
  `MacroStyle.ToDictionary` builds reaches that path: each value already has
  the type its key's field is converted to, so only a failure while setting
  the obfuscation preset throws (`StyleMapper.StyleThrowsOnlyOnPreset`).
- **Unparseable colours.** They become red without any warning being logged.
- **`font_size`.** The value is handed to the field as the double it is, with
  no numeric coercion.
- **Writing a script.** `version`, `workflow`, a step's `step`, and an
  element's or destination's `type` are written as `null` when absent. Only
  the properties marked to ignore nulls are omitted.

## Model

| member | source | states |
|---|---|---|
| `MacroEngine.RunDocument` | src/Greenshot/Macro/MacroEngine.cs:29-56 | A missing script file, a document that does not map to a script, and a `null` document are reported without running anything. Exactly the documents that read as a script are run, and the run's outcome is that of running the script the document reads as. |
| `MacroEngine.RunSavedScript` | src/Greenshot/Macro/MacroEngine.cs:40-50 | A script written to JSON and loaded back runs exactly as the script itself. |
| `MacroEngine.Execute` | src/Greenshot/Macro/MacroEngine.cs:58-90 | The loop over the workflow, with its `break` on the first exception, produces the same outcome as the step-by-step run. A null workflow does nothing. |
| `MacroEngine.RunStep` | src/Greenshot/Macro/MacroEngine.cs:63-82 | A step with a null name throws. No step takes back logged effects. A step other than capture never brings a surface into being and never changes its image. |
| `MacroEngine.RunSteps` | src/Greenshot/Macro/MacroEngine.cs:63-89 | Over a run, the log of effects only grows. |
| `MacroEngine.RunStepsAppend` | src/Greenshot/Macro/MacroEngine.cs:63-89 | Running `xs + ys` is running `xs`, then, unless a step threw, running `ys` from the state reached. |
| `MacroEngine.FirstFailureEndsRun` | src/Greenshot/Macro/MacroEngine.cs:84-88 | The first step that throws ends the run with its exception and the state it left. Later steps are never looked at. |
| `MacroEngine.UnknownStepSkipped` | src/Greenshot/Macro/MacroEngine.cs:80-82 | A step with an unknown name logs a warning. The rest of the run proceeds as if the step were absent. |
| `MacroEngine.WithoutCaptureNoSurface` | src/Greenshot/Macro/MacroEngine.cs:63-82 | Steps that include no capture step never give a surface to an engine that has none. |
| `MacroEngine.StageBeforeCaptureFails` | src/Greenshot/Macro/MacroEngine.cs:161-163 | An annotate step reached before any capture step ends the run with the missing-surface exception. So does an export step. |
| `MacroEngine.StepNameIgnoresCase` | src/Greenshot/Macro/MacroEngine.cs:68 | Step names are matched without regard to letter case. |
| `CaptureStage.Capture` | src/Greenshot/Macro/MacroEngine.cs:92-159 | A failed capture leaves the engine exactly as it was. A successful one replaces the surface with a fresh one that holds no elements, and logs nothing. |
| `CaptureStage.CaptureRejects` | src/Greenshot/Macro/MacroEngine.cs:100-130 | Three inputs throw before any pixel is read: a region capture without an area; a file capture whose path is null, empty or missing; and any other capture type, including null. |
| `CaptureStage.CaptureSucceedsIff` | src/Greenshot/Macro/MacroEngine.cs:100-158 | A capture succeeds exactly when one of three things holds. Region or full screen: the bounds are non-empty and pixels are acquired. File: the path exists and the image loads. |
| `CaptureStage.FileModeSkipsAutoCrop` | src/Greenshot/Macro/MacroEngine.cs:112-127 | A file capture returns the loaded image unchanged. It does not depend on auto-crop settings, the detector, the cropper or the screen. |
| `CaptureStage.MissingAutoCropUsesDefault` | src/Greenshot/Macro/MacroEngine.cs:140 | A step without `autocrop` captures as if it carried the configured default. |
| `CaptureStage.MissingThresholdUsesDefault` | src/Greenshot/Macro/MacroEngine.cs:143 | A step without `autocrop_difference` captures as if it carried the configured default. |
| `CaptureStage.AutoCropOffIgnoresDetector` | src/Greenshot/Macro/MacroEngine.cs:140-150 | With auto-crop off, the crop detector has no influence on the result. |
| `CaptureStage.AcquiredImageCropped` | src/Greenshot/Macro/MacroEngine.cs:132-153 | A region or full-screen surface holds the acquired image. It is cropped exactly when auto-crop is on and the detector found a non-empty rectangle. |
| `AnnotateStage.Annotate` | src/Greenshot/Macro/MacroEngine.cs:161-164 | Annotating without a surface throws. Without an element list nothing happens. Otherwise the image is kept, existing containers stay in front of the new ones, and effects only grow. |
| `AnnotateStage.AddOne` | src/Greenshot/Macro/MacroEngine.cs:168-222 | One element: a null type throws; an unknown type is skipped with a warning naming it; an element that is added has a known type and a container of that kind. |
| `AnnotateStage.Fold` | src/Greenshot/Macro/MacroEngine.cs:166-224 | The loop keeps the surface image and every container already added, even when an element throws, and effects only grow. |
| `AnnotateStage.AddElements` | src/Greenshot/Macro/MacroEngine.cs:166-224 | The element loop keeps the surface image and every container already added, even when it throws. |
| `AnnotateStage.FoldCompleted` | src/Greenshot/Macro/MacroEngine.cs:166-224 | The loop completes exactly when no element throws, and then the surface holds the old containers followed by the added ones, in element order. |
| `AnnotateStage.AddedContainer` | src/Greenshot/Macro/MacroEngine.cs:168-221 | An element of a known type is added exactly when its style does not throw, otherwise the step reports the style's warnings and error; an added container has the element's kind, the fields the style set and the style's warnings, a rectangle or obfuscation sits at the element's bounds, and a text box holds the element's content or the empty string. |
| `AnnotateStage.Build` | src/Greenshot/Macro/MacroEngine.cs:169-221 | A container has the element's kind and the fields the style set. Rectangles and obfuscations read back the given bounds; an arrow starts at `from`; a text box holds its position and its content, empty when none is given, and gets a fitted size. |
| `AnnotateStage.ArrowEndRecovered` | src/Greenshot/Macro/MacroEngine.cs:181-190 | An arrow's start plus its stored width and height gives back its end point in 32-bit arithmetic, even where the subtraction overflowed. |
| `AnnotateStage.AddedInOrder` | src/Greenshot/Macro/MacroEngine.cs:166-224 | A completed annotate step met no null type, and added exactly one container per element of a known type, in element order, after the existing ones. |
| `AnnotateStage.AddElementsAppend` | src/Greenshot/Macro/MacroEngine.cs:166-224 | Annotating with `xs + ys` is annotating with `xs`, then, unless that threw, with `ys` from where it stopped. |
| `AnnotateStage.UnknownElementSkipped` | src/Greenshot/Macro/MacroEngine.cs:210-212 | An element of unknown type adds a warning and nothing else. |
| `AnnotateStage.KindIgnoresCase` | src/Greenshot/Macro/MacroEngine.cs:169 | Element types are matched without regard to letter case. |
| `StyleMapper.ApplyStyle` | src/Greenshot/Macro/MacroEngine.cs:228-230 | A null style sets nothing, logs nothing and cannot throw. |
| `StyleMapper.ApplyEntriesAppend` | src/Greenshot/Macro/MacroEngine.cs:246-293 | Applying a dictionary in two parts is applying the first part, then, unless it threw, the second. |
| `StyleMapper.SkippedKeyIsInert` | src/Greenshot/Macro/MacroEngine.cs:251-292 | Three kinds of key only add one warning: an unknown key, a field the container lacks, and a set that throws. The other keys' fields, and whether the style throws, are as if the key were absent. The key's single warning sits between the warnings of the keys before it and those after it. If an earlier key already threw, the key changes nothing at all. |
| `StyleMapper.CoerceTyped` | src/Greenshot/Macro/MacroEngine.cs:265-277 | A value of the type `ToDictionary` gives its key always converts for the field that key resolves to: colour text, an integer, a boolean, or a double that is passed through. |
| `StyleMapper.EntryNeverRejected` | src/Greenshot/Macro/MacroEngine.cs:246-277 | A dictionary entry of its declared type is never refused by the conversion. |
| `StyleMapper.DictionaryNeverThrows` | src/Greenshot/Macro/MacroEngine.cs:246-292 | The key loop over any style's dictionary never throws. |
| `StyleMapper.StyleThrowsOnlyOnPreset` | src/Greenshot/Macro/MacroEngine.cs:228-292 | Applying a style throws only for an obfuscation, and only when setting its preset fails. |
| `StyleMapper.CoercionFailureStopsStyle` | src/Greenshot/Macro/MacroEngine.cs:265-277 | A value that fails to convert throws: the earlier keys' fields stay set and later keys are never applied. |
| `StyleMapper.AppliedExactly` | src/Greenshot/Macro/MacroEngine.cs:246-293 | When nothing throws, a field value is set exactly when some key resolves to that field, the container has it, the value converts and the set succeeds. |
| `StyleMapper.AppliedOnlyFromKeys` | src/Greenshot/Macro/MacroEngine.cs:246-282 | Even when the style throws, every field value the key loop set came from one dictionary key that resolved to that field, was supported, converted and set. |
| `StyleMapper.PresetForStyle` | src/Greenshot/Macro/MacroEngine.cs:234-244 | The preset is blur when a blur radius is given, else pixelate when a pixel size is given, else none. |
| `StyleMapper.ObfuscatePresetFirst` | src/Greenshot/Macro/MacroEngine.cs:234-246 | On an obfuscation with a preset, the preset is the first field set. The keys are then applied to the obfuscation with that filter in place, which decides which fields it has. A failure to set the preset ends the style with nothing set. |
| `StyleMapper.NoPresetOutsideObfuscate` | src/Greenshot/Macro/MacroEngine.cs:234-249 | A container other than an obfuscation gets a prepared filter only when some key of its style dictionary, normalised, names that field. |
| `StyleMapper.Resolve` | src/Greenshot/Macro/MacroEngine.cs:249 | A resolved field is a registry entry whose name, with underscores removed, equals the key. No field is found exactly when no entry matches. |
| `StyleMapper.ResolveFirstMatch` | src/Greenshot/Macro/MacroEngine.cs:249 | Of several matching registry entries, the first one wins. |
| `StyleMapper.NormalizeKeepsOtherSeparators` | src/Greenshot/Macro/MacroEngine.cs:248 | Normalising a key removes underscores only. Any other character that is not a lower-case letter survives. |
| `StyleMapper.DistinctKeysDistinctFields` | src/Greenshot/Macro/MacroEngine.cs:248-249 | Keys that normalise differently resolve to different fields. |
| `StyleMapper.ParseColor` | src/Greenshot/Macro/MacroEngine.cs:296-309 | Null and "transparent", in any letter case, give transparent. Any other text gives its HTML colour, or red when it cannot be parsed. |
| `StyleMapper.TransparentInAnyCase` | src/Greenshot/Macro/MacroEngine.cs:300 | Every mix of upper and lower case in "transparent" gives transparent. |
| `Coercion.ParseBoolean` | src/Greenshot/Macro/MacroEngine.cs:276 | Text converts to true exactly when, once `char.IsWhiteSpace` characters and NULs are trimmed from both ends, it is "true" ignoring case; to false exactly when it is "false" ignoring case; and otherwise the conversion throws. |
| `Coercion.ToBooleanSkipsLeading` | src/Greenshot/Macro/MacroEngine.cs:276 | A leading white-space character, including the Unicode spaces, or a leading NUL does not change what text converts to. |
| `Coercion.ToBooleanAfterNoBreakSpace` | src/Greenshot/Macro/MacroEngine.cs:276 | "true" in any letter case after a no-break space converts to true. |
| `Coercion.ToInt32OfText` | src/Greenshot/Macro/MacroEngine.cs:272 | An integer written out as text converts back to the same integer. |
| `Coercion.ToBooleanOfText` | src/Greenshot/Macro/MacroEngine.cs:276 | A boolean written out as text converts back to the same boolean. |
| `Coercion.ToBooleanOfWord` | src/Greenshot/Macro/MacroEngine.cs:276 | The word "true" converts to true in any letter case. |
| `ExportStage.Export` | src/Greenshot/Macro/MacroEngine.cs:311-314 | Exporting without a surface throws. Without destinations nothing happens. An export never changes the surface and effects only grow. |
| `ExportStage.Deliver` | src/Greenshot/Macro/MacroEngine.cs:316-344 | The destination loop keeps the surface and every export already made, even when a destination throws. |
| `ExportStage.SaveToFile` | src/Greenshot/Macro/MacroEngine.cs:321-332 | A null path throws. A completed file export ends by saving the surface's rendering to the expanded path; before that it may only have created a directory. |
| `ExportStage.DirectoryCreatedIff` | src/Greenshot/Macro/MacroEngine.cs:324-325 | Once the expanded path's directory is known, a file export records creating it exactly when the name is non-empty, the directory does not exist and it can be created; it ends with the failure to create it exactly when the name is non-empty, the directory does not exist and it cannot be created. |
| `ExportStage.ExpandPathUnchangedIff` | src/Greenshot/Macro/MacroEngine.cs:322 | A path is left exactly as written when it holds no `{timestamp}`, and only then. |
| `ExportStage.ExpandOnePlaceholder` | src/Greenshot/Macro/MacroEngine.cs:322 | One `{timestamp}` between brace-free text becomes the run's `yyyyMMdd_HHmmss` stamp, with the text around it kept. |
| `ExportStage.ExpandLeavesNoPlaceholder` | src/Greenshot/Macro/MacroEngine.cs:322 | An expanded path never holds `{timestamp}`: every placeholder is replaced, and the digits and underscore of the stamp cannot form a new one. |
| `ExportStage.DeliverAppend` | src/Greenshot/Macro/MacroEngine.cs:316-344 | Exporting to `xs + ys` is exporting to `xs`, then, unless that threw, to `ys`. |
| `ExportStage.DeliversRendering` | src/Greenshot/Macro/MacroEngine.cs:327-337 | Every image an export saves or copies is the rendering of the surface being exported. |
| `ExportStage.UnknownDestinationSkipped` | src/Greenshot/Macro/MacroEngine.cs:340-342 | A destination of unknown type adds a warning and nothing else. |
| `Timestamp.Format` | src/Greenshot/Macro/MacroEngine.cs:322 | A stamp is 15 characters: eight digits, an underscore, six digits. |
| `Timestamp.ParseFormat` | src/Greenshot/Macro/MacroEngine.cs:322 | A stamp reads back as the date and time it was formatted from. |
| `Timestamp.FormatInjective` | src/Greenshot/Macro/MacroEngine.cs:322 | Different instants get different stamps. |
| `Text.ReplaceAllLength` | src/Greenshot/Macro/MacroEngine.cs:322 | Each replaced occurrence changes the path's length by the stamp's length minus the placeholder's. |
| `Text.ReplaceAllUnchangedIff` | src/Greenshot/Macro/MacroEngine.cs:322 | When replacement and pattern differ in length, replacing changes the text exactly when the pattern occurs. |
| `Text.CountPositiveIffOccurs` | src/Greenshot/Macro/MacroEngine.cs:322 | The left-to-right scan replaces something exactly when the pattern occurs somewhere. |
| `Text.ReplaceAllPrefix` | src/Greenshot/Macro/MacroEngine.cs:322 | Text that lacks the pattern's first character passes through replacement untouched. |
| `Text.ReplaceAllLeavesNone` | src/Greenshot/Macro/MacroEngine.cs:322 | When the pattern shares no character with a non-empty replacement, no occurrence of the pattern is left after replacing. |
| `Text.Remove` | src/Greenshot/Macro/MacroEngine.cs:248 | Removing underscores leaves none, and keeps every other character exactly as often as it occurred. |
| `Text.RemoveAppend` | src/Greenshot/Macro/MacroEngine.cs:248 | Removal works piece by piece, so the characters kept stay in their order. |
| `Text.RemoveAbsent` | src/Greenshot/Macro/MacroEngine.cs:248 | A key without underscores is left as it is. |
| `Int32.Wrap` | src/Greenshot/Macro/MacroEngine.cs:188-189 | Unchecked arithmetic gives the 32-bit value congruent to the exact result, which is that result whenever it fits. |
| `Int32.AddSubCancel` | src/Greenshot/Macro/MacroEngine.cs:188-189 | Adding back a wrapped difference gives the original value. |
| `Int32.ParseTrailingNul` | src/Greenshot/Macro/MacroEngine.cs:272 | A NUL at the very end of the text does not change what `Int32.Parse` gives. |
| `Int32.ParseNulBeforeWhite` | src/Greenshot/Macro/MacroEngine.cs:272 | A NUL followed by trailing white space makes the text fail to parse. |
| `Int32.ParseNoBreakSpace` | src/Greenshot/Macro/MacroEngine.cs:272 | Number parsing skips only U+0009 to U+000D and the space: text that starts with a no-break space fails to parse. |
| `Int32.ParseToString` | src/Greenshot/Macro/MacroEngine.cs:272 | `Int32.Parse` reads back every integer's decimal text. |
| `Decimal.DigitsValue` | src/Greenshot/Macro/MacroEngine.cs:272 | The shortest decimal text of a number reads back as that number. |
| `Decimal.FixedValue` | src/Greenshot/Macro/MacroEngine.cs:322 | Zero-padded fixed-width digits read back as the number. |
| `Models.ToDictionary` | src/Greenshot/Macro/Models.cs:126-137 | The dictionary's keys are distinct, and the dictionary is empty exactly when the style is. |
| `Models.DictionaryLookup` | src/Greenshot/Macro/Models.cs:126-137 | Each key maps to its property's value, present exactly when the property is set; only the seven snake_case names occur as keys. |
| `Models.DictionaryTyped` | src/Greenshot/Macro/Models.cs:126-137 | Every dictionary value has its property's type: text appears only under `line_color` and `fill_color`, and a double only under `font_size`. |
| `Models.DictionaryEmpty` | src/Greenshot/Macro/Models.cs:126-137 | Flattening a style gives no entries exactly when no property is set. |
| `JsonMapping.ScriptToJson` | src/Greenshot/Macro/Models.cs:7-14 | A script is written with exactly `version` and `workflow`. |
| `JsonMapping.StepToJson` | src/Greenshot/Macro/Models.cs:16-47 | A step always writes `step`. Every other property is written exactly when it is set. |
| `JsonMapping.ElementToJson` | src/Greenshot/Macro/Models.cs:73-101 | An element always writes `type`. Every other property is written exactly when it is set. |
| `JsonMapping.DestinationToJson` | src/Greenshot/Macro/Models.cs:164-174 | A destination always writes `type`; `path` and `overwrite` are written exactly when set. |
| `JsonMapping.AreaToJson` | src/Greenshot/Macro/Models.cs:49-62 | An area writes exactly `x`, `y`, `width` and `height`. |
| `JsonMapping.OptionsToJson` | src/Greenshot/Macro/Models.cs:64-71 | Options write exactly `show_cursor` and `delay_ms`. |
| `JsonMapping.BoundsToJson` | src/Greenshot/Macro/Models.cs:140-153 | Bounds write exactly `x`, `y`, `w` and `h`. |
| `JsonMapping.PointToJson` | src/Greenshot/Macro/Models.cs:155-162 | A point writes exactly `x` and `y`. |
| `JsonMapping.AreaRoundTrip` | src/Greenshot/Macro/Models.cs:49-62 | An area reads back as itself. |
| `JsonMapping.OptionsRoundTrip` | src/Greenshot/Macro/Models.cs:64-71 | Options read back as themselves. |
| `JsonMapping.BoundsRoundTrip` | src/Greenshot/Macro/Models.cs:140-153 | Bounds read back as themselves. |
| `JsonMapping.PointRoundTrip` | src/Greenshot/Macro/Models.cs:155-162 | A point reads back as itself. |
| `JsonMapping.StyleJsonMatchesDictionary` | src/Greenshot/Macro/Models.cs:103-137 | A style's JSON holds exactly the keys of its dictionary, each with the same value. |
| `JsonMapping.StyleRoundTrip` | src/Greenshot/Macro/Models.cs:103-124 | A style reads back as itself. |
| `JsonMapping.ElementRoundTrip` | src/Greenshot/Macro/Models.cs:73-101 | An element reads back as itself. |
| `JsonMapping.DestinationRoundTrip` | src/Greenshot/Macro/Models.cs:164-174 | A destination reads back as itself. |
| `JsonMapping.DecodeEncodeAll` | src/Greenshot/Macro/Models.cs:41-46 | A list whose items all read back reads back as the same list. |
| `JsonMapping.StepRoundTrip` | src/Greenshot/Macro/Models.cs:16-47 | A step reads back as itself. |
| `JsonMapping.ScriptRoundTrip` | src/Greenshot/Macro/Models.cs:7-14 | A script reads back as itself. |
| `JsonMapping.ScriptWriteIsStable` | src/Greenshot/Macro/Models.cs:7-14 | JSON written by `ScriptToJson` reads back as a script, and writing that script again gives the same JSON. |

## Left out

- Pixel work is not modelled. Screen capture, auto-crop detection, cropping, image loading, rendering, saving and the clipboard are `Env` parameters. Only whether they succeed, and which image they yield, reaches the model.
- Directory handling is not modelled either. `Path.GetDirectoryName`, `Directory.Exists` and `Directory.CreateDirectory` are `Env` parameters. A null directory name (a root path) is folded into the empty string, which the engine treats the same way.
- Logging is reduced to events. The `log4net` info and error lines are not modelled. The warnings after which the engine carries on are `Warned` events. The exception that ends a run is the `Aborted` error.
- `CaptureDetails` (capture time and title) is not modelled; nothing later reads it.
- `TextContainer.FitToText` is the parameter `fitToText`. Text measurement depends on fonts, which are outside the model.
- The field registry is a parameter, not code: `FieldType.Values`, `HasField`, `SetFieldValue`, `ColorTranslator.FromHtml`, `Double.ToString` and `Convert.ToInt32(double)`. Which field names the engine converts to colours, integers or booleans is modelled. `HasField` and `SetFieldValue` are asked of the container together with the prepared filter last set on it, because an obfuscation's fields are mostly those of its filter child. The filter's own effect on the container's other fields is part of the parameter.
- Case mapping is ASCII only. The culture-sensitive `ToLower`/`ToUpper` of .NET and its culture-specific number formats are not modelled.
- `ExportStage.ExpandPath` reads one `now` for the whole run, whereas the engine reads `DateTime.Now` again for each file destination. The clock is outside the model.
- Reads see one fixed filesystem for the whole run: `fileExists` and `loadImage` do not see files written by earlier export steps.
- The JSON text parser and Newtonsoft's type coercions are not modelled. Examples are a number for a string property and a string of digits for an integer one. The model reads a typed JSON value tree and accepts only values of the declared type.
- `JsonMapping.Get` matches property names exactly. Newtonsoft's reader falls back to a case-insensitive match when no exact one exists, so `"Version"` or `"STEP"` would also be read; a JSON object is a map here, with no property order from which to pick the first such match.
- `JsonMapping.StyleFromMap` does not read a `font_size` written as a JSON integer; the model accepts only a JSON double there.
- `null` entries inside the `workflow`, `elements` and `destinations` lists are not modelled. Those lists hold records, not optional records. A `null` entry in the JSON makes the whole list fail to read (`JsonMapping.DecodeAll`), so the document is reported as not a script and nothing runs. The engine instead runs the steps before the null entry, then dereferences it and ends the run at the exception (MacroEngine.cs:67, 169, 318). For a null element or destination, it also keeps what the earlier entries of that step added or exported.
- The step `options`, an element's `method` and `pixel_size`, and a destination's `overwrite` are read and written but never used by the engine.
- `MacroEditorForm.cs` and `macro_builder.py`, which build and edit scripts, are not part of this model.
