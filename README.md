# st-scene-curator in Dafny

A model of the logic at the heart of *ST Scene Curat-o-matic*, a Streamlit
tool for splitting an episode into scenes and annotating them. The model
covers three parts.

- **Scene records** (`utils/scene_detection.py`, module `SceneDetection` in
  `scene_detection.dfy`). `_process_scenes` turns the detector's list of
  `(start, end)` timecode pairs into scene records. `_format_time` renders
  seconds as `HH:MM:SS` or `MM:SS`. `validate_video_file` checks a path's
  extension against an allow-list. `export_scenes_csv` maps scenes to rows.
  `get_sample_scenes` returns fixed sample data. `SceneDetector` is a class
  whose `scenes` field `detect_scenes` assigns.
- **The app's session state** (`app.py`, module `App` in `app.dfy`). The
  steps are: initialise missing keys, take in an upload, run the analysis
  with its fallback, select a scene, and mark the selected scene processed.
  Each step is a function on a `Session` value. `SessionState` is the
  mutable session dictionary, and its methods are proved equal to those
  functions. The selected scene is a reference into the scene list, and
  the processing button keeps the program's own check. Two invariants
  hold across all steps: `Consistent`, which includes the selection's
  aliasing, and `StatusesKnown`, under which every status is `detected` or
  `processed`. The app also computes counts, a total and an average.
- **The demo editor** (`app-demo.py`, module `Demo` in `app_demo.dfy`). It
  covers sample loading, selecting a scene by id on the timeline, the
  annotation write into exactly one scene, clearing a stale selection, the
  merge/split button conditions, and the player start time.

Two support modules hold the Python built-ins the code relies on. `Text`
(`text.dfy`) has `f"{n:03d}"`, `str.split`, `str.join`, `str.lower` and
`str.rfind`. `Wrappers` (`wrappers.dfy`) has `Option` and `Result`.

The PySceneDetect result is a parameter of type `DetectorOutput`. It is
either a list of raw entries, each maybe not a pair and maybe lacking
`get_seconds`, or an exception. Other outside facts are parameters too:
whether a file exists, the temp-file name, and the values of widgets and
buttons. Python floats are `real`. Python's floor `//` and `%` are written
out (`FloorDiv`, `FloorMod`), and so is `int()`'s truncation toward zero
(`Trunc`).

The operations themselves are functions with no contracts of their own.
The members in the table below specify them:

- `SceneDetection.Processed` (utils/scene_detection.py:98-155):
  `ProcessedSound`, `ProcessedComplete`, `ProcessedKeepsAll`,
  `ProcessedDropsMalformed`, `ProcessedStep`, `ProcessedIdsDistinct`, and
  the loop `SceneDetector.ProcessScenes`.
- `SceneDetection.FormatTime` (utils/scene_detection.py:199-216):
  `FormatTimeShape` and `FormatTimeRoundTrip`.
- `SceneDetection.ValidateVideoFile` (utils/scene_detection.py:336-356):
  `ValidateSound` and `ValidateAcceptsSupported`.
- `SceneDetection.SampleScenes` (utils/scene_detection.py:359-415):
  `SampleScenesShape`, `SampleScenesContiguous` and `SampleScenesIds`.
- `App.Initialized` (app.py:40-78): `InitializedSetsOnlyMissing`,
  `InitializedIdempotent`, `InitializedKeepsSession` and
  `FreshSessionConsistent`.
- `App.AfterUpload` (app.py:96-128): `AfterUploadEffect`,
  `UploadedFileValidates` and `UploadThenAnalyse`.
- `App.AfterAnalysis` (app.py:142-228): `AfterAnalysisEffect`,
  `AnalysisKeepsStatuses`, `DetectedScenesStored`,
  `DetectorErrorKeepsSession` and `UploadThenAnalyse`.
- `App.WithSelection` (app.py:346-347): `WithSelectionEffect`.
- `App.MarkedProcessed` and `App.AfterProcessClick` (app.py:404-421):
  `MarkedProcessedEffect`, `MarkedProcessedIdempotent`,
  `AfterProcessClickEffect`, `AfterProcessClickConsistent`,
  `SelectThenProcess` and `ProcessAfterReanalysis`.
- `App.CountProcessed`, `App.TotalDuration` and `App.AverageDuration`
  (app.py:233-236, 316, 324): `SidebarMetrics`, `CountProcessedIsSetSize`,
  `CountProcessedUpdate`, `TotalDurationUpdate`, `MarkedProcessedFigures`,
  `TotalDurationOfContiguous`, `TotalDurationBounds` and
  `AverageDurationBounds`.
- `Demo.InitializedState` (app-demo.py:7-14): `InitializedStateEffect`.
- `Demo.AfterSimulate` (app-demo.py:150-154): `AfterSimulateEffect` and
  `AfterSimulateValid`.
- `Demo.AfterChipClick` (app-demo.py:56-63): `AfterChipClickEffect` and
  `AfterChipClickValid`.
- `Demo.AfterAnnotation` (app-demo.py:65-107): `AfterAnnotationEffect`,
  `AfterAnnotationIdempotent` and `AfterAnnotationValid`.
- `Demo.PlayerStart` (app-demo.py:169-174): `PlayerStartBounds`.

Each class method is proved equal to the function it runs on the session
snapshot.

## Model

| member | source | states |
|---|---|---|
| SceneDetection.SceneDetector.ProcessScenes | utils/scene_detection.py:98-155 | the loop with its two `continue`s builds exactly `Processed(sceneList)` |
| SceneDetection.ProcessedSound | utils/scene_detection.py:110-149 | output is the input in order minus unusable entries; each record comes from the well-formed entry at its own `index`; it has id `scene_` + 3-digit `index+1`, `duration == end - start`, frames defaulting to 0, status `detected`, empty characters and notes, and no AI analysis or thumbnail; indices strictly increase; length ≤ input length; every well-formed entry is kept (some record carries its position) |
| SceneDetection.ProcessedBuiltFrom | utils/scene_detection.py:110-149 | every record is the one `_process_scenes` builds from the well-formed entry at its own `index` |
| SceneDetection.ProcessedIndicesIncrease | utils/scene_detection.py:110-149 | record indices are input positions, below the input length and strictly increasing |
| SceneDetection.ProcessedLength | utils/scene_detection.py:110-149 | there are never more records than entries |
| SceneDetection.ProcessedComplete | utils/scene_detection.py:110-149 | every well-formed entry yields a record carrying its input position |
| SceneDetection.ProcessedKeepsAll | utils/scene_detection.py:110-149 | with no malformed entry, there is one record per entry |
| SceneDetection.ProcessedDropsMalformed | utils/scene_detection.py:113-122 | a non-pair entry, or one without seconds, is skipped, so there are strictly fewer records than entries |
| SceneDetection.ProcessedStep | utils/scene_detection.py:110-149 | one loop step appends the record of entry i exactly when that entry is well formed, and nothing otherwise |
| SceneDetection.ProcessedIdsDistinct | utils/scene_detection.py:134-135 | ids are never renumbered after a skip, so the ids of the processed list are pairwise distinct |
| SceneDetection.SceneIdNumber | utils/scene_detection.py:134 | `scene_{n:03d}` is `scene_` followed by digits that parse back to n, 9 characters for n < 1000 |
| SceneDetection.SceneIdInjective | utils/scene_detection.py:134 | equal ids mean equal numbers |
| SceneDetection.SceneDetector.constructor | utils/scene_detection.py:28-43 | stores path and threshold; no scenes yet |
| SceneDetection.SceneDetector.DetectScenes | utils/scene_detection.py:61-96 | on success the processed list is stored in `scenes` and returned; a detector exception propagates and leaves `scenes` as it was |
| SceneDetection.DetectScenesStreamlit | utils/scene_detection.py:250-333 | returns the processed list, or `[]` when the detector raises |
| SceneDetection.SceneDetector.ExportScenesCsv | utils/scene_detection.py:218-247 | fails exactly when there are no scenes; otherwise one row per scene, in order, characters joined by `", "` |
| SceneDetection.RowCharactersRoundTrip | utils/scene_detection.py:243 | splitting the Characters column on `", "` gives the list back when no name has a comma |
| SceneDetection.Trunc | utils/scene_detection.py:209-211 | `int(x)` truncates toward zero: the whole number at or below x for x ≥ 0, at or above it for x < 0 |
| SceneDetection.FloorDivOfFloor | utils/scene_detection.py:209-211 | float `//` and `%` by a whole divisor agree with integer division of the floor |
| SceneDetection.TimeFields | utils/scene_detection.py:209-211 | hours, minutes and seconds are the floor divided by 3600, the remainder's minutes, and the floor mod 60 |
| SceneDetection.TimeFieldsRoundTrip | utils/scene_detection.py:209-211 | `hours*3600 + minutes*60 + secs` is the whole seconds, with minutes and secs below 60, and hours ≥ 0 for non-negative input |
| SceneDetection.TimeFieldsShown | utils/scene_detection.py:209-216 | hours > 0 exactly when the whole seconds reach 3600; minutes and seconds stay below 60; the fields shown add up to the whole seconds, or to them modulo one hour when the hour field is hidden |
| SceneDetection.ClockTextShape | utils/scene_detection.py:213-216 | the clock text has three `:` fields exactly when hours > 0 and two otherwise, and its last two fields are two characters wide |
| SceneDetection.ClockTextLong | utils/scene_detection.py:214 | `HH:MM:SS` reads back to `h*3600 + m*60 + s` |
| SceneDetection.ClockTextShort | utils/scene_detection.py:216 | `MM:SS` reads back to `m*60 + s` |
| SceneDetection.ClockTextRoundTrip | utils/scene_detection.py:213-216 | reading the clock text back gives the seconds its shown fields stand for |
| SceneDetection.FormatTimeShape | utils/scene_detection.py:213-216 | three `:` fields exactly when hours > 0 (seconds ≥ 3600), otherwise two; minute and second fields are two digits |
| SceneDetection.FormatTimeRoundTrip | utils/scene_detection.py:199-216 | reading the string back gives the whole seconds (for negative input, modulo one hour, since the negative hour field is dropped) |
| SceneDetection.Suffix | utils/scene_detection.py:356 | `Path.suffix` is empty, or a dot followed by dot-free text, and is always a tail of the name |
| SceneDetection.ValidateSound | utils/scene_detection.py:336-356 | an accepted path is present, non-empty and exists, and its name ends, ignoring ASCII case, in one of the eight extensions |
| SceneDetection.SuffixWitness | utils/scene_detection.py:356 | a tail of the name whose lower-cased form is supported is an extension the name ends in |
| SceneDetection.SupportedExtensionShape | utils/scene_detection.py:354 | every supported extension is a dot followed by at least three lower-case letters or digits |
| SceneDetection.ValidateAcceptsSupported | utils/scene_detection.py:346-356 | conversely, every existing `dir/stem.ext` with a supported extension, in any case, is accepted |
| SceneDetection.PathNameOf | utils/scene_detection.py:349 | `Path(dir/name).name` is `name` |
| SceneDetection.SuffixOf | utils/scene_detection.py:356 | the suffix of `stem.ext` is `.ext` |
| SceneDetection.SampleScenesShape | utils/scene_detection.py:359-415 | three samples, the first starting at 0; each has index k, `duration == end - start` with start before end, status `detected` and no annotations |
| SceneDetection.SampleScenesContiguous | utils/scene_detection.py:359-415 | each sample ends, in seconds and in frames, where the next one starts |
| SceneDetection.SampleScenesIds | utils/scene_detection.py:359-415 | the sample ids are `scene_001` to `scene_003` and pairwise distinct |
| Text.NatToString | utils/scene_detection.py:134 | the decimal digits of n, no leading zero, reading back as n |
| Text.ZeroPad | utils/scene_detection.py:134 | `{n:0Wd}` is digits that read back as n, exactly W long when n fits |
| Text.ParseLeadingZeros | utils/scene_detection.py:214 | leading zeros do not change a digit string's value |
| Text.NatToStringLength | utils/scene_detection.py:134 | numbers below 10^W need at most W digits |
| Text.ZeroPadInjective | utils/scene_detection.py:134 | padding to a fixed width is injective |
| Text.SplitJoin | utils/scene_detection.py:243 | `split` undoes `", ".join` when no part contains a comma |
| Text.SplitCons | utils/scene_detection.py:214 | `a + sep + b` splits into `a` followed by the pieces of `b` |
| Text.SplitAround | utils/scene_detection.py:349 | a one-character split distributes over an occurrence of the separator |
| Text.SplitFree | utils/scene_detection.py:349 | a string free of the separator splits to itself |
| Text.LowerAscii | utils/scene_detection.py:356 | `lower()` maps each ASCII capital to its small letter and keeps the rest |
| Text.RFind | utils/scene_detection.py:356 | the last occurrence, or -1, with none after it |
| App.InitializedSetsOnlyMissing | app.py:40-78 | every key becomes present; existing values are untouched; missing ones get their defaults |
| App.InitializedIdempotent | app.py:40-78 | initialising twice equals initialising once |
| App.InitializedKeepsSession | app.py:40-78 | once every key exists, initialising leaves the session exactly as it was |
| App.FreshSessionConsistent | app.py:44-72 | fresh defaults: threshold 30.0, no scenes, no selection, analysis not completed; the session is consistent and every status is one the program assigns |
| App.SessionState.constructor | app.py:40-78 | a new browser session starts with no key present |
| App.SessionState.InitializeSessionState | app.py:40-78 | the session afterwards is `Initialized` of the session before |
| App.AfterUploadEffect | app.py:96-128 | a new file (none loaded, or a different name) sets the file, sets the path to the temp file `<stem>_<name>` and clears the analysis flag, and changes no other key; the same file, or no upload, leaves the session unchanged; consistency and statuses are kept |
| App.UploadedFileValidates | app.py:111-121 | a saved upload `tmp…_base.ext` with a supported extension passes `validate_video_file` |
| App.UploadThenAnalyse | app.py:96-228 | a new upload with a supported extension is saved where validation accepts it, so analysing it stores the non-empty result (or the samples when the wrapper raises) under a new list number, completes the analysis of that file, and leaves the selection and annotations alone |
| App.AfterAnalysisEffect | app.py:142-228 | without a click, a file or a valid path nothing changes; a raised wrapper stores the sample scenes, a non-empty result is stored as it is, and either completes the analysis under a new list; an empty result changes nothing; only `scenes` and the flag change; consistency is kept |
| App.AnalysisKeepsStatuses | app.py:166-224 | the wrapper's records and the sample records are all `detected`, so after the analysis every status is still one the program assigns |
| App.DetectedScenesStored | app.py:160-186 | a detection with at least one usable pair stores exactly the processed records and completes the analysis |
| App.DetectorErrorKeepsSession | app.py:166-207 | a detector failure reaches the app as an empty list and changes nothing; the sample fallback needs the wrapper itself to raise |
| App.SessionState.RenderSidebar | app.py:82-236 | the session afterwards is the upload step followed by the analysis step, with the detector run through `detect_scenes_streamlit` |
| App.SessionState.TakeUpload | app.py:96-128 | the session afterwards is `AfterUpload` of the session before |
| App.SessionState.RunAnalysis | app.py:142-228 | the session afterwards is `AfterAnalysis` of the session before, with the wrapper's outcome |
| App.WithSelectionEffect | app.py:346-347 | selecting changes only `selected_scene`, which becomes the dict at position k of the current list; consistency and statuses are kept |
| App.SessionState.SelectScene | app.py:346-347 | the session afterwards is `WithSelection`: the selection is scene k of the current list |
| App.FirstIndexOf | app.py:417-420 | the first position whose id matches, or none when no scene matches |
| App.MarkedProcessedEffect | app.py:417-420 | exactly the first scene with the id becomes `processed`; every other scene, and every other field, is unchanged |
| App.FirstMatchUnique | app.py:417-420 | the first matching position is the one the loop stops at |
| App.FirstIndexOfSameIds | app.py:417-420 | lists with the same ids have the same first match |
| App.MarkedProcessedIdempotent | app.py:417-420 | marking twice equals marking once |
| App.ProcessButtonNeverDisabledAsWritten | app.py:410 | as written, the button stays enabled for every status the program assigns, including right after marking |
| App.ProcessButtonDisabledOnceMarked | app.py:410 | with the corrected check, the button is enabled on a `detected` scene and disabled on the scene just marked |
| App.AfterProcessClickEffect | app.py:404-421 | with the button disabled as written nothing changes; otherwise the first scene with the selected id is marked, the selection shows the mark exactly when it is that dict of the current list and is untouched otherwise, and a second click then changes nothing |
| App.SelectThenProcess | app.py:346-347 | select-then-process on distinct ids marks exactly the chosen scene, and the selection, still that dict, shows it |
| App.ProcessAfterReanalysis | app.py:183 | after select, process and a new analysis, the old `processed` selection belongs to the replaced list: a second click marks the new list's scene with that id and leaves the old selection as it was |
| App.AfterProcessClickConsistent | app.py:413-420 | marking keeps the session consistent, the selection aliasing the current list, and every status one the program assigns |
| App.ProcessButtonNeverDisabledInSession | app.py:410 | in every session whose statuses are ones the program assigns, the check as written leaves the button enabled |
| App.SessionState.RenderAnnotationPanel | app.py:353-421 | behind the check of line 410 as written, the loop marks the first matching scene and stops, and the mark shows through the selection when it is that dict; the session afterwards is `AfterProcessClick` |
| App.CountProcessedIsSetSize | app.py:235 | the processed count is the number of positions whose status is `processed`, at most the scene count |
| App.CountProcessedPrefix | app.py:235 | the count over the first n scenes is the number of positions below n whose status is `processed` |
| App.CountProcessedUpdate | app.py:235 | replacing one scene changes the count by that scene's contribution |
| App.SidebarMetrics | app.py:233-236 | metrics are shown exactly when the analysis is complete: the scene count, and the processed count, which is the number of positions holding a `processed` scene and no larger than the scene count |
| App.TotalDurationUpdate | app.py:316 | changing a scene without changing its duration keeps the total |
| App.MarkedProcessedFigures | app.py:235 | marking adds one to the processed count exactly when the match was not yet processed; the total duration is unchanged |
| App.TotalDurationOfContiguous | app.py:316 | for back-to-back scenes with `duration == end - start`, the total is the last end minus the first start |
| App.TotalDurationBounds | app.py:316 | n·lo ≤ total ≤ n·hi when every duration lies in [lo, hi] |
| App.AverageDurationBounds | app.py:324 | the average lies within any bounds on the durations, and times the count gives the total |
| App.QuotientBounds | app.py:324 | a total between n·lo and n·hi, divided by n, lies between lo and hi and gives the total back when multiplied by n |
| Demo.InitializedStateEffect | app-demo.py:7-14 | only missing keys are set, to `[]`, None and None; initialising is idempotent |
| Demo.DemoSampleScenesShape | app-demo.py:16-24 | five back-to-back scenes from 0 to 71 s, lasting 8, 5, 15, 35 and 8 s, each with `duration == end - start` and no annotations |
| Demo.DemoSampleIdsDistinct | app-demo.py:19-23 | the sample ids are `scene_001` to `scene_005` and pairwise distinct |
| Demo.AfterSimulateEffect | app-demo.py:150-154 | the samples and placeholder path are loaded only into an empty list; a second press changes nothing; the selection is untouched |
| Demo.DemoState.SimulateAnalysis | app-demo.py:150-154 | the session afterwards is `AfterSimulate` |
| Demo.FindScene | app-demo.py:76-79 | the first `(index, scene)` whose id matches, or none when no scene matches |
| Demo.FindSceneDistinct | app-demo.py:76-79 | with distinct ids the lookup finds the one scene with the id |
| Demo.FindSceneSameIds | app-demo.py:76-79 | lists with the same ids give the same lookup |
| Demo.AfterChipClickEffect | app-demo.py:56-63 | after a click on chip k, scene k is the selection and its chip is the only one disabled; nothing else changes |
| Demo.DemoState.ClickChip | app-demo.py:57-62 | the session afterwards is `AfterChipClick` |
| Demo.AfterAnnotationEffect | app-demo.py:65-107 | a stale selection is cleared and no scene is written; otherwise only `characters` and `notes` of the found scene are overwritten |
| Demo.AfterAnnotationIdempotent | app-demo.py:105-107 | rewriting the same widget values changes nothing |
| Demo.DemoState.RenderAnnotationPanel | app-demo.py:65-107 | the session afterwards is `AfterAnnotation` |
| Demo.DemoState.RenderEditingTools | app-demo.py:112-140 | merge reports exactly when clicked with ≥ 2 ids; split reports exactly when clicked with a truthy selection and a cut > 0; no state changes |
| Demo.PlayerStartBounds | app-demo.py:169-174 | the player starts at `int(start_time)` of the selected scene, which is ≥ 0 and within one second below the start; with no truthy selection, or an id no scene has, it is 0 |
| Demo.InitialDemoValid | app-demo.py:7-14 | a fresh session satisfies the demo invariant (selection names a scene, characters from the roster, distinct ids) |
| Demo.AfterSimulateValid | app-demo.py:150-154 | loading the samples keeps the invariant |
| Demo.AfterChipClickValid | app-demo.py:60-62 | clicking a chip keeps the invariant |
| Demo.AfterAnnotationValid | app-demo.py:92-107 | writing roster names keeps the invariant |
| Demo.StaleSelectionUnreachable | app-demo.py:81-85 | under the invariant the "scene not found" branch never runs |
| Demo.DemoState.constructor | app-demo.py:7-14 | a new browser session starts with no key present |
| Demo.DemoState.InitializeState | app-demo.py:7-14 | the session afterwards is `InitializedState` |

## Left out

- PySceneDetect (`open_video`, `SceneManager`, `ContentDetector`, `FrameTimecode`) is an external library. Its result is the abstract `DetectorOutput`, and a timecode is its seconds, frames and string form.
- Streamlit rendering is left out: widgets, columns, CSS, `st.rerun`, spinners, progress callbacks, messages, and every `print` and `logging` call. Widget values and button clicks are parameters.
- File-system work is left out: writing the temp file, `Path.exists` (a `fileExists`/`pathExists` parameter), `stat`, `get_video_info`, the `SceneDetector.__init__` missing-file check, the JSON read in `load_characters_data` (its result is a parameter, so its fallback roster is not modelled), and pandas `to_csv`.
- The temp-file name that `tempfile` chooses is a parameter (`tempStem`).
- Float formatting (`:.1f`, `:.2f`, `/60`) and IEEE rounding are not modelled. Seconds are exact reals.
- SceneDetection.SceneDetector.ExportScenesCsv: the Duration column is the number, not the `f"{d:.2f}s"` string.
- Text.LowerAscii: only ASCII letters are lower-cased. Python's Unicode case mapping is not modelled.
- SceneDetection.PathName: only POSIX `/` paths are modelled, not Windows drive letters or backslashes.
- SceneDetection.SceneDetector.ProcessScenes: the `except` around each entry is not modelled. A well-formed entry cannot raise in the model, so only the two explicit skip conditions drop entries.
- App.AfterProcessClick: Python object identity is modelled by numbers, not by references. `selected_scene` is one of the dicts of the scene list. Each list stored under `scenes` gets a new number (`listId`), at app.py:58, 183 and 223. The selection records the list number and position it was taken from. The mark shows through it exactly when that list is still the session's and the marked position is its own. Other references to the same dicts (for example the `scenes` local of `render_sidebar`) are not modelled.
- App: the slider threshold (default 27) is passed to the detector but never stored. `threshold` in the session stays at its initial 30.0, because the source never writes it.
- Demo: merge and split have no semantics in the source, which only shows a message. The model records only those messages and proves that no scene changes.
- Demo.AfterAnnotation: the multiselect's guarantee that every chosen name is an option appears as a hypothesis of the roster invariant (`AfterAnnotationValid`), not as a check.

## Findings

| source | as written | input that shows it | evidently intended | confidence | as-written member | corrected member |
|---|---|---|---|---|---|---|
| app.py:410 | the "send to processing" button is disabled when the status is `"Procesado"`, but line 419 sets `"processed"` and nothing ever sets `"Procesado"`; the session model keeps this check, and the invariant `StatusesKnown` shows it never disables the button (`App.ProcessButtonNeverDisabledInSession`) | select a detected scene and click the button; its status becomes `processed`, yet the button stays enabled | disabled once the status is `processed` | high, not executed | App.ProcessButtonNeverDisabledAsWritten | App.ProcessButtonDisabledOnceMarked |
