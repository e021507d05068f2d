/** The main app's session state (app.py).

    Streamlit keeps a per-user dictionary across reruns; with the widgets
    stripped away the app is a record of a few keys that change in a fixed
    set of steps: initialise missing keys, take in an upload, run the
    analysis, select a scene, and mark the selected scene processed. Each
    step is a function on `Session` values; `SessionState` is the mutable
    dictionary whose methods perform the steps and are proved to agree with
    those functions. Widget values (the uploaded file, button clicks, the
    slider) and the outside world (temp-file names, the file system, the
    detector) arrive as parameters. */
module App {
  import opened Wrappers
  import opened Text
  import opened SceneDetection

  /** The uploaded file, as far as the state logic looks at it. */
  datatype Upload = Upload(name: string)

  /** An entry of the character roster. */
  datatype Character = Character(name: string, actor: string)

  /** The session keys `initialize_session_state` manages. */
  datatype Key =
    | VideoFileKey | VideoPathKey | ThresholdKey | ScenesKey
    | SelectedSceneKey | CharactersDataKey | AnalysisCompletedKey | VideoInfoKey

  const AllKeys: set<Key> :=
    {VideoFileKey, VideoPathKey, ThresholdKey, ScenesKey,
     SelectedSceneKey, CharactersDataKey, AnalysisCompletedKey, VideoInfoKey}

  const DefaultThreshold: real := 30.0

  /** `selected_scene` is not a copy: it is one of the dicts of the list
      that was under `scenes` when the scene was picked. `scene` is that
      dict's current value; `list` numbers the list it belongs to and
      `position` is its place there. While that list is still the
      session's, the dict is `scenes[position]`. */
  datatype Selection = Selection(scene: Scene, list: nat, position: nat)

  /** The session dictionary: `present` holds the keys that exist; the value
      of a key not in `present` is meaningless. `listId` numbers the list
      object under `scenes`: every assignment of a new list gives it a new
      number, while marking a scene changes the list in place and keeps it.
      `videoInfo` is only ever initialised to None. */
  datatype Session = Session(
    present: set<Key>,
    videoFile: Option<Upload>,
    videoPath: Option<string>,
    threshold: real,
    scenes: seq<Scene>,
    listId: nat,
    selectedScene: Option<Selection>,
    charactersData: seq<Character>,
    analysisCompleted: bool,
    videoInfo: Option<string>)

  // ---------------------------------------------------------------------
  // initialize_session_state

  /** The session after `initialize_session_state`: every missing key gets
      its default, every existing key keeps its value. `loaded` is what
      `load_characters_data()` returns. */
  function Initialized(s: Session, loaded: seq<Character>): Session {
    Session(
      present := s.present + AllKeys,
      videoFile := if VideoFileKey in s.present then s.videoFile else None,
      videoPath := if VideoPathKey in s.present then s.videoPath else None,
      threshold := if ThresholdKey in s.present then s.threshold else DefaultThreshold,
      scenes := if ScenesKey in s.present then s.scenes else [],
      listId := if ScenesKey in s.present then s.listId else s.listId + 1,
      selectedScene := if SelectedSceneKey in s.present then s.selectedScene else None,
      charactersData := if CharactersDataKey in s.present then s.charactersData else loaded,
      analysisCompleted := if AnalysisCompletedKey in s.present then s.analysisCompleted else false,
      videoInfo := if VideoInfoKey in s.present then s.videoInfo else None)
  }

  /** `a` and `b` hold the same value under key `k`. */
  predicate SameAt(a: Session, b: Session, k: Key) {
    match k
    case VideoFileKey => a.videoFile == b.videoFile
    case VideoPathKey => a.videoPath == b.videoPath
    case ThresholdKey => a.threshold == b.threshold
    case ScenesKey => a.scenes == b.scenes
    case SelectedSceneKey => a.selectedScene == b.selectedScene
    case CharactersDataKey => a.charactersData == b.charactersData
    case AnalysisCompletedKey => a.analysisCompleted == b.analysisCompleted
    case VideoInfoKey => a.videoInfo == b.videoInfo
  }

  /** `s` holds the default value under key `k`. */
  predicate DefaultAt(s: Session, k: Key, loaded: seq<Character>) {
    match k
    case VideoFileKey => s.videoFile == None
    case VideoPathKey => s.videoPath == None
    case ThresholdKey => s.threshold == DefaultThreshold
    case ScenesKey => s.scenes == []
    case SelectedSceneKey => s.selectedScene == None
    case CharactersDataKey => s.charactersData == loaded
    case AnalysisCompletedKey => !s.analysisCompleted
    case VideoInfoKey => s.videoInfo == None
  }

  /** Initialising makes every key present, leaves each existing key's value
      alone and gives each missing key its default. */
  lemma InitializedSetsOnlyMissing(s: Session, loaded: seq<Character>)
    ensures AllKeys <= Initialized(s, loaded).present
    ensures forall k :: k in s.present ==> SameAt(s, Initialized(s, loaded), k)
    ensures forall k :: k !in s.present ==> DefaultAt(Initialized(s, loaded), k, loaded)
  {
    var r := Initialized(s, loaded);
    forall k | k in s.present ensures SameAt(s, r, k) {
      match k
      case VideoFileKey =>
      case VideoPathKey =>
      case ThresholdKey =>
      case ScenesKey =>
      case SelectedSceneKey =>
      case CharactersDataKey =>
      case AnalysisCompletedKey =>
      case VideoInfoKey =>
    }
    forall k | k !in s.present ensures DefaultAt(r, k, loaded) {
      match k
      case VideoFileKey =>
      case VideoPathKey =>
      case ThresholdKey =>
      case ScenesKey =>
      case SelectedSceneKey =>
      case CharactersDataKey =>
      case AnalysisCompletedKey =>
      case VideoInfoKey =>
    }
  }

  /** Running the initialisation again on every rerun changes nothing,
      whatever the roster file says the second time. */
  lemma InitializedIdempotent(s: Session, first: seq<Character>, again: seq<Character>)
    ensures Initialized(Initialized(s, first), again) == Initialized(s, first)
  {
  }

  /** Once every key exists, initialising is the identity, so it keeps
      every invariant below. */
  lemma InitializedKeepsSession(s: Session, loaded: seq<Character>)
    requires AllKeys <= s.present
    ensures Initialized(s, loaded) == s
  {
    assert forall k :: k in AllKeys ==> k in s.present;
  }

  // ---------------------------------------------------------------------
  // The invariant every step keeps

  /** A selection refers to a list that exists, and while that list is the
      session's, the selected dict is the record at its position. */
  predicate SelectionAliases(s: Session) {
    s.selectedScene.Some? ==>
      var sel := s.selectedScene.value;
      && sel.list <= s.listId
      && (sel.list == s.listId ==> sel.position < |s.scenes| && s.scenes[sel.position] == sel.scene)
  }

  /** Every key exists; the file and its temp path are set together; a
      completed analysis always has a file and at least one scene; the
      selection is a dict of the current list or of an older one. */
  predicate Consistent(s: Session) {
    && AllKeys <= s.present
    && (s.videoFile.Some? <==> s.videoPath.Some?)
    && (s.analysisCompleted ==> s.videoFile.Some? && |s.scenes| > 0)
    && SelectionAliases(s)
  }

  /** The statuses the program ever assigns: `detected` when a record is
      built, `processed` when it is marked. */
  predicate KnownStatus(status: string) {
    status == StatusDetected || status == StatusProcessed
  }

  /** Every scene, and the selected one, has a status the program assigns. */
  predicate StatusesKnown(s: Session) {
    && (forall j :: 0 <= j < |s.scenes| ==> KnownStatus(s.scenes[j].status))
    && (s.selectedScene.Some? ==> KnownStatus(s.selectedScene.value.scene.status))
  }

  /** A brand-new session is consistent once initialised. */
  lemma FreshSessionConsistent(s: Session, loaded: seq<Character>)
    requires s.present == {}
    ensures Consistent(Initialized(s, loaded)) && StatusesKnown(Initialized(s, loaded))
    ensures Initialized(s, loaded).threshold == DefaultThreshold
    ensures Initialized(s, loaded).scenes == [] && !Initialized(s, loaded).analysisCompleted
    ensures Initialized(s, loaded).selectedScene == None
  {
  }

  // ---------------------------------------------------------------------
  // render_sidebar: the upload

  /** The upload is new when no file is loaded yet or its name differs. */
  predicate IsNewFile(current: Option<Upload>, uploaded: Upload) {
    current.None? || current.value.name != uploaded.name
  }

  /** Where the upload is saved: a temp file whose name ends in `_<name>`. */
  function TempPath(tempStem: string, name: string): string {
    tempStem + "_" + name
  }

  /** The session after the uploader reports `uploaded`: a new file is
      recorded with its temp path and clears the analysis flag; no upload,
      or the same file again, changes nothing. */
  function AfterUpload(s: Session, uploaded: Option<Upload>, tempStem: string): Session {
    match uploaded
    case None => s
    case Some(u) =>
      if IsNewFile(s.videoFile, u) then
        s.(videoFile := Some(u), videoPath := Some(TempPath(tempStem, u.name)), analysisCompleted := false)
      else s
  }

  /** A new file is stored with the temp path ending in `_<name>`, clears
      the analysis flag and changes no other key; no upload, or the same
      file again, changes nothing. */
  lemma AfterUploadEffect(s: Session, uploaded: Option<Upload>, tempStem: string)
    ensures var r := AfterUpload(s, uploaded, tempStem);
      && (uploaded.Some? && IsNewFile(s.videoFile, uploaded.value) ==>
            r == s.(videoFile := uploaded, videoPath := Some(TempPath(tempStem, uploaded.value.name)),
                    analysisCompleted := false))
      && (uploaded.None? || !IsNewFile(s.videoFile, uploaded.value) ==> r == s)
    ensures Consistent(s) ==> Consistent(AfterUpload(s, uploaded, tempStem))
    ensures StatusesKnown(s) ==> StatusesKnown(AfterUpload(s, uploaded, tempStem))
  {
  }

  /** A file saved from an upload named `base + ext`, with a supported
      extension in any ASCII case, passes `validate_video_file` (given that
      the temp file exists): the `_<name>` suffix keeps the extension. */
  lemma UploadedFileValidates(tempDir: string, random: string, base: string, ext: string)
    requires Free(random, '/') && Free(base, '/')
    requires LowerAscii(ext) in SupportedExtensions
    ensures ValidateVideoFile(Some(TempPath(tempDir + "/" + random, base + ext)), true)
  {
    var stem := random + "_" + base;
    assert Free(stem, '/') by {
      forall j | 0 <= j < |stem| ensures stem[j] != '/' {
        if j < |random| { assert stem[j] == random[j]; }
        else if j > |random| { assert stem[j] == base[j - |random| - 1]; }
      }
    }
    assert TempPath(tempDir + "/" + random, base + ext) == tempDir + "/" + stem + ext;
    ValidateAcceptsSupported(tempDir, stem, ext);
  }

  // ---------------------------------------------------------------------
  // render_sidebar: the analysis

  /** What the call to `detect_scenes_streamlit` did: returned a list, or
      raised. */
  datatype AnalysisOutcome = Returned(scenes: seq<Scene>) | Raised

  /** The session with a new list object stored under `scenes`. */
  function WithNewList(s: Session, scenes: seq<Scene>): Session {
    s.(scenes := scenes, listId := s.listId + 1, analysisCompleted := true)
  }

  /** The session after the analyse button: it only acts when clicked with a
      file loaded; an invalid file changes nothing; a non-empty result is
      stored and completes the analysis; an empty one changes nothing; an
      exception loads the sample scenes and completes the analysis. */
  function AfterAnalysis(s: Session, clicked: bool, pathExists: bool, outcome: AnalysisOutcome): Session {
    if !(clicked && s.videoFile.Some?) then s
    else if !ValidateVideoFile(s.videoPath, pathExists) then s
    else
      match outcome
      case Returned(scenes) =>
        if |scenes| > 0 then WithNewList(s, scenes) else s
      case Raised => WithNewList(s, SampleScenes())
  }

  /** The analysis touches nothing but `scenes` and the flag; without a
      click, a file or a valid path nothing happens; otherwise a non-empty
      result is stored as it is, an empty one changes nothing, and an
      exception stores the sample scenes; storing a list completes the
      analysis and makes any earlier selection refer to an older list. */
  lemma AfterAnalysisEffect(s: Session, clicked: bool, pathExists: bool, outcome: AnalysisOutcome)
    ensures var r := AfterAnalysis(s, clicked, pathExists, outcome);
      r == s || (r == s.(scenes := r.scenes, listId := s.listId + 1, analysisCompleted := true) && |r.scenes| > 0)
    ensures !clicked || s.videoFile.None? || !ValidateVideoFile(s.videoPath, pathExists) ==>
              AfterAnalysis(s, clicked, pathExists, outcome) == s
    ensures clicked && s.videoFile.Some? && ValidateVideoFile(s.videoPath, pathExists) ==>
              var r := AfterAnalysis(s, clicked, pathExists, outcome);
              && (outcome.Raised? ==> r.scenes == SampleScenes() && r.analysisCompleted && r.listId != s.listId)
              && (outcome.Returned? && |outcome.scenes| > 0 ==>
                    r.scenes == outcome.scenes && r.analysisCompleted && r.listId != s.listId)
              && (outcome.Returned? && |outcome.scenes| == 0 ==> r == s)
    ensures Consistent(s) ==> Consistent(AfterAnalysis(s, clicked, pathExists, outcome))
  {
    SampleScenesShape();
  }

  /** Upload, then analyse: a new upload named `base + ext` with a supported
      extension is saved where validation accepts it, so clicking analyse
      with the temp file on disk stores a non-empty result, or the sample
      scenes when the wrapper raises, and completes the analysis of that
      file; the selection and annotations are left as they were. */
  lemma UploadThenAnalyse(s: Session, u: Upload, tempDir: string, random: string, base: string, ext: string,
                          outcome: AnalysisOutcome)
    requires u.name == base + ext && Free(random, '/') && Free(base, '/')
    requires LowerAscii(ext) in SupportedExtensions
    requires IsNewFile(s.videoFile, u)
    requires outcome.Raised? || |outcome.scenes| > 0
    ensures var up := AfterUpload(s, Some(u), tempDir + "/" + random);
      && ValidateVideoFile(up.videoPath, true)
      && var r := AfterAnalysis(up, true, true, outcome);
         && r.scenes == (if outcome.Raised? then SampleScenes() else outcome.scenes)
         && r.analysisCompleted && r.listId == s.listId + 1
         && r.videoFile == Some(u) && r.videoPath == Some(TempPath(tempDir + "/" + random, u.name))
         && r.selectedScene == s.selectedScene && r.charactersData == s.charactersData
  {
    AfterUploadEffect(s, Some(u), tempDir + "/" + random);
    UploadedFileValidates(tempDir, random, base, ext);
  }

  /** Every record the wrapper can hand back, and every sample record, is
      `detected`, so the analysis keeps every status one the program
      assigns. */
  lemma AnalysisKeepsStatuses(s: Session, clicked: bool, pathExists: bool, output: DetectorOutput, wrapperRaised: bool)
    requires StatusesKnown(s)
    ensures StatusesKnown(AfterAnalysis(s, clicked, pathExists,
              if wrapperRaised then Raised else Returned(StreamlitScenes(output))))
  {
    SampleScenesShape();
    if output.SceneList? {
      ProcessedBuiltFrom(output.entries);
    }
  }

  /** The scenes `detect_scenes_streamlit` returns for a detector output. */
  function StreamlitScenes(output: DetectorOutput): seq<Scene> {
    match output
    case SceneList(entries) => Processed(entries)
    case DetectorError(_) => []
  }

  /** The wrapper swallows detector exceptions, so a failing detector is seen
      as "no scenes" and leaves the session as it was: the sample-data
      fallback is reached only when the wrapper itself raises. */
  lemma DetectorErrorKeepsSession(s: Session, clicked: bool, pathExists: bool, message: string)
    ensures AfterAnalysis(s, clicked, pathExists, Returned(StreamlitScenes(DetectorError(message)))) == s
  {
  }

  /** A detector list with at least one usable pair, on a valid file, is
      stored exactly as `_process_scenes` builds it. */
  lemma DetectedScenesStored(s: Session, pathExists: bool, entries: seq<RawScene>, i: nat)
    requires s.videoFile.Some? && ValidateVideoFile(s.videoPath, pathExists)
    requires i < |entries| && WellFormed(entries[i])
    ensures var r := AfterAnalysis(s, true, pathExists, Returned(StreamlitScenes(SceneList(entries))));
      r.scenes == Processed(entries) && r.analysisCompleted
  {
    ProcessedComplete(entries, i);
  }

  // ---------------------------------------------------------------------
  // render_main_interface: selecting a scene

  /** The scene buttons exist only once the analysis is complete; the
      button of scene k stores that very dict of the current list. */
  function WithSelection(s: Session, k: nat): Session
    requires s.analysisCompleted && k < |s.scenes|
  {
    s.(selectedScene := Some(Selection(s.scenes[k], s.listId, k)))
  }

  /** Selecting changes only the selection, which then is scene k of the
      current list; the invariants are kept. */
  lemma WithSelectionEffect(s: Session, k: nat)
    requires s.analysisCompleted && k < |s.scenes|
    ensures var r := WithSelection(s, k);
      && r == s.(selectedScene := r.selectedScene)
      && r.selectedScene.Some? && r.selectedScene.value.scene == s.scenes[k]
      && r.selectedScene.value.list == s.listId && r.selectedScene.value.position == k
    ensures Consistent(s) ==> Consistent(WithSelection(s, k))
    ensures StatusesKnown(s) ==> StatusesKnown(WithSelection(s, k))
  {
  }

  // ---------------------------------------------------------------------
  // render_annotation_panel: marking the selected scene processed

  /** `j` is the first position of a scene with this id. */
  predicate IsFirstMatch(scenes: seq<Scene>, id: string, j: int) {
    0 <= j < |scenes| && scenes[j].id == id && forall i :: 0 <= i < j ==> scenes[i].id != id
  }

  /** The position of the first scene with this id, if any. The demo's
      `Demo.FindScene` is the same search over its own scene record. */
  function FirstIndexOf(scenes: seq<Scene>, id: string): (r: Option<nat>)
    ensures r.Some? ==> IsFirstMatch(scenes, id, r.value)
    ensures r.None? ==> forall j :: 0 <= j < |scenes| ==> scenes[j].id != id
  {
    if |scenes| == 0 then None
    else if scenes[0].id == id then Some(0)
    else
      match FirstIndexOf(scenes[1..], id)
      case None => None
      case Some(i) => Some(i + 1)
  }

  /** The list after the loop at app.py:417-420. */
  function MarkedProcessed(scenes: seq<Scene>, id: string): seq<Scene> {
    match FirstIndexOf(scenes, id)
    case None => scenes
    case Some(i) => scenes[i := scenes[i].(status := StatusProcessed)]
  }

  /** Exactly the first scene with the id becomes `processed`; every other
      scene, and every other field of that scene, is unchanged. */
  lemma MarkedProcessedEffect(scenes: seq<Scene>, id: string)
    ensures |MarkedProcessed(scenes, id)| == |scenes|
    ensures forall j :: 0 <= j < |scenes| ==>
      MarkedProcessed(scenes, id)[j] ==
        if IsFirstMatch(scenes, id, j) then scenes[j].(status := StatusProcessed) else scenes[j]
  {
    var r := MarkedProcessed(scenes, id);
    var f := FirstIndexOf(scenes, id);
    forall j | 0 <= j < |scenes|
      ensures r[j] == if IsFirstMatch(scenes, id, j) then scenes[j].(status := StatusProcessed) else scenes[j]
    {
      if IsFirstMatch(scenes, id, j) {
        FirstMatchUnique(scenes, id, j, f);
      } else if f.Some? {
        assert f.value != j;
      }
    }
  }

  /** A position that is the first match is the one `FirstIndexOf` finds. */
  lemma FirstMatchUnique(scenes: seq<Scene>, id: string, j: nat, f: Option<nat>)
    requires IsFirstMatch(scenes, id, j) && f == FirstIndexOf(scenes, id)
    ensures f == Some(j)
  {
  }

  /** Marking never changes ids, so the first match stays where it was
      (`Demo.FindSceneSameIds` is the demo's counterpart). */
  lemma {:induction false} FirstIndexOfSameIds(a: seq<Scene>, b: seq<Scene>, id: string)
    requires |a| == |b| && forall j :: 0 <= j < |a| ==> a[j].id == b[j].id
    ensures FirstIndexOf(a, id) == FirstIndexOf(b, id)
  {
    if |a| > 0 && a[0].id != id {
      FirstIndexOfSameIds(a[1..], b[1..], id);
    }
  }

  /** Marking the same id twice is the same as marking it once. */
  lemma MarkedProcessedIdempotent(scenes: seq<Scene>, id: string)
    ensures MarkedProcessed(MarkedProcessed(scenes, id), id) == MarkedProcessed(scenes, id)
  {
    var once := MarkedProcessed(scenes, id);
    FirstIndexOfSameIds(scenes, once, id);
  }

  /** app.py:410 as written: the button is disabled when the status reads
      "Procesado" — a label the program never assigns. */
  predicate ProcessButtonDisabledAsWritten(status: string) {
    status == "Procesado"
  }

  /** The evident intent: the button is disabled once the scene has been
      sent to processing. */
  predicate ProcessButtonDisabled(status: string) {
    status == StatusProcessed
  }

  /** As written, the button is enabled for every status the program ever
      gives a scene, including right after the scene was marked. */
  lemma ProcessButtonNeverDisabledAsWritten(scenes: seq<Scene>, id: string, j: nat)
    requires IsFirstMatch(scenes, id, j)
    ensures MarkedProcessed(scenes, id)[j].status == StatusProcessed
    ensures !ProcessButtonDisabledAsWritten(MarkedProcessed(scenes, id)[j].status)
    ensures !ProcessButtonDisabledAsWritten(StatusDetected)
  {
    MarkedProcessedEffect(scenes, id);
  }

  /** With the corrected check the button is enabled on a freshly detected
      scene and disabled on the scene just marked. */
  lemma ProcessButtonDisabledOnceMarked(scenes: seq<Scene>, id: string, j: nat)
    requires IsFirstMatch(scenes, id, j)
    ensures ProcessButtonDisabled(MarkedProcessed(scenes, id)[j].status)
    ensures !ProcessButtonDisabled(StatusDetected)
  {
    MarkedProcessedEffect(scenes, id);
  }

  /** The selection is the dict the loop at app.py:417-420 marks: its list
      is still the session's and it sits at the first matching position. */
  predicate MarksSelection(s: Session, sel: Selection) {
    var i := FirstIndexOf(s.scenes, sel.scene.id);
    i.Some? && sel.list == s.listId && sel.position == i.value
  }

  /** The session after the "send to processing" button. The panel only
      exists once the analysis is complete and a scene is selected, and the
      button is disabled by the check of app.py:410 as written. The list is
      marked in place; the mark shows through `selected_scene` exactly when
      the selection is the dict that was marked. */
  function AfterProcessClick(s: Session, clicked: bool): Session {
    if !s.analysisCompleted || s.selectedScene.None? then s
    else
      var sel := s.selectedScene.value;
      if !clicked || ProcessButtonDisabledAsWritten(sel.scene.status) then s
      else
        s.(scenes := MarkedProcessed(s.scenes, sel.scene.id),
           selectedScene :=
             if MarksSelection(s, sel) then Some(sel.(scene := sel.scene.(status := StatusProcessed)))
             else s.selectedScene)
  }

  /** A click on an enabled button marks the first scene with the selected
      id; the selection shows the mark when it is that dict and is left
      alone otherwise (for example when it belongs to a list an analysis
      has since replaced). When the selection is the marked dict, it still
      is the list's record afterwards, and a second click changes nothing. */
  lemma AfterProcessClickEffect(s: Session)
    requires Consistent(s) && s.analysisCompleted && s.selectedScene.Some?
    ensures var sel := s.selectedScene.value;
      var r := AfterProcessClick(s, true);
      && (ProcessButtonDisabledAsWritten(sel.scene.status) ==> r == s)
      && (!ProcessButtonDisabledAsWritten(sel.scene.status) ==>
            && r.scenes == MarkedProcessed(s.scenes, sel.scene.id)
            && r.listId == s.listId
            && (!MarksSelection(s, sel) ==> r.selectedScene == s.selectedScene)
            && (MarksSelection(s, sel) ==>
                  && r.selectedScene == Some(sel.(scene := r.scenes[sel.position]))
                  && r.scenes[sel.position].status == StatusProcessed
                  && AfterProcessClick(r, true) == r))
  {
    var sel := s.selectedScene.value;
    if !ProcessButtonDisabledAsWritten(sel.scene.status) && MarksSelection(s, sel) {
      MarkedProcessedEffect(s.scenes, sel.scene.id);
      MarkedProcessedIdempotent(s.scenes, sel.scene.id);
      var r := AfterProcessClick(s, true);
      FirstIndexOfSameIds(s.scenes, r.scenes, sel.scene.id);
    }
  }

  /** Select-then-process on a list with distinct ids (as `_process_scenes`
      produces): the chosen scene, and only it, becomes `processed`, and the
      selection shows the new status. */
  lemma SelectThenProcess(s: Session, k: nat)
    requires s.analysisCompleted && k < |s.scenes|
    requires forall i, j :: 0 <= i < j < |s.scenes| ==> s.scenes[i].id != s.scenes[j].id
    requires !ProcessButtonDisabledAsWritten(s.scenes[k].status)
    ensures var r := AfterProcessClick(WithSelection(s, k), true);
      && |r.scenes| == |s.scenes|
      && r.scenes[k] == s.scenes[k].(status := StatusProcessed)
      && (forall j :: 0 <= j < |s.scenes| && j != k ==> r.scenes[j] == s.scenes[j])
      && r.selectedScene == Some(Selection(r.scenes[k], s.listId, k))
  {
    var id := s.scenes[k].id;
    assert IsFirstMatch(s.scenes, id, k);
    FirstMatchUnique(s.scenes, id, k, FirstIndexOf(s.scenes, id));
    MarkedProcessedEffect(s.scenes, id);
  }

  /** Select, process, analyse again, process again: the new analysis
      stores a fresh list, so the old selection (already `processed`) is no
      longer one of its dicts; the button is still enabled, the second click
      marks the first scene of the new list with that id, and the old
      selection keeps its own value. */
  lemma ProcessAfterReanalysis(s: Session, k: nat, pathExists: bool, newList: seq<Scene>)
    requires s.analysisCompleted && k < |s.scenes| && s.videoFile.Some?
    requires ValidateVideoFile(s.videoPath, pathExists) && |newList| > 0
    requires forall i, j :: 0 <= i < j < |s.scenes| ==> s.scenes[i].id != s.scenes[j].id
    requires s.scenes[k].status == StatusDetected
    ensures var marked := AfterProcessClick(WithSelection(s, k), true);
      var again := AfterAnalysis(marked, true, pathExists, Returned(newList));
      var r := AfterProcessClick(again, true);
      && again.scenes == newList
      && r.scenes == MarkedProcessed(newList, s.scenes[k].id)
      && r.selectedScene == marked.selectedScene
      && marked.selectedScene.value.scene.status == StatusProcessed
  {
    SelectThenProcess(s, k);
  }

  /** Marking keeps the session consistent and every status one the
      program assigns. */
  lemma AfterProcessClickConsistent(s: Session, clicked: bool)
    ensures Consistent(s) ==> Consistent(AfterProcessClick(s, clicked))
    ensures StatusesKnown(s) ==> StatusesKnown(AfterProcessClick(s, clicked))
  {
    if s.selectedScene.Some? {
      var sel := s.selectedScene.value;
      MarkedProcessedEffect(s.scenes, sel.scene.id);
      if MarksSelection(s, sel) {
        FirstMatchUnique(s.scenes, sel.scene.id, sel.position, FirstIndexOf(s.scenes, sel.scene.id));
      }
    }
  }

  /** As written, the "send to processing" button is enabled in every
      session whose statuses are ones the program assigns: "Procesado"
      never occurs, so app.py:410 never disables it. */
  lemma ProcessButtonNeverDisabledInSession(s: Session)
    requires StatusesKnown(s) && s.selectedScene.Some?
    ensures !ProcessButtonDisabledAsWritten(s.selectedScene.value.scene.status)
  {
  }

  // ---------------------------------------------------------------------
  // Derived figures

  /** `len([s for s in scenes if s.get('status') == 'processed'])`. */
  function CountProcessed(scenes: seq<Scene>): nat {
    if |scenes| == 0 then 0
    else CountProcessed(scenes[..|scenes| - 1]) + (if scenes[|scenes| - 1].status == StatusProcessed then 1 else 0)
  }

  /** `sum(scene['duration'] for scene in scenes)`. */
  function TotalDuration(scenes: seq<Scene>): real {
    if |scenes| == 0 then 0.0
    else TotalDuration(scenes[..|scenes| - 1]) + scenes[|scenes| - 1].duration
  }

  /** `total / count if count > 0 else 0`. */
  function AverageDuration(scenes: seq<Scene>): real {
    if |scenes| > 0 then TotalDuration(scenes) / (|scenes| as real) else 0.0
  }

  /** The positions below `n` whose scene is processed. */
  function ProcessedPositions(scenes: seq<Scene>, n: nat): set<nat>
    requires n <= |scenes|
  {
    set j: nat | j < n && scenes[j].status == StatusProcessed
  }

  lemma {:induction false} CountProcessedPrefix(scenes: seq<Scene>, n: nat)
    requires n <= |scenes|
    ensures CountProcessed(scenes[..n]) == |ProcessedPositions(scenes, n)|
  {
    if n > 0 {
      CountProcessedPrefix(scenes, n - 1);
      assert scenes[..n][..n - 1] == scenes[..n - 1];
      var before := ProcessedPositions(scenes, n - 1);
      assert n - 1 !in before;
      if scenes[n - 1].status == StatusProcessed {
        assert ProcessedPositions(scenes, n) == before + {n - 1};
      } else {
        assert ProcessedPositions(scenes, n) == before;
      }
    } else {
      assert ProcessedPositions(scenes, 0) == {};
    }
  }

  /** The processed count is the number of positions holding a processed
      scene, so it never exceeds the number of scenes. */
  lemma CountProcessedIsSetSize(scenes: seq<Scene>)
    ensures CountProcessed(scenes) == |ProcessedPositions(scenes, |scenes|)|
    ensures CountProcessed(scenes) <= |scenes|
  {
    CountProcessedPrefix(scenes, |scenes|);
    assert scenes[..|scenes|] == scenes;
    var all := ProcessedPositions(scenes, |scenes|);
    BoundedSetSize(all, |scenes|);
  }

  lemma {:induction false} BoundedSetSize(s: set<nat>, n: nat)
    requires forall j :: j in s ==> j < n
    ensures |s| <= n
  {
    if n > 0 {
      var rest := s - {n - 1};
      BoundedSetSize(rest, n - 1);
    } else {
      assert s == {};
    }
  }

  /** Changing one scene changes the count by that scene's contribution. */
  lemma {:induction false} CountProcessedUpdate(scenes: seq<Scene>, i: nat, x: Scene)
    requires i < |scenes|
    ensures CountProcessed(scenes[i := x]) + (if scenes[i].status == StatusProcessed then 1 else 0)
         == CountProcessed(scenes) + (if x.status == StatusProcessed then 1 else 0)
  {
    var n := |scenes| - 1;
    if i < n {
      assert scenes[i := x][..n] == scenes[..n][i := x];
      CountProcessedUpdate(scenes[..n], i, x);
    } else {
      assert scenes[i := x][..n] == scenes[..n];
    }
  }

  /** Changing one scene's status leaves the total duration alone. */
  lemma {:induction false} TotalDurationUpdate(scenes: seq<Scene>, i: nat, x: Scene)
    requires i < |scenes| && x.duration == scenes[i].duration
    ensures TotalDuration(scenes[i := x]) == TotalDuration(scenes)
  {
    var n := |scenes| - 1;
    if i < n {
      assert scenes[i := x][..n] == scenes[..n][i := x];
      TotalDurationUpdate(scenes[..n], i, x);
    } else {
      assert scenes[i := x][..n] == scenes[..n];
    }
  }

  /** Marking adds one to the processed count exactly when a matching scene
      was not yet processed, and leaves the total duration unchanged. */
  lemma MarkedProcessedFigures(scenes: seq<Scene>, id: string)
    ensures var f := FirstIndexOf(scenes, id);
      CountProcessed(MarkedProcessed(scenes, id)) ==
        CountProcessed(scenes) + (if f.Some? && scenes[f.value].status != StatusProcessed then 1 else 0)
    ensures TotalDuration(MarkedProcessed(scenes, id)) == TotalDuration(scenes)
  {
    var f := FirstIndexOf(scenes, id);
    if f.Some? {
      var i := f.value;
      CountProcessedUpdate(scenes, i, scenes[i].(status := StatusProcessed));
      TotalDurationUpdate(scenes, i, scenes[i].(status := StatusProcessed));
    }
  }

  /** Scenes laid end to end, each with duration end - start. */
  predicate Contiguous(scenes: seq<Scene>) {
    && (forall k :: 0 <= k < |scenes| ==> scenes[k].duration == scenes[k].endTime - scenes[k].startTime)
    && (forall k :: 0 <= k < |scenes| - 1 ==> scenes[k].endTime == scenes[k + 1].startTime)
  }

  /** For contiguous scenes the total duration is the span from the first
      start to the last end. */
  lemma {:induction false} TotalDurationOfContiguous(scenes: seq<Scene>)
    requires |scenes| > 0 && Contiguous(scenes)
    ensures TotalDuration(scenes) == scenes[|scenes| - 1].endTime - scenes[0].startTime
  {
    var n := |scenes| - 1;
    if n > 0 {
      var prefix := scenes[..n];
      assert Contiguous(prefix);
      TotalDurationOfContiguous(prefix);
    }
  }

  lemma {:induction false} TotalDurationBounds(scenes: seq<Scene>, lo: real, hi: real)
    requires forall k :: 0 <= k < |scenes| ==> lo <= scenes[k].duration <= hi
    ensures (|scenes| as real) * lo <= TotalDuration(scenes) <= (|scenes| as real) * hi
  {
    if |scenes| > 0 {
      var n := |scenes| - 1;
      TotalDurationBounds(scenes[..n], lo, hi);
      assert (n as real + 1.0) * lo == (n as real) * lo + lo;
      assert (n as real + 1.0) * hi == (n as real) * hi + hi;
    }
  }

  /** The average lies between the smallest and largest duration bounds, and
      times the count gives back the total. */
  lemma AverageDurationBounds(scenes: seq<Scene>, lo: real, hi: real)
    requires |scenes| > 0
    requires forall k :: 0 <= k < |scenes| ==> lo <= scenes[k].duration <= hi
    ensures lo <= AverageDuration(scenes) <= hi
    ensures AverageDuration(scenes) * (|scenes| as real) == TotalDuration(scenes)
  {
    TotalDurationBounds(scenes, lo, hi);
    QuotientBounds(TotalDuration(scenes), |scenes| as real, lo, hi);
  }

  lemma QuotientBounds(t: real, n: real, lo: real, hi: real)
    requires n > 0.0 && n * lo <= t <= n * hi
    ensures lo <= t / n <= hi && (t / n) * n == t
  {
    var a := t / n;
    assert a * n == t;
    assert (a - lo) * n == t - lo * n;
    assert (hi - a) * n == hi * n - t;
    MulSign(a - lo, n);
    MulSign(hi - a, n);
  }

  /** What the sidebar shows: the scene and processed counts, once the
      analysis is complete. */
  function SidebarMetrics(s: Session): (m: Option<(nat, nat)>)
    ensures m.Some? <==> s.analysisCompleted
    ensures m.Some? ==> m.value.0 == |s.scenes| && m.value.1 <= m.value.0
    ensures m.Some? ==> m.value.1 == CountProcessed(s.scenes)
    ensures m.Some? ==> m.value.1 == |ProcessedPositions(s.scenes, |s.scenes|)|
  {
    CountProcessedIsSetSize(s.scenes);
    if s.analysisCompleted then Some((|s.scenes|, CountProcessed(s.scenes))) else None
  }

  // ---------------------------------------------------------------------
  // The session dictionary

  class SessionState {
    var present: set<Key>
    var videoFile: Option<Upload>
    var videoPath: Option<string>
    var threshold: real
    var scenes: seq<Scene>
    var listId: nat
    var selectedScene: Option<Selection>
    var charactersData: seq<Character>
    var analysisCompleted: bool
    var videoInfo: Option<string>

    function Snapshot(): Session
      reads this
    {
      Session(present, videoFile, videoPath, threshold, scenes, listId, selectedScene,
              charactersData, analysisCompleted, videoInfo)
    }

    /** A new user session: no key exists yet. */
    constructor ()
      ensures present == {}
    {
      present := {};
      videoFile, videoPath, threshold := None, None, 0.0;
      scenes, listId, selectedScene, charactersData := [], 0, None, [];
      analysisCompleted, videoInfo := false, None;
    }

    /** `initialize_session_state`, run at the top of every rerun. */
    method InitializeSessionState(loaded: seq<Character>)
      modifies this
      ensures Snapshot() == Initialized(old(Snapshot()), loaded)
    {
      var r := Initialized(Snapshot(), loaded);
      present, videoFile, videoPath, threshold := r.present, r.videoFile, r.videoPath, r.threshold;
      scenes, listId, selectedScene, charactersData := r.scenes, r.listId, r.selectedScene, r.charactersData;
      analysisCompleted, videoInfo := r.analysisCompleted, r.videoInfo;
    }

    /** `render_sidebar`: take in the upload, then run the analysis if the
        button was pressed. `tempStem` is the temp-file name chosen by the
        system, `sliderThreshold` the slider's value (passed to the detector,
        never stored), `output` what the detector does and `wrapperRaised`
        whether `detect_scenes_streamlit` itself raised. */
    method RenderSidebar(uploaded: Option<Upload>, tempStem: string, sliderThreshold: int,
                         clicked: bool, pathExists: bool, output: DetectorOutput, wrapperRaised: bool)
      modifies this
      ensures Snapshot() == AfterAnalysis(
                AfterUpload(old(Snapshot()), uploaded, tempStem), clicked, pathExists,
                if wrapperRaised then Raised else Returned(StreamlitScenes(output)))
    {
      TakeUpload(uploaded, tempStem);
      RunAnalysis(sliderThreshold, clicked, pathExists, output, wrapperRaised);
    }

    /** The file uploader of `render_sidebar` (app.py:96-128). */
    method TakeUpload(uploaded: Option<Upload>, tempStem: string)
      modifies this`videoFile, this`videoPath, this`analysisCompleted
      ensures Snapshot() == AfterUpload(old(Snapshot()), uploaded, tempStem)
    {
      if uploaded.Some? {
        var u := uploaded.value;
        if IsNewFile(videoFile, u) {
          videoFile := Some(u);
          videoPath := Some(TempPath(tempStem, u.name));
          analysisCompleted := false;
        }
      }
    }

    /** The analyse button of `render_sidebar` (app.py:142-228). */
    method RunAnalysis(sliderThreshold: int, clicked: bool, pathExists: bool,
                       output: DetectorOutput, wrapperRaised: bool)
      modifies this`scenes, this`listId, this`analysisCompleted
      ensures Snapshot() == AfterAnalysis(old(Snapshot()), clicked, pathExists,
                if wrapperRaised then Raised else Returned(StreamlitScenes(output)))
    {
      if clicked && videoFile.Some? {
        if ValidateVideoFile(videoPath, pathExists) {
          if wrapperRaised {
            scenes := SampleScenes();
            listId := listId + 1;
            analysisCompleted := true;
          } else {
            var found := DetectScenesStreamlit(videoPath.value, sliderThreshold as real, output);
            if |found| > 0 {
              scenes := found;
              listId := listId + 1;
              analysisCompleted := true;
            }
          }
        }
      }
    }

    /** The per-scene select button of `render_main_interface`. */
    method SelectScene(k: nat)
      requires analysisCompleted && k < |scenes|
      modifies this`selectedScene
      ensures Snapshot() == WithSelection(old(Snapshot()), k)
    {
      selectedScene := Some(Selection(scenes[k], listId, k));
    }

    /** `render_annotation_panel`'s button: walk the list, mark the first
        scene with the selected id, stop. */
    method RenderAnnotationPanel(clicked: bool)
      modifies this
      ensures Snapshot() == AfterProcessClick(old(Snapshot()), clicked)
    {
      if !analysisCompleted || selectedScene.None? {
        return;
      }
      var sel := selectedScene.value;
      if !clicked || ProcessButtonDisabledAsWritten(sel.scene.status) {
        return;
      }
      var i := 0;
      while i < |scenes|
        invariant 0 <= i <= |scenes|
        invariant scenes == old(scenes) && selectedScene == old(selectedScene)
        invariant forall j :: 0 <= j < i ==> scenes[j].id != sel.scene.id
      {
        if scenes[i].id == sel.scene.id {
          assert FirstIndexOf(scenes, sel.scene.id) == Some(i);
          if sel.list == listId && sel.position == i {
            selectedScene := Some(sel.(scene := sel.scene.(status := StatusProcessed)));
          }
          scenes := scenes[i := scenes[i].(status := StatusProcessed)];
          break;
        }
        i := i + 1;
      }
    }
  }
}
