/** The visual scene editor demo (app-demo.py).

    The demo keeps three session keys: the scene list, the id of the
    selected scene and a placeholder video path. A button loads five sample
    scenes; clicking a timeline chip selects a scene by id; the annotation
    panel writes the multiselect's characters and the text area's notes into
    the selected scene on every rerun; the merge and split buttons only show
    a message. Widget values come in as parameters. */
module Demo {
  import opened Wrappers
  import opened Text
  import opened SceneDetection

  /** A scene record of the demo: fewer fields than the detector's. */
  datatype DemoScene = DemoScene(
    id: string,
    startTime: real,
    endTime: real,
    duration: real,
    notes: string,
    characters: seq<string>)

  datatype DemoKey = ScenesKey | SelectedSceneIdKey | VideoPathKey

  const DemoKeys: set<DemoKey> := {ScenesKey, SelectedSceneIdKey, VideoPathKey}

  /** The session dictionary; a value under a key not in `present` is
      meaningless. */
  datatype DemoSession = DemoSession(
    present: set<DemoKey>,
    scenes: seq<DemoScene>,
    selectedSceneId: Option<string>,
    videoPath: Option<string>)

  /** The character names the annotation multiselect offers. */
  const Roster: seq<string> :=
    ["Eleven", "Max", "Dustin", "Lucas", "Mike", "Eddie", "Steve", "Nancy", "Robin"]

  /** The path the simulated analysis records. */
  const PlaceholderPath: string := "path/to/your/video.mp4"

  // ---------------------------------------------------------------------
  // initialize_state

  /** Missing keys get `[]`, None and None; present keys keep their value. */
  function InitializedState(s: DemoSession): DemoSession {
    DemoSession(
      present := s.present + DemoKeys,
      scenes := if ScenesKey in s.present then s.scenes else [],
      selectedSceneId := if SelectedSceneIdKey in s.present then s.selectedSceneId else None,
      videoPath := if VideoPathKey in s.present then s.videoPath else None)
  }

  lemma InitializedStateEffect(s: DemoSession)
    ensures DemoKeys <= InitializedState(s).present
    ensures ScenesKey in s.present ==> InitializedState(s).scenes == s.scenes
    ensures ScenesKey !in s.present ==> InitializedState(s).scenes == []
    ensures SelectedSceneIdKey in s.present ==> InitializedState(s).selectedSceneId == s.selectedSceneId
    ensures SelectedSceneIdKey !in s.present ==> InitializedState(s).selectedSceneId == None
    ensures VideoPathKey in s.present ==> InitializedState(s).videoPath == s.videoPath
    ensures VideoPathKey !in s.present ==> InitializedState(s).videoPath == None
    ensures InitializedState(InitializedState(s)) == InitializedState(s)
  {
  }

  // ---------------------------------------------------------------------
  // get_sample_scenes and the simulated analysis

  function SampleDemoScene(id: string, start: real, end: real, duration: real): DemoScene {
    DemoScene(id, start, end, duration, "", [])
  }

  /** Five scenes, 0 to 71 seconds, no notes, no characters. */
  function DemoSampleScenes(): seq<DemoScene> {
    [SampleDemoScene("scene_001", 0.0, 8.0, 8.0),
     SampleDemoScene("scene_002", 8.0, 13.0, 5.0),
     SampleDemoScene("scene_003", 13.0, 28.0, 15.0),
     SampleDemoScene("scene_004", 28.0, 63.0, 35.0),
     SampleDemoScene("scene_005", 63.0, 71.0, 8.0)]
  }

  /** Each sample scene ends where the next begins and lasts end - start
      seconds; together they cover 0 to 71 seconds. */
  lemma DemoSampleScenesShape()
    ensures |DemoSampleScenes()| == 5
    ensures forall k :: 0 <= k < 5 ==>
      var s := DemoSampleScenes()[k];
      && s.duration == s.endTime - s.startTime && s.startTime < s.endTime
      && s.notes == "" && s.characters == []
    ensures forall k :: 0 <= k < 4 ==> DemoSampleScenes()[k].endTime == DemoSampleScenes()[k + 1].startTime
    ensures DemoSampleScenes()[0].startTime == 0.0 && DemoSampleScenes()[4].endTime == 71.0
    ensures forall k :: 0 <= k < 5 ==> DemoSampleScenes()[k].duration == [8.0, 5.0, 15.0, 35.0, 8.0][k]
  {
  }

  /** The sample ids are pairwise distinct, and each is `scene_` followed
      by its position + 1 in three digits. */
  lemma DemoSampleIdsDistinct()
    ensures forall i, j :: 0 <= i < j < |DemoSampleScenes()| ==> DemoSampleScenes()[i].id != DemoSampleScenes()[j].id
    ensures forall k :: 0 <= k < |DemoSampleScenes()| ==>
      |DemoSampleScenes()[k].id| == 9 && DemoSampleScenes()[k].id[..8] == "scene_00"
      && DemoSampleScenes()[k].id[8] == DigitChar(k + 1)
  {
    var s := DemoSampleScenes();
    forall k | 0 <= k < 5
      ensures |s[k].id| == 9 && s[k].id[..8] == "scene_00" && s[k].id[8] == DigitChar(k + 1)
    {
    }
    forall i, j | 0 <= i < j < 5 ensures s[i].id != s[j].id {
      assert s[i].id[8] != s[j].id[8];
    }
  }

  /** The "simulate analysis" button is shown only while there are no
      scenes; pressing it loads the samples and the placeholder path. */
  function AfterSimulate(s: DemoSession, clicked: bool): DemoSession {
    if |s.scenes| == 0 && clicked then
      s.(scenes := DemoSampleScenes(), videoPath := Some(PlaceholderPath))
    else s
  }

  /** Samples are loaded only into an empty list, together with the
      placeholder path; the selection is never touched. */
  lemma AfterSimulateEffect(s: DemoSession, clicked: bool)
    ensures |s.scenes| > 0 || !clicked ==> AfterSimulate(s, clicked) == s
    ensures |s.scenes| == 0 && clicked ==>
      AfterSimulate(s, clicked).scenes == DemoSampleScenes() &&
      AfterSimulate(s, clicked).videoPath == Some(PlaceholderPath)
    ensures AfterSimulate(s, clicked).selectedSceneId == s.selectedSceneId
    ensures |AfterSimulate(s, clicked).scenes| > 0 ==> AfterSimulate(AfterSimulate(s, clicked), true) == AfterSimulate(s, clicked)
  {
  }

  // ---------------------------------------------------------------------
  // Looking a scene up by id

  /** `next(((i, s) for i, s in enumerate(scenes) if s['id'] == id),
      (None, None))`, reduced to the index. The same first-match search as
      `App.FirstIndexOf`, over the demo's own scene record. */
  function FindScene(scenes: seq<DemoScene>, id: string): (r: Option<nat>)
    ensures r.Some? ==> r.value < |scenes| && scenes[r.value].id == id
    ensures r.Some? ==> forall j :: 0 <= j < r.value ==> scenes[j].id != id
    ensures r.None? ==> forall j :: 0 <= j < |scenes| ==> scenes[j].id != id
  {
    if |scenes| == 0 then None
    else if scenes[0].id == id then Some(0)
    else
      match FindScene(scenes[1..], id)
      case None => None
      case Some(i) => Some(i + 1)
  }

  /** `FindScene` agrees with a plain search: when the ids are distinct, it
      finds the one scene that carries the id. */
  lemma FindSceneDistinct(scenes: seq<DemoScene>, k: nat)
    requires k < |scenes|
    requires forall i, j :: 0 <= i < j < |scenes| ==> scenes[i].id != scenes[j].id
    ensures FindScene(scenes, scenes[k].id) == Some(k)
  {
  }

  /** Python truthiness of an optional string: None and "" are false. */
  predicate Truthy(id: Option<string>) {
    id.Some? && |id.value| > 0
  }

  // ---------------------------------------------------------------------
  // render_timeline

  /** A chip is disabled when its scene is the selected one. */
  predicate ChipDisabled(s: DemoSession, k: nat)
    requires k < |s.scenes|
  {
    Some(s.scenes[k].id) == s.selectedSceneId
  }

  /** Clicking chip `k`: an enabled chip selects its scene; a disabled one
      cannot be clicked. */
  function AfterChipClick(s: DemoSession, k: nat): DemoSession
    requires k < |s.scenes|
  {
    if ChipDisabled(s, k) then s else s.(selectedSceneId := Some(s.scenes[k].id))
  }

  /** After a click on chip `k` its scene is the selection, and that chip is
      now the disabled one; nothing but the selection changes. */
  lemma AfterChipClickEffect(s: DemoSession, k: nat)
    requires k < |s.scenes|
    ensures AfterChipClick(s, k).selectedSceneId == Some(s.scenes[k].id)
    ensures AfterChipClick(s, k) == s.(selectedSceneId := AfterChipClick(s, k).selectedSceneId)
    ensures ChipDisabled(AfterChipClick(s, k), k)
    ensures forall j :: 0 <= j < |s.scenes| && s.scenes[j].id != s.scenes[k].id ==>
              !ChipDisabled(AfterChipClick(s, k), j)
  {
  }

  // ---------------------------------------------------------------------
  // render_annotation_panel

  /** The panel, rendered only when there are scenes. With no selection it
      does nothing; a selection that names no scene is cleared; otherwise
      the widgets' values are written into that scene's `characters` and
      `notes`. */
  function AfterAnnotation(s: DemoSession, chars: seq<string>, notes: string): DemoSession {
    if |s.scenes| == 0 || s.selectedSceneId.None? then s
    else
      match FindScene(s.scenes, s.selectedSceneId.value)
      case None => s.(selectedSceneId := None)
      case Some(i) => s.(scenes := s.scenes[i := s.scenes[i].(characters := chars, notes := notes)])
  }

  /** Only the found scene changes, and in it only the two annotation
      fields; a stale selection is cleared and no scene is written. */
  lemma AfterAnnotationEffect(s: DemoSession, chars: seq<string>, notes: string)
    requires |s.scenes| > 0 && s.selectedSceneId.Some?
    ensures var r := AfterAnnotation(s, chars, notes);
      match FindScene(s.scenes, s.selectedSceneId.value)
      case None => r.selectedSceneId == None && r.scenes == s.scenes
      case Some(i) =>
        && r.selectedSceneId == s.selectedSceneId
        && |r.scenes| == |s.scenes|
        && r.scenes[i].characters == chars && r.scenes[i].notes == notes
        && r.scenes[i].(characters := s.scenes[i].characters, notes := s.scenes[i].notes) == s.scenes[i]
        && (forall j :: 0 <= j < |s.scenes| && j != i ==> r.scenes[j] == s.scenes[j])
    ensures AfterAnnotation(s, chars, notes).present == s.present
    ensures AfterAnnotation(s, chars, notes).videoPath == s.videoPath
  {
  }

  /** The panel writes on every rerun; rerunning with the same widget values
      changes nothing more. */
  lemma {:induction false} AfterAnnotationIdempotent(s: DemoSession, chars: seq<string>, notes: string)
    ensures AfterAnnotation(AfterAnnotation(s, chars, notes), chars, notes) == AfterAnnotation(s, chars, notes)
  {
    if |s.scenes| > 0 && s.selectedSceneId.Some? {
      var id := s.selectedSceneId.value;
      var f := FindScene(s.scenes, id);
      if f.Some? {
        var r := AfterAnnotation(s, chars, notes);
        FindSceneSameIds(s.scenes, r.scenes, id);
      }
    }
  }

  /** Writing annotations never changes ids, so lookups are unaffected
      (the demo's counterpart of `App.FirstIndexOfSameIds`). */
  lemma {:induction false} FindSceneSameIds(a: seq<DemoScene>, b: seq<DemoScene>, id: string)
    requires |a| == |b| && forall j :: 0 <= j < |a| ==> a[j].id == b[j].id
    ensures FindScene(a, id) == FindScene(b, id)
  {
    if |a| > 0 && a[0].id != id {
      FindSceneSameIds(a[1..], b[1..], id);
    }
  }

  // ---------------------------------------------------------------------
  // render_editing_tools

  /** Merge needs at least two selected ids. */
  predicate MergeEnabled(toMerge: seq<string>) {
    |toMerge| >= 2
  }

  /** The split section is shown for a truthy selection, and its button
      needs a positive cut time. */
  predicate SplitEnabled(selectedSceneId: Option<string>, cut: real) {
    Truthy(selectedSceneId) && cut > 0.0
  }

  /** The messages the editing tools show: the number of scenes merged and
      the scene and time of a cut. Neither changes any scene. */
  datatype EditFeedback = EditFeedback(merged: Option<nat>, split: Option<(string, real)>)

  // ---------------------------------------------------------------------
  // The player start

  /** `int(start_time)` of the selected scene, or 0 without a (truthy)
      selection that names a scene. */
  function PlayerStart(s: DemoSession): int {
    if !Truthy(s.selectedSceneId) then 0
    else
      match FindScene(s.scenes, s.selectedSceneId.value)
      case None => 0
      case Some(i) => Trunc(s.scenes[i].startTime)
  }

  /** The player starts at the whole second at or before the selected scene's
      start (for non-negative starts), never before 0, and at 0 when no
      truthy selection names a scene. */
  lemma PlayerStartBounds(s: DemoSession)
    requires forall k :: 0 <= k < |s.scenes| ==> s.scenes[k].startTime >= 0.0
    ensures PlayerStart(s) >= 0
    ensures Truthy(s.selectedSceneId) && FindScene(s.scenes, s.selectedSceneId.value).Some? ==>
      var t := s.scenes[FindScene(s.scenes, s.selectedSceneId.value).value].startTime;
      PlayerStart(s) as real <= t < PlayerStart(s) as real + 1.0
    ensures !Truthy(s.selectedSceneId) || FindScene(s.scenes, s.selectedSceneId.value).None? ==>
      PlayerStart(s) == 0
  {
  }

  // ---------------------------------------------------------------------
  // Invariants of the demo session

  /** Every selection names an existing scene, every annotated character
      comes from the roster, and ids are distinct. */
  predicate DemoValid(s: DemoSession) {
    && DemoKeys <= s.present
    && (s.selectedSceneId.Some? ==> exists k :: 0 <= k < |s.scenes| && s.scenes[k].id == s.selectedSceneId.value)
    && (forall k :: 0 <= k < |s.scenes| ==> forall c :: c in s.scenes[k].characters ==> c in Roster)
    && (forall i, j :: 0 <= i < j < |s.scenes| ==> s.scenes[i].id != s.scenes[j].id)
  }

  lemma InitialDemoValid(s: DemoSession)
    requires s.present == {}
    ensures DemoValid(InitializedState(s))
  {
  }

  lemma AfterSimulateValid(s: DemoSession, clicked: bool)
    requires DemoValid(s)
    ensures DemoValid(AfterSimulate(s, clicked))
  {
    DemoSampleScenesShape();
    DemoSampleIdsDistinct();
  }

  lemma AfterChipClickValid(s: DemoSession, k: nat)
    requires DemoValid(s) && k < |s.scenes|
    ensures DemoValid(AfterChipClick(s, k))
  {
  }

  /** The annotation write keeps the session valid when the multiselect
      offers only roster names. */
  lemma AfterAnnotationValid(s: DemoSession, chars: seq<string>, notes: string)
    requires DemoValid(s)
    requires forall c :: c in chars ==> c in Roster
    ensures DemoValid(AfterAnnotation(s, chars, notes))
  {
    if |s.scenes| > 0 && s.selectedSceneId.Some? {
      var f := FindScene(s.scenes, s.selectedSceneId.value);
      if f.Some? {
        var r := AfterAnnotation(s, chars, notes);
        var k :| 0 <= k < |s.scenes| && s.scenes[k].id == s.selectedSceneId.value;
        assert r.scenes[k].id == s.selectedSceneId.value;
      }
    }
  }

  /** In a valid session the "scene not found" branch never runs: the
      selection always names a scene, and the annotation lands on it. */
  lemma StaleSelectionUnreachable(s: DemoSession)
    requires DemoValid(s) && s.selectedSceneId.Some?
    ensures FindScene(s.scenes, s.selectedSceneId.value).Some?
  {
    var k :| 0 <= k < |s.scenes| && s.scenes[k].id == s.selectedSceneId.value;
    FindSceneDistinct(s.scenes, k);
  }

  // ---------------------------------------------------------------------
  // The session dictionary

  class DemoState {
    var present: set<DemoKey>
    var scenes: seq<DemoScene>
    var selectedSceneId: Option<string>
    var videoPath: Option<string>

    function Snapshot(): DemoSession
      reads this
    {
      DemoSession(present, scenes, selectedSceneId, videoPath)
    }

    /** A new user session: no key exists yet. */
    constructor ()
      ensures present == {}
    {
      present, scenes, selectedSceneId, videoPath := {}, [], None, None;
    }

    method InitializeState()
      modifies this
      ensures Snapshot() == InitializedState(old(Snapshot()))
    {
      if ScenesKey !in present {
        scenes := [];
      }
      if SelectedSceneIdKey !in present {
        selectedSceneId := None;
      }
      if VideoPathKey !in present {
        videoPath := None;
      }
      present := present + DemoKeys;
    }

    /** The sidebar's "simulate analysis" button. */
    method SimulateAnalysis(clicked: bool)
      modifies this
      ensures Snapshot() == AfterSimulate(old(Snapshot()), clicked)
    {
      if |scenes| == 0 {
        if clicked {
          scenes := DemoSampleScenes();
          videoPath := Some(PlaceholderPath);
        }
      }
    }

    /** A click on the chip of scene `k` in `render_timeline`. */
    method ClickChip(k: nat)
      requires k < |scenes|
      modifies this
      ensures Snapshot() == AfterChipClick(old(Snapshot()), k)
    {
      var isSelected := Some(scenes[k].id) == selectedSceneId;
      if !isSelected {
        selectedSceneId := Some(scenes[k].id);
      }
    }

    /** `render_annotation_panel` with the multiselect's and text area's
        values. */
    method RenderAnnotationPanel(chars: seq<string>, notes: string)
      modifies this
      ensures Snapshot() == AfterAnnotation(old(Snapshot()), chars, notes)
    {
      if |scenes| == 0 || selectedSceneId.None? {
        return;
      }
      var found := FindScene(scenes, selectedSceneId.value);
      if found.None? {
        selectedSceneId := None;
        return;
      }
      var i := found.value;
      scenes := scenes[i := scenes[i].(characters := chars)];
      scenes := scenes[i := scenes[i].(notes := notes)];
    }

    /** `render_editing_tools`: the messages shown for the merge and split
        buttons; no state changes. */
    method RenderEditingTools(toMerge: seq<string>, mergeClicked: bool, cut: real, splitClicked: bool)
      returns (feedback: EditFeedback)
      ensures feedback.merged.Some? <==> mergeClicked && MergeEnabled(toMerge)
      ensures feedback.merged.Some? ==> feedback.merged.value == |toMerge| && feedback.merged.value >= 2
      ensures feedback.split.Some? <==> splitClicked && SplitEnabled(selectedSceneId, cut)
      ensures feedback.split.Some? ==>
        Some(feedback.split.value.0) == selectedSceneId && feedback.split.value.1 > 0.0
    {
      var merged: Option<nat> := None;
      if mergeClicked && |toMerge| >= 2 {
        merged := Some(|toMerge|);
      }
      var split: Option<(string, real)> := None;
      if selectedSceneId.Some? && |selectedSceneId.value| > 0 {
        if splitClicked && !(cut <= 0.0) {
          split := Some((selectedSceneId.value, cut));
        }
      }
      feedback := EditFeedback(merged, split);
    }
  }
}
