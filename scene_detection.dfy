/** Scene records built from a shot detector's output (utils/scene_detection.py).

    The detector itself (PySceneDetect) is not modelled: its scene list is an
    abstract sequence of entries, each of which should be a pair of timecode
    objects but may be anything. `SceneDetector` keeps the last result in its
    `scenes` field, as the Python class does. */
module SceneDetection {
  import opened Wrappers
  import opened Text

  // ---------------------------------------------------------------------
  // Detector output

  /** One timecode object of a detected pair: `seconds` is what
      `get_seconds()` returns (None when the object has no such method),
      `frames` what `get_frames()` returns (None when absent), and `text`
      is `str(obj)`. */
  datatype Timecode = Timecode(seconds: Option<real>, frames: Option<int>, text: string)

  /** An element of the detector's scene list: a tuple of any length, or
      some value that is not a tuple at all. */
  datatype RawScene = Tuple(items: seq<Timecode>) | NotTuple

  /** What the detector hands back: its scene list, or the exception it
      raised while opening or scanning the video. */
  datatype DetectorOutput = SceneList(entries: seq<RawScene>) | DetectorError(message: string)

  /** The entries `_process_scenes` turns into records: two-element tuples
      whose both elements answer `get_seconds`. */
  predicate WellFormed(e: RawScene) {
    e.Tuple? && |e.items| == 2 && e.items[0].seconds.Some? && e.items[1].seconds.Some?
  }

  // ---------------------------------------------------------------------
  // Scene records

  const StatusDetected: string := "detected"
  const StatusProcessed: string := "processed"

  /** A scene record: the dictionary built per scene, one field per key. */
  datatype Scene = Scene(
    id: string,
    index: nat,
    startTime: real,
    endTime: real,
    duration: real,
    startFrame: int,
    endFrame: int,
    startTimecode: string,
    endTimecode: string,
    status: string,
    characters: seq<string>,
    notes: string,
    aiAnalysis: Option<string>,
    thumbnailPath: Option<string>)

  /** `f"scene_{n:03d}"`. */
  function SceneId(n: nat): string {
    "scene_" + ZeroPad(n, 3)
  }

  /** The numeric part of an id reads back as the number it was made from,
      so two records with different numbers never share an id. */
  lemma SceneIdNumber(n: nat)
    ensures |SceneId(n)| >= 9 && SceneId(n)[..6] == "scene_"
    ensures IsDigits(SceneId(n)[6..]) && ParseDecimal(SceneId(n)[6..]) == n
    ensures n < 1000 ==> |SceneId(n)| == 9
  {
    assert SceneId(n)[6..] == ZeroPad(n, 3);
    if n < 1000 {
      NatToStringLength(n, 3);
    }
  }

  lemma SceneIdInjective(m: nat, n: nat)
    requires SceneId(m) == SceneId(n)
    ensures m == n
  {
    SceneIdNumber(m);
    SceneIdNumber(n);
  }

  function FramesOr0(t: Timecode): int {
    match t.frames
    case Some(f) => f
    case None => 0
  }

  /** The record built from the well-formed entry at input position `i`. */
  function MakeRecord(e: RawScene, i: nat): Scene
    requires WellFormed(e)
  {
    var start, end := e.items[0], e.items[1];
    Scene(
      id := SceneId(i + 1),
      index := i,
      startTime := start.seconds.value,
      endTime := end.seconds.value,
      duration := end.seconds.value - start.seconds.value,
      startFrame := FramesOr0(start),
      endFrame := FramesOr0(end),
      startTimecode := start.text,
      endTimecode := end.text,
      status := StatusDetected,
      characters := [],
      notes := "",
      aiAnalysis := None,
      thumbnailPath := None)
  }

  /** The records `_process_scenes` produces from the first `|entries|`
      detector entries: one per well-formed entry, in input order, numbered
      by input position. */
  function Processed(entries: seq<RawScene>): seq<Scene>
  {
    if |entries| == 0 then []
    else
      var n := |entries| - 1;
      Processed(entries[..n]) + (if WellFormed(entries[n]) then [MakeRecord(entries[n], n)] else [])
  }

  /** A record as `_process_scenes` builds it from `entries[r.index]`. */
  predicate BuiltFrom(r: Scene, entries: seq<RawScene>) {
    && r.index < |entries|
    && WellFormed(entries[r.index])
    && r.id == SceneId(r.index + 1)
    && r.startTime == entries[r.index].items[0].seconds.value
    && r.endTime == entries[r.index].items[1].seconds.value
    && r.duration == r.endTime - r.startTime
    && r.startFrame == FramesOr0(entries[r.index].items[0])
    && r.endFrame == FramesOr0(entries[r.index].items[1])
    && r.startTimecode == entries[r.index].items[0].text
    && r.endTimecode == entries[r.index].items[1].text
    && r.status == StatusDetected
    && r.characters == [] && r.notes == ""
    && r.aiAnalysis == None && r.thumbnailPath == None
  }

  /** One more entry adds at most its own record. */
  lemma ProcessedStep(entries: seq<RawScene>, i: nat)
    requires i < |entries|
    ensures Processed(entries[..i + 1]) ==
      Processed(entries[..i]) + (if WellFormed(entries[i]) then [MakeRecord(entries[i], i)] else [])
  {
    assert entries[..i + 1][..i] == entries[..i];
  }

  /** A record built from an entry of a prefix is built from the same
      entry of the whole list. */
  lemma BuiltFromExtend(r: Scene, prefix: seq<RawScene>, entries: seq<RawScene>)
    requires |prefix| <= |entries| && prefix == entries[..|prefix|]
    requires BuiltFrom(r, prefix)
    ensures BuiltFrom(r, entries)
  {
    assert entries[r.index] == prefix[r.index];
  }

  /** Every record comes from a well-formed entry at its own `index`. */
  lemma {:induction false} ProcessedBuiltFrom(entries: seq<RawScene>)
    ensures forall k :: 0 <= k < |Processed(entries)| ==> BuiltFrom(Processed(entries)[k], entries)
  {
    if |entries| > 0 {
      var n := |entries| - 1;
      var prefix := entries[..n];
      ProcessedBuiltFrom(prefix);
      var r := Processed(entries);
      var p := Processed(prefix);
      forall k | 0 <= k < |r| ensures BuiltFrom(r[k], entries) {
        if k < |p| {
          assert r[k] == p[k];
          BuiltFromExtend(p[k], prefix, entries);
        }
      }
    }
  }

  /** Indices stay below the input length and strictly increase. */
  lemma {:induction false} ProcessedIndicesIncrease(entries: seq<RawScene>)
    ensures forall k :: 0 <= k < |Processed(entries)| ==> Processed(entries)[k].index < |entries|
    ensures forall k, l :: 0 <= k < l < |Processed(entries)| ==>
              Processed(entries)[k].index < Processed(entries)[l].index
  {
    if |entries| > 0 {
      var n := |entries| - 1;
      var prefix := entries[..n];
      ProcessedIndicesIncrease(prefix);
      var r := Processed(entries);
      var p := Processed(prefix);
      assert forall k :: 0 <= k < |p| ==> r[k] == p[k];
    }
  }

  /** The output is the input filtered, in order: every record comes from a
      well-formed entry at its own `index`, indices strictly increase, no
      record is renumbered, there are never more records than entries, and
      every well-formed entry is kept. */
  lemma ProcessedSound(entries: seq<RawScene>)
    ensures |Processed(entries)| <= |entries|
    ensures forall k :: 0 <= k < |Processed(entries)| ==> BuiltFrom(Processed(entries)[k], entries)
    ensures forall k, l :: 0 <= k < l < |Processed(entries)| ==>
              Processed(entries)[k].index < Processed(entries)[l].index
    ensures forall i :: 0 <= i < |entries| && WellFormed(entries[i]) ==>
              exists k :: 0 <= k < |Processed(entries)| && Processed(entries)[k].index == i
  {
    ProcessedLength(entries);
    ProcessedBuiltFrom(entries);
    ProcessedIndicesIncrease(entries);
    forall i | 0 <= i < |entries| && WellFormed(entries[i])
      ensures exists k :: 0 <= k < |Processed(entries)| && Processed(entries)[k].index == i
    {
      ProcessedComplete(entries, i);
    }
  }

  /** Nothing well-formed is dropped: each well-formed entry yields a record
      carrying its position. */
  lemma {:induction false} ProcessedComplete(entries: seq<RawScene>, i: nat)
    requires i < |entries| && WellFormed(entries[i])
    ensures exists k :: 0 <= k < |Processed(entries)| && Processed(entries)[k].index == i
  {
    var n := |entries| - 1;
    var r := Processed(entries);
    if i == n {
      assert r[|r| - 1].index == i;
    } else {
      assert entries[..n][i] == entries[i];
      ProcessedComplete(entries[..n], i);
      var k :| 0 <= k < |Processed(entries[..n])| && Processed(entries[..n])[k].index == i;
      assert r[k] == Processed(entries[..n])[k];
    }
  }

  lemma {:induction false} ProcessedLength(entries: seq<RawScene>)
    ensures |Processed(entries)| <= |entries|
  {
    if |entries| > 0 {
      ProcessedLength(entries[..|entries| - 1]);
    }
  }

  /** When every entry is well-formed, every entry yields a record. */
  lemma {:induction false} ProcessedKeepsAll(entries: seq<RawScene>)
    requires forall i :: 0 <= i < |entries| ==> WellFormed(entries[i])
    ensures |Processed(entries)| == |entries|
  {
    if |entries| > 0 {
      var n := |entries| - 1;
      assert forall i :: 0 <= i < n ==> entries[..n][i] == entries[i];
      ProcessedKeepsAll(entries[..n]);
    }
  }

  /** A malformed entry anywhere means strictly fewer records than entries. */
  lemma {:induction false} ProcessedDropsMalformed(entries: seq<RawScene>, i: nat)
    requires i < |entries| && !WellFormed(entries[i])
    ensures |Processed(entries)| < |entries|
  {
    var n := |entries| - 1;
    ProcessedLength(entries[..n]);
    if i < n {
      assert entries[..n][i] == entries[i];
      ProcessedDropsMalformed(entries[..n], i);
    }
  }

  /** Two ids whose numeric parts read back as different numbers differ. */
  lemma NumberedIdsDiffer(x: string, y: string, m: nat, n: nat)
    requires |x| >= 6 && IsDigits(x[6..]) && ParseDecimal(x[6..]) == m
    requires |y| >= 6 && IsDigits(y[6..]) && ParseDecimal(y[6..]) == n
    requires m != n
    ensures x != y
  {
  }

  /** Ids of the records are pairwise distinct. */
  lemma ProcessedIdsDistinct(entries: seq<RawScene>)
    ensures forall k, l :: 0 <= k < l < |Processed(entries)| ==>
              Processed(entries)[k].id != Processed(entries)[l].id
  {
    ProcessedSound(entries);
    var r := Processed(entries);
    forall k, l | 0 <= k < l < |r| ensures r[k].id != r[l].id {
      SceneIdNumber(r[k].index + 1);
      SceneIdNumber(r[l].index + 1);
      NumberedIdsDiffer(r[k].id, r[l].id, r[k].index + 1, r[l].index + 1);
    }
  }

  // ---------------------------------------------------------------------
  // The detector object

  /** Export failure: `export_scenes_csv` raises ValueError on an empty list. */
  datatype ExportError = NoScenesToExport

  /** One CSV row. `duration` is exported as `f"{d:.2f}s"` in the source;
      here it is the number itself. */
  datatype CsvRow = CsvRow(
    sceneId: string,
    startTime: string,
    endTime: string,
    duration: real,
    startSeconds: real,
    endSeconds: real,
    status: string,
    characters: string,
    notes: string)

  const CharacterSeparator: string := ", "

  /** The row exported for one scene. */
  function RowOf(s: Scene): CsvRow {
    CsvRow(s.id, s.startTimecode, s.endTimecode, s.duration, s.startTime, s.endTime,
           s.status, Join(s.characters, CharacterSeparator), s.notes)
  }

  /** The Characters column gives back the scene's character list when the
      names contain no comma (and the list is not empty). */
  lemma RowCharactersRoundTrip(s: Scene)
    requires |s.characters| >= 1
    requires forall k :: 0 <= k < |s.characters| ==> Free(s.characters[k], ',')
    ensures Split(RowOf(s).characters, CharacterSeparator) == s.characters
  {
    SplitJoin(s.characters, CharacterSeparator);
  }

  class SceneDetector {
    var videoPath: string
    var threshold: real
    var scenes: seq<Scene>

    /** The existence check on `video_path` is file-system work and is not
        part of the model. */
    constructor (videoPath: string, threshold: real)
      ensures this.videoPath == videoPath && this.threshold == threshold
      ensures scenes == []
    {
      this.videoPath := videoPath;
      this.threshold := threshold;
      scenes := [];
    }

    /** `_process_scenes`: one pass over the detector's list, skipping the
        entries that are not usable pairs. */
    method ProcessScenes(sceneList: seq<RawScene>) returns (processedScenes: seq<Scene>)
      ensures processedScenes == Processed(sceneList)
    {
      processedScenes := [];
      var i := 0;
      while i < |sceneList|
        invariant 0 <= i <= |sceneList|
        invariant processedScenes == Processed(sceneList[..i])
      {
        var sceneTuple := sceneList[i];
        if !(sceneTuple.Tuple? && |sceneTuple.items| == 2) {
          assert processedScenes == Processed(sceneList[..i + 1]) by {
            ProcessedStep(sceneList, i);
          }
          i := i + 1;
          continue;
        }
        var startTime, endTime := sceneTuple.items[0], sceneTuple.items[1];
        if !(startTime.seconds.Some? && endTime.seconds.Some?) {
          assert processedScenes == Processed(sceneList[..i + 1]) by {
            ProcessedStep(sceneList, i);
          }
          i := i + 1;
          continue;
        }
        var startSeconds := startTime.seconds.value;
        var endSeconds := endTime.seconds.value;
        var startFrame := FramesOr0(startTime);
        var endFrame := FramesOr0(endTime);
        var sceneData := Scene(
          id := SceneId(i + 1),
          index := i,
          startTime := startSeconds,
          endTime := endSeconds,
          duration := endSeconds - startSeconds,
          startFrame := startFrame,
          endFrame := endFrame,
          startTimecode := startTime.text,
          endTimecode := endTime.text,
          status := StatusDetected,
          characters := [],
          notes := "",
          aiAnalysis := None,
          thumbnailPath := None);
        assert processedScenes + [sceneData] == Processed(sceneList[..i + 1]) by {
          ProcessedStep(sceneList, i);
          assert sceneData == MakeRecord(sceneTuple, i);
        }
        processedScenes := processedScenes + [sceneData];
        i := i + 1;
      }
      assert sceneList[..i] == sceneList;
    }

    /** `detect_scenes`: on success the processed list is stored in `scenes`
        and returned; a detector exception propagates and `scenes` keeps its
        old value. */
    method DetectScenes(output: DetectorOutput) returns (r: Result<seq<Scene>, string>)
      modifies this`scenes
      ensures output.SceneList? ==> scenes == Processed(output.entries) && r == Success(scenes)
      ensures output.DetectorError? ==> scenes == old(scenes) && r == Failure(output.message)
    {
      match output
      case DetectorError(message) =>
        r := Failure(message);
      case SceneList(sceneList) =>
        scenes := ProcessScenes(sceneList);
        r := Success(scenes);
    }

    /** `export_scenes_csv` up to the point where pandas writes the file:
        an error on an empty list, otherwise one row per scene in order. */
    method ExportScenesCsv() returns (r: Result<seq<CsvRow>, ExportError>)
      ensures r.Failure? <==> scenes == []
      ensures r.Failure? ==> r.error == NoScenesToExport
      ensures r.Success? ==>
                |r.value| == |scenes| && forall k :: 0 <= k < |scenes| ==> r.value[k] == RowOf(scenes[k])
    {
      if scenes == [] {
        return Failure(NoScenesToExport);
      }
      var csvData: seq<CsvRow> := [];
      var i := 0;
      while i < |scenes|
        invariant 0 <= i <= |scenes|
        invariant |csvData| == i
        invariant forall k :: 0 <= k < i ==> csvData[k] == RowOf(scenes[k])
      {
        var scene := scenes[i];
        csvData := csvData + [CsvRow(
          sceneId := scene.id,
          startTime := scene.startTimecode,
          endTime := scene.endTimecode,
          duration := scene.duration,
          startSeconds := scene.startTime,
          endSeconds := scene.endTime,
          status := scene.status,
          characters := Join(scene.characters, CharacterSeparator),
          notes := scene.notes)];
        i := i + 1;
      }
      r := Success(csvData);
    }
  }

  /** `detect_scenes_streamlit`: builds a detector, runs it, and turns any
      exception into an empty list. */
  method DetectScenesStreamlit(videoPath: string, threshold: real, output: DetectorOutput)
    returns (scenes: seq<Scene>)
    ensures output.SceneList? ==> scenes == Processed(output.entries)
    ensures output.DetectorError? ==> scenes == []
  {
    var detector := new SceneDetector(videoPath, threshold);
    var r := detector.DetectScenes(output);
    scenes := match r
      case Success(s) => s
      case Failure(_) => [];
  }

  // ---------------------------------------------------------------------
  // _format_time

  /** Python's `a // b` on floats, for a positive divisor. */
  function FloorDiv(a: real, b: real): int
    requires b > 0.0
  {
    (a / b).Floor
  }

  /** Python's `a % b` on floats, for a positive divisor. */
  function FloorMod(a: real, b: real): real
    requires b > 0.0
  {
    a - b * (FloorDiv(a, b) as real)
  }

  /** Python's `int(x)` on a float: truncation toward zero. */
  function Trunc(x: real): (t: int)
    ensures 0.0 <= x ==> 0 <= t && t as real <= x < t as real + 1.0
    ensures x < 0.0 ==> t <= 0 && x <= t as real && t as real - 1.0 < x
  {
    if x >= 0.0 then x.Floor else -((-x).Floor)
  }

  lemma MulSign(a: real, d: real)
    requires d > 0.0
    ensures a > 0.0 ==> a * d > 0.0
    ensures a * d >= 0.0 ==> a >= 0.0
    ensures a * d > 0.0 ==> a > 0.0
  {
  }

  lemma DivBounds(x: real, d: real, lo: real)
    requires d > 0.0 && lo * d <= x && x < lo * d + d
    ensures lo <= x / d < lo + 1.0
  {
    var y := x / d;
    assert y * d == x;
    MulSign(y - lo, d);
    MulSign(lo + 1.0 - y, d);
  }

  /** On whole divisors, Python's float `//` and `%` agree with integer
      division of the floor. */
  lemma FloorDivOfFloor(x: real, d: int)
    requires d > 0
    ensures FloorDiv(x, d as real) == x.Floor / d
    ensures FloorMod(x, d as real).Floor == x.Floor % d
  {
    var q := x.Floor / d;
    assert q * d <= x.Floor < q * d + d;
    assert (q * d) as real == (q as real) * (d as real);
    DivBounds(x, d as real, q as real);
  }

  /** The three integers `_format_time` computes. */
  datatype Clock = Clock(hours: int, minutes: nat, secs: nat)

  function TimeFields(seconds: real): (c: Clock)
    ensures c.hours == seconds.Floor / 3600
    ensures c.minutes == (seconds.Floor % 3600) / 60
    ensures c.secs == seconds.Floor % 60
  {
    FloorDivOfFloor(seconds, 3600);
    FloorDivOfFloor(FloorMod(seconds, 3600.0), 60);
    FloorDivOfFloor(seconds, 60);
    var hours := Trunc(FloorDiv(seconds, 3600.0) as real);
    var minutes := Trunc(FloorDiv(FloorMod(seconds, 3600.0), 60.0) as real);
    var secs := Trunc(FloorMod(seconds, 60.0));
    Clock(hours, minutes, secs)
  }

  /** The text of a clock: `HH:MM:SS` when there is at least one whole
      hour, `MM:SS` otherwise, every field zero-padded to two digits. */
  function ClockText(c: Clock): string {
    if c.hours > 0 then ZeroPad(c.hours, 2) + ":" + ZeroPad(c.minutes, 2) + ":" + ZeroPad(c.secs, 2)
    else ZeroPad(c.minutes, 2) + ":" + ZeroPad(c.secs, 2)
  }

  /** `_format_time`. */
  function FormatTime(seconds: real): string {
    ClockText(TimeFields(seconds))
  }

  /** The fields split the whole seconds exactly: hours*3600 + minutes*60 +
      secs is the floor of the input, with minutes and secs below 60. */
  lemma TimeFieldsRoundTrip(seconds: real)
    ensures TimeFields(seconds).minutes < 60 && TimeFields(seconds).secs < 60
    ensures TimeFields(seconds).hours * 3600 + TimeFields(seconds).minutes * 60
              + TimeFields(seconds).secs == seconds.Floor
    ensures 0.0 <= seconds ==> 0 <= TimeFields(seconds).hours
  {
    var n := seconds.Floor;
    var r := n % 3600;
    assert n == (n / 3600) * 3600 + r;
    assert r == (r / 60) * 60 + r % 60;
    assert r % 60 == n % 60 by {
      assert n == ((n / 3600) * 60) * 60 + r;
    }
  }

  /** The hour field is positive exactly from one hour on; the value the
      clock text shows is the whole seconds, or their remainder modulo one
      hour when the hour field is dropped. */
  lemma TimeFieldsShown(seconds: real)
    ensures var c := TimeFields(seconds);
      && (c.hours > 0 <==> seconds.Floor >= 3600)
      && c.minutes < 60 && c.secs < 60
      && (if c.hours > 0 then c.hours * 3600 + c.minutes * 60 + c.secs else c.minutes * 60 + c.secs)
         == (if seconds.Floor >= 3600 then seconds.Floor else seconds.Floor % 3600)
  {
    var c := TimeFields(seconds);
    TimeFieldsRoundTrip(seconds);
    var n := seconds.Floor;
    assert c.hours == n / 3600;
    assert n % 3600 == n - 3600 * c.hours;
  }

  /** Clock fields read back: hours, minutes, seconds, or minutes, seconds. */
  function ClockValue(f: seq<string>): Option<int> {
    if |f| == 3 && IsDigits(f[0]) && IsDigits(f[1]) && IsDigits(f[2]) then
      Some(ParseDecimal(f[0]) * 3600 + ParseDecimal(f[1]) * 60 + ParseDecimal(f[2]))
    else if |f| == 2 && IsDigits(f[0]) && IsDigits(f[1]) then
      Some(ParseDecimal(f[0]) * 60 + ParseDecimal(f[1]))
    else None
  }

  /** A clock string read back: three or two `:`-separated decimal fields. */
  function ParseClock(t: string): Option<int> {
    ClockValue(Split(t, ":"))
  }

  /** Digit fields joined by `:` split back into those fields. */
  lemma ClockSplitTwo(m: string, s: string)
    requires IsDigits(m) && IsDigits(s)
    ensures Split(m + ":" + s, ":") == [m, s]
  {
    assert Free(m, ':') && Free(s, ':');
    SplitFree(s, ":");
    SplitCons(m, ":", s);
  }

  lemma ClockSplitThree(h: string, m: string, s: string)
    requires IsDigits(h) && IsDigits(m) && IsDigits(s)
    ensures Split(h + ":" + m + ":" + s, ":") == [h, m, s]
  {
    assert Free(h, ':');
    ClockSplitTwo(m, s);
    SplitCons(h, ":", m + ":" + s);
    assert h + ":" + m + ":" + s == h + ":" + (m + ":" + s);
  }

  /** A clock's text has three fields exactly when the hour field is
      positive; minutes and seconds below 60 are two digits wide. */
  lemma ClockTextShape(c: Clock)
    requires c.minutes < 60 && c.secs < 60
    ensures var f := Split(ClockText(c), ":");
      && (|f| == 3 <==> c.hours > 0)
      && (|f| == 2 <==> c.hours <= 0)
      && |f[|f| - 1]| == 2 && |f[|f| - 2]| == 2
  {
    NatToStringLength(c.minutes, 2);
    NatToStringLength(c.secs, 2);
    var m, s := ZeroPad(c.minutes, 2), ZeroPad(c.secs, 2);
    if c.hours > 0 {
      ClockSplitThree(ZeroPad(c.hours, 2), m, s);
    } else {
      ClockSplitTwo(m, s);
    }
  }

  /** `_format_time` output has three fields exactly when the time reaches
      one hour, and the minute and second fields are two digits wide. */
  lemma FormatTimeShape(seconds: real)
    ensures var f := Split(FormatTime(seconds), ":");
      && (|f| == 3 <==> seconds.Floor >= 3600)
      && (|f| == 2 <==> seconds.Floor < 3600)
      && |f[|f| - 1]| == 2 && |f[|f| - 2]| == 2
  {
    TimeFieldsShown(seconds);
    ClockTextShape(TimeFields(seconds));
  }

  /** A clock string whose `:` pieces are known reads back as those pieces. */
  lemma ParseClockPieces(t: string, f: seq<string>)
    requires Split(t, ":") == f
    ensures ParseClock(t) == ClockValue(f)
  {
  }

  /** Two-digit-padded clock fields read back as the numbers they show. */
  lemma ClockValueThree(h: nat, m: nat, s: nat)
    ensures ClockValue([ZeroPad(h, 2), ZeroPad(m, 2), ZeroPad(s, 2)]) == Some(h * 3600 + m * 60 + s)
  {
    var f := [ZeroPad(h, 2), ZeroPad(m, 2), ZeroPad(s, 2)];
    assert f[0] == ZeroPad(h, 2) && f[1] == ZeroPad(m, 2) && f[2] == ZeroPad(s, 2);
  }

  lemma ClockValueTwo(m: nat, s: nat)
    ensures ClockValue([ZeroPad(m, 2), ZeroPad(s, 2)]) == Some(m * 60 + s)
  {
    var f := [ZeroPad(m, 2), ZeroPad(s, 2)];
    assert f[0] == ZeroPad(m, 2) && f[1] == ZeroPad(s, 2);
  }

  /** `HH:MM:SS` text reads back as h*3600 + m*60 + s. */
  lemma ClockTextLong(h: nat, m: nat, s: nat)
    ensures ParseClock(ZeroPad(h, 2) + ":" + ZeroPad(m, 2) + ":" + ZeroPad(s, 2)) == Some(h * 3600 + m * 60 + s)
  {
    var hh, mm, ss := ZeroPad(h, 2), ZeroPad(m, 2), ZeroPad(s, 2);
    ClockValueThree(h, m, s);
    ClockSplitThree(hh, mm, ss);
    ParseClockPieces(hh + ":" + mm + ":" + ss, [hh, mm, ss]);
  }

  /** `MM:SS` text reads back as m*60 + s. */
  lemma ClockTextShort(m: nat, s: nat)
    ensures ParseClock(ZeroPad(m, 2) + ":" + ZeroPad(s, 2)) == Some(m * 60 + s)
  {
    var mm, ss := ZeroPad(m, 2), ZeroPad(s, 2);
    ClockValueTwo(m, s);
    ClockSplitTwo(mm, ss);
    ParseClockPieces(mm + ":" + ss, [mm, ss]);
  }

  /** Reading a clock's text back gives the value its fields show. */
  lemma ClockTextRoundTrip(c: Clock)
    ensures ParseClock(ClockText(c)) ==
      Some(if c.hours > 0 then c.hours * 3600 + c.minutes * 60 + c.secs else c.minutes * 60 + c.secs)
  {
    if c.hours > 0 {
      ClockTextLong(c.hours, c.minutes, c.secs);
    } else {
      ClockTextShort(c.minutes, c.secs);
    }
  }

  /** Reading `_format_time` output back gives the whole seconds (modulo
      one hour below zero, where the hour field is dropped). */
  lemma FormatTimeRoundTrip(seconds: real)
    ensures ParseClock(FormatTime(seconds)) ==
              Some(if seconds.Floor >= 3600 then seconds.Floor else seconds.Floor % 3600)
  {
    ClockTextRoundTrip(TimeFields(seconds));
    TimeFieldsShown(seconds);
  }

  // ---------------------------------------------------------------------
  // validate_video_file

  const SupportedExtensions: set<string> :=
    {".mp4", ".avi", ".mov", ".mkv", ".wmv", ".flv", ".webm", ".m4v"}

  /** The last component of a POSIX path as `pathlib` names it: empty and
      `.` components are dropped. */
  function LastName(parts: seq<string>): string {
    if |parts| == 0 then ""
    else if parts[|parts| - 1] == "" || parts[|parts| - 1] == "." then LastName(parts[..|parts| - 1])
    else parts[|parts| - 1]
  }

  function PathName(path: string): string {
    LastName(Split(path, "/"))
  }

  /** `PurePath.suffix`: from the last dot of the name, provided that dot is
      neither the name's first nor its last character. */
  function Suffix(name: string): (s: string)
    ensures s == "" || (s[0] == '.' && Free(s[1..], '.'))
    ensures |s| <= |name| && s == name[|name| - |s|..]
  {
    var i := RFind(name, '.');
    if 0 < i < |name| - 1 then name[i..] else ""
  }

  /** `validate_video_file`: false for a missing or empty path; otherwise
      the file must exist (the file-system answer is the `fileExists`
      parameter) and its lower-cased suffix must be a supported extension. */
  function ValidateVideoFile(filePath: Option<string>, fileExists: bool): bool {
    match filePath
    case None => false
    case Some(p) =>
      if p == "" then false
      else if !fileExists then false
      else LowerAscii(Suffix(PathName(p))) in SupportedExtensions
  }

  /** Accepted paths name an existing file whose name ends, ignoring ASCII
      case, in one of the eight supported extensions; missing and empty
      paths are refused. */
  lemma ValidateSound(filePath: Option<string>, fileExists: bool)
    requires ValidateVideoFile(filePath, fileExists)
    ensures filePath.Some? && filePath.value != "" && fileExists
    ensures var name := PathName(filePath.value);
      exists ext :: ext in SupportedExtensions && |ext| <= |name|
        && LowerAscii(name[|name| - |ext|..]) == ext
  {
    var name := PathName(filePath.value);
    SuffixWitness(name, Suffix(name), SupportedExtensions);
  }

  /** A tail of `name` whose lower-cased form is in `exts` is an extension
      from `exts` that `name` ends in. */
  lemma SuffixWitness(name: string, sfx: string, exts: set<string>)
    requires |sfx| <= |name| && sfx == name[|name| - |sfx|..]
    requires LowerAscii(sfx) in exts
    ensures exists ext :: ext in exts && |ext| <= |name| && LowerAscii(name[|name| - |ext|..]) == ext
  {
    var ext := LowerAscii(sfx);
    assert name[|name| - |ext|..] == sfx;
  }

  lemma {:induction false} LastNameAppend(parts: seq<string>, name: string)
    requires name != "" && name != "."
    ensures LastName(parts + [name]) == name
  {
  }

  /** The name of `dir/stem.ext` is `stem.ext`, whatever `dir` holds. */
  lemma PathNameOf(dir: string, name: string)
    requires name != "" && name != "." && Free(name, '/')
    ensures PathName(dir + "/" + name) == name
  {
    SplitAround(dir, '/', name);
    SplitFree(name, "/");
    LastNameAppend(Split(dir, "/"), name);
  }

  /** The suffix of `stem + ext`, for a non-empty stem and an extension made
      of a dot and at least one dot-free character, is `ext`. */
  lemma SuffixOf(stem: string, ext: string)
    requires |stem| >= 1 && |ext| >= 2 && ext[0] == '.' && Free(ext[1..], '.')
    ensures Suffix(stem + ext) == ext
  {
    var name := stem + ext;
    var i := RFind(name, '.');
    assert name[|stem|] == '.';
    forall j | |stem| < j < |name| ensures name[j] != '.' {
      assert name[j] == ext[1..][j - |stem| - 1];
    }
    assert i == |stem|;
    assert name[i..] == ext;
  }

  /** Each supported extension is a dot followed by at least three lower-case
      letters or digits. */
  lemma SupportedExtensionShape(e: string)
    requires e in SupportedExtensions
    ensures |e| >= 4 && e[0] == '.'
    ensures forall j :: 1 <= j < |e| ==> ('a' <= e[j] <= 'z' || '0' <= e[j] <= '9')
  {
    if e == ".mp4" {} else if e == ".avi" {} else if e == ".mov" {} else if e == ".mkv" {}
    else if e == ".wmv" {} else if e == ".flv" {} else if e == ".webm" {} else {}
  }

  /** Any existing file `dir/stem.ext` whose extension is supported, in any
      ASCII case, is accepted. */
  lemma ValidateAcceptsSupported(dir: string, stem: string, ext: string)
    requires |stem| >= 1 && Free(stem, '/')
    requires LowerAscii(ext) in SupportedExtensions
    ensures ValidateVideoFile(Some(dir + "/" + stem + ext), true)
  {
    var l := LowerAscii(ext);
    SupportedExtensionShape(l);
    assert ext[0] == '.';
    assert Free(ext[1..], '.') by {
      forall j | 0 <= j < |ext| - 1 ensures ext[1..][j] != '.' {
        assert l[j + 1] == LowerChar(ext[j + 1]);
      }
    }
    assert Free(stem + ext, '/') by {
      forall j | 0 <= j < |stem + ext| ensures (stem + ext)[j] != '/' {
        if j >= |stem| {
          assert l[j - |stem|] == LowerChar(ext[j - |stem|]);
        }
      }
    }
    assert dir + "/" + stem + ext == dir + "/" + (stem + ext);
    PathNameOf(dir, stem + ext);
    SuffixOf(stem, ext);
  }

  // ---------------------------------------------------------------------
  // get_sample_scenes

  function SampleScene(id: string, i: nat, start: real, end: real, duration: real,
                       startFrame: int, endFrame: int, startTc: string, endTc: string): Scene
  {
    Scene(id, i, start, end, duration, startFrame, endFrame, startTc, endTc,
          StatusDetected, [], "", None, None)
  }

  /** `get_sample_scenes`: three fixed scenes. */
  function SampleScenes(): seq<Scene> {
    [ SampleScene("scene_001", 0, 0.0, 45.2, 45.2, 0, 1130, "00:00:00.000", "00:00:45.200"),
      SampleScene("scene_002", 1, 45.2, 92.8, 47.6, 1130, 2320, "00:00:45.200", "00:01:32.800"),
      SampleScene("scene_003", 2, 92.8, 156.4, 63.6, 2320, 3910, "00:01:32.800", "00:02:36.400") ]
  }

  /** The sample scenes look like detector output: ids `scene_001`.. by
      position, consistent durations, each starting (in seconds and frames)
      where the previous one ends, all freshly `detected` and unannotated. */
  lemma SampleScenesShape()
    ensures |SampleScenes()| == 3
    ensures forall k :: 0 <= k < 3 ==>
      var s := SampleScenes()[k];
      && s.index == k
      && s.duration == s.endTime - s.startTime && s.startTime < s.endTime
      && s.status == StatusDetected && s.characters == [] && s.notes == ""
    ensures SampleScenes()[0].startTime == 0.0
  {
    var s := SampleScenes();
    assert s[0].index == 0 && s[1].index == 1 && s[2].index == 2;
  }

  /** Each sample scene starts, in seconds and frames, where the previous
      one ends. */
  lemma SampleScenesContiguous()
    ensures |SampleScenes()| == 3
    ensures forall k :: 0 <= k < 2 ==>
      SampleScenes()[k].endTime == SampleScenes()[k + 1].startTime &&
      SampleScenes()[k].endFrame == SampleScenes()[k + 1].startFrame
  {
    var s := SampleScenes();
    assert s[0].endTime == s[1].startTime && s[1].endTime == s[2].startTime;
  }

  /** The sample ids are `scene_00` followed by position + 1, as
      `_process_scenes` would number them, and so pairwise distinct. */
  lemma SampleScenesIds()
    ensures |SampleScenes()| == 3
    ensures forall k :: 0 <= k < 3 ==>
      |SampleScenes()[k].id| == 9 && SampleScenes()[k].id[..8] == "scene_00"
      && SampleScenes()[k].id[8] == DigitChar(k + 1)
    ensures forall k, l :: 0 <= k < l < 3 ==> SampleScenes()[k].id != SampleScenes()[l].id
  {
    var s := SampleScenes();
    forall k | 0 <= k < 3
      ensures |s[k].id| == 9 && s[k].id[..8] == "scene_00" && s[k].id[8] == DigitChar(k + 1)
    {
    }
    forall k, l | 0 <= k < l < 3 ensures s[k].id != s[l].id {
      assert s[k].id[8] != s[l].id[8];
    }
  }
}
