/**
  Tamper detection: scene cuts found from the mean absolute difference of
  consecutive grayscale frames, pose jumps found from the largest
  displacement of any landmark between consecutive table rows, and the
  report that concatenates both and counts them against a threshold.

  Each detector is a method with the source's loop; what it computes is
  the specification function it is proved equal to, and the lemmas below
  state what the source promises about those functions.
*/
module CheatDetection {
  import opened Wrappers
  import opened Signals
  import opened Base

  const DefaultSceneThreshold: real := 30.0
  const DefaultPoseThreshold: real := 0.15
  const DefaultOverallThreshold: int := 10
  const SceneCutSeverity: real := 0.9
  const PoseJumpSeverity: real := 0.7
  const SceneCutType: string := "scene_cut"
  const PoseJumpType: string := "pose_jump"

  // ---------------------------------------------------------------------
  // Scene cuts
  // ---------------------------------------------------------------------

  /** An 8-bit grayscale intensity. */
  type Pixel = x: int | 0 <= x <= 255

  /** A decoded frame converted to grayscale, as a flat sequence of pixels. */
  type GrayFrame = seq<Pixel>

  /** A video as the scene-cut detector sees it: unopenable, or its decoded frames. */
  datatype Video = Unopenable | Opened(frames: seq<GrayFrame>)

  /** Every frame of a video has the same, positive, number of pixels. */
  predicate SameShape(frames: seq<GrayFrame>) {
    forall i :: 0 <= i < |frames| ==> |frames[i]| == |frames[0]| > 0
  }

  predicate Decodable(video: Video) {
    video.Opened? ==> SameShape(video.frames)
  }

  /** `cv2.absdiff` of two grey levels: the absolute value on integers, where `Signals.Abs` is on reals. */
  function AbsInt(x: int): nat {
    if x < 0 then -x else x
  }

  function SumAbsDiff(a: GrayFrame, b: GrayFrame): int
    requires |a| == |b|
    decreases |a|
  {
    if a == [] then 0
    else SumAbsDiff(a[..|a| - 1], b[..|b| - 1]) + AbsInt(a[|a| - 1] as int - b[|b| - 1] as int)
  }

  /** `np.mean(cv2.absdiff(a, b))` */
  function MeanAbsDiff(a: GrayFrame, b: GrayFrame): real
    requires |a| == |b| > 0
  {
    SumAbsDiff(a, b) as real / |a| as real
  }

  lemma {:induction false} SumAbsDiffOfOffset(a: GrayFrame, b: GrayFrame, m: int)
    requires |a| == |b|
    requires forall k :: 0 <= k < |a| ==> b[k] == a[k] + m
    ensures SumAbsDiff(a, b) == |a| * AbsInt(m)
    decreases |a|
  {
    if a != [] {
      SumAbsDiffOfOffset(a[..|a| - 1], b[..|b| - 1], m);
    }
  }

  /**
    Two frames that differ by a uniform intensity offset `m` have a mean
    difference of exactly |m|.
  */
  lemma MeanAbsDiffOfOffset(a: GrayFrame, b: GrayFrame, m: int)
    requires |a| == |b| > 0
    requires forall k :: 0 <= k < |a| ==> b[k] == a[k] + m
    ensures MeanAbsDiff(a, b) == AbsInt(m) as real
  {
    SumAbsDiffOfOffset(a, b, m);
    assert SumAbsDiff(a, b) as real == |a| as real * AbsInt(m) as real;
    Signals.MulDivCancel(|a| as real, AbsInt(m) as real);
  }

  /** Frame `i` differs from frame `i - 1` by more than the threshold. */
  predicate IsSceneCut(frames: seq<GrayFrame>, i: int, threshold: real)
    requires SameShape(frames) && 1 <= i < |frames|
  {
    MeanAbsDiff(frames[i - 1], frames[i]) > threshold
  }

  /** The frames in [1, k) that are scene cuts, in increasing order. */
  function SceneCutFrames(frames: seq<GrayFrame>, threshold: real, k: nat): seq<nat>
    requires SameShape(frames) && k <= |frames|
    decreases k
  {
    if k <= 1 then []
    else
      SceneCutFrames(frames, threshold, k - 1)
        + (if IsSceneCut(frames, k - 1, threshold) then [k - 1] else [])
  }

  /**
    The frames listed are exactly the scene cuts in [1, k), each once, in
    increasing order.
  */
  lemma {:induction false} SceneCutFramesExact(frames: seq<GrayFrame>, threshold: real, k: nat)
    requires SameShape(frames) && k <= |frames|
    ensures var cuts := SceneCutFrames(frames, threshold, k);
      && (forall j :: 0 <= j < |cuts| ==> 1 <= cuts[j] < k && IsSceneCut(frames, cuts[j], threshold))
      && (forall i :: 1 <= i < k && IsSceneCut(frames, i, threshold) ==> i in cuts)
      && StrictlyIncreasing(cuts)
      && (k >= 1 ==> |cuts| <= k - 1)
    decreases k
  {
    if k > 1 {
      SceneCutFramesExact(frames, threshold, k - 1);
    }
  }

  function SceneCutEvent(frameIndex: int): CheatEvent {
    CheatEvent(Some(frameIndex), SceneCutType,
      "High frame difference detected, indicating a potential video cut.", SceneCutSeverity)
  }

  function SceneCutEvents(cuts: seq<nat>): (events: seq<CheatEvent>)
    ensures |events| == |cuts|
    ensures forall j :: 0 <= j < |cuts| ==> events[j] == SceneCutEvent(cuts[j])
    decreases |cuts|
  {
    if cuts == [] then []
    else SceneCutEvents(cuts[..|cuts| - 1]) + [SceneCutEvent(cuts[|cuts| - 1])]
  }

  /** The events `detect_scene_changes` returns for a video. */
  function SceneCuts(video: Video, threshold: real): seq<CheatEvent>
    requires Decodable(video)
  {
    match video
    case Unopenable => []
    case Opened(frames) => SceneCutEvents(SceneCutFrames(frames, threshold, |frames|))
  }

  /**
    `detect_scene_changes`: compares each frame with the previous one and
    records a scene_cut event at every frame whose mean absolute
    difference exceeds the threshold.
  */
  method DetectSceneChanges(video: Video, threshold: real := DefaultSceneThreshold)
    returns (events: seq<CheatEvent>)
    requires Decodable(video)
    ensures events == SceneCuts(video, threshold)
  {
    events := [];
    if video.Unopenable? {
      return;
    }
    var frames := video.frames;
    if |frames| == 0 {
      return;
    }
    var prevGray := frames[0];
    var frameIdx := 1;
    while frameIdx < |frames|
      invariant 1 <= frameIdx <= |frames|
      invariant prevGray == frames[frameIdx - 1]
      invariant events == SceneCutEvents(SceneCutFrames(frames, threshold, frameIdx))
    {
      var gray := frames[frameIdx];
      var meanDiff := MeanAbsDiff(prevGray, gray);
      if meanDiff > threshold {
        events := events + [SceneCutEvent(frameIdx)];
      }
      prevGray := gray;
      frameIdx := frameIdx + 1;
    }
  }

  /**
    Every scene-cut event of n frames is a scene_cut of severity 0.9 at a
    frame i with 1 <= i < n that differs from frame i - 1 by more than the
    threshold, and there are at most n - 1 of them.
  */
  lemma SceneCutsSound(frames: seq<GrayFrame>, threshold: real)
    requires SameShape(frames)
    ensures var events := SceneCuts(Opened(frames), threshold);
      && (forall j :: 0 <= j < |events| ==>
            && events[j].frameIndex.Some?
            && 1 <= events[j].frameIndex.value < |frames|
            && IsSceneCut(frames, events[j].frameIndex.value, threshold)
            && events[j].eventType == SceneCutType
            && events[j].severity == SceneCutSeverity
            && SeverityInRange(events[j]))
      && (|frames| >= 1 ==> |events| <= |frames| - 1)
  {
    SceneCutFramesExact(frames, threshold, |frames|);
  }

  /** Every scene cut among the frames is reported. */
  lemma SceneCutsComplete(frames: seq<GrayFrame>, threshold: real, i: int)
    requires SameShape(frames)
    requires 1 <= i < |frames| && IsSceneCut(frames, i, threshold)
    ensures var events := SceneCuts(Opened(frames), threshold);
      exists j :: 0 <= j < |events| && events[j].frameIndex == Some(i)
  {
    var cuts := SceneCutFrames(frames, threshold, |frames|);
    SceneCutFramesExact(frames, threshold, |frames|);
    var j :| 0 <= j < |cuts| && cuts[j] == i;
    assert SceneCuts(Opened(frames), threshold)[j].frameIndex == Some(i);
  }

  /** Scene-cut events come in strictly increasing frame order. */
  lemma SceneCutsOrdered(frames: seq<GrayFrame>, threshold: real)
    requires SameShape(frames)
    ensures var events := SceneCuts(Opened(frames), threshold);
      forall j, j' :: 0 <= j < j' < |events| ==>
        events[j].frameIndex.Some? && events[j'].frameIndex.Some?
        && events[j].frameIndex.value < events[j'].frameIndex.value
  {
    SceneCutFramesExact(frames, threshold, |frames|);
  }

  /** An unopenable video, or one with fewer than two frames, yields no events. */
  lemma NoSceneCutsWithoutFramePairs(video: Video, threshold: real)
    requires Decodable(video)
    requires video.Unopenable? || |video.frames| < 2
    ensures SceneCuts(video, threshold) == []
  {
  }

  // ---------------------------------------------------------------------
  // Pose jumps
  // ---------------------------------------------------------------------

  /** `c0 + c1 in s`: the two characters occur next to each other. */
  predicate HasPair(s: string, c0: char, c1: char) {
    exists i :: 0 <= i < |s| - 1 && s[i] == c0 && s[i + 1] == c1
  }

  /** A column name containing "_x" or "_y". */
  predicate IsLandmarkColumn(c: string) {
    HasPair(c, '_', 'x') || HasPair(c, '_', 'y')
  }

  /** `[col for col in columns if '_x' in col or '_y' in col]` */
  function LandmarkColumns(columns: seq<string>): (cols: seq<string>)
    ensures forall c :: c in cols <==> c in columns && IsLandmarkColumn(c)
    decreases |columns|
  {
    if columns == [] then []
    else
      var last := columns[|columns| - 1];
      var front := LandmarkColumns(columns[..|columns| - 1]);
      assert columns == columns[..|columns| - 1] + [last];
      front + (if IsLandmarkColumn(last) then [last] else [])
  }

  /** The part of `s` before its last underscore. */
  function BeforeLastUnderscore(s: string): string
    requires '_' in s
    decreases |s|
  {
    if s[|s| - 1] == '_' then s[..|s| - 1]
    else
      assert '_' in s[..|s| - 1] by {
        var k :| 0 <= k < |s| && s[k] == '_';
        assert s[..|s| - 1][k] == '_';
      }
      BeforeLastUnderscore(s[..|s| - 1])
  }

  /** `s.rsplit('_', 1)[0]` */
  function RSplitHead(s: string): string {
    if '_' in s then BeforeLastUnderscore(s) else s
  }

  /** `set(c.rsplit('_', 1)[0] for c in landmark_cols)` */
  function LandmarkBases(columns: seq<string>): set<string> {
    set c | c in LandmarkColumns(columns) :: RSplitHead(c)
  }

  /** Both coordinates of `base` hold numbers in both rows. */
  predicate CompletePair(prev: Row, curr: Row, base: string) {
    && base + "_x" in prev.cells && base + "_y" in prev.cells
    && base + "_x" in curr.cells && base + "_y" in curr.cells
  }

  /** The squared displacement of `base` from `prev` to `curr`. */
  function Displacement(prev: Row, curr: Row, base: string): real
    requires CompletePair(prev, curr, base)
  {
    SqDist(prev.cells[base + "_x"], prev.cells[base + "_y"], curr.cells[base + "_x"], curr.cells[base + "_y"])
  }

  /** Landmark `base` is present in both rows and moved by more than the threshold. */
  predicate LandmarkJumped(prev: Row, curr: Row, base: string, threshold: real) {
    CompletePair(prev, curr, base) && Exceeds(Displacement(prev, curr, base), threshold)
  }

  /** Row `i` is a pose jump: some landmark base of the table jumped from row `i - 1`. */
  predicate IsPoseJump(t: Table, i: int, threshold: real)
    requires 1 <= i < |t.rows|
  {
    exists b :: b in LandmarkBases(t.columns) && LandmarkJumped(t.rows[i - 1], t.rows[i], b, threshold)
  }

  /** The pose-jump events for the rows in [1, k), in row order. */
  function PoseJumpsUpTo(t: Table, threshold: real, k: nat): seq<CheatEvent>
    requires k <= |t.rows| || k <= 1
    decreases k
  {
    if k <= 1 then []
    else
      PoseJumpsUpTo(t, threshold, k - 1)
        + (if IsPoseJump(t, k - 1, threshold) then [PoseJumpEvent(t.rows[k - 1].frameIndex)] else [])
  }

  function PoseJumpEvent(frameIndex: int): CheatEvent {
    CheatEvent(Some(frameIndex), PoseJumpType, "Unnatural landmark jump detected.", PoseJumpSeverity)
  }

  /** The events `detect_pose_jumps` returns for a table. */
  function PoseJumps(t: Table, threshold: real): seq<CheatEvent> {
    PoseJumpsUpTo(t, threshold, |t.rows|)
  }

  /** The rows in [1, k) that are pose jumps, in increasing order. */
  ghost function PoseJumpRows(t: Table, threshold: real, k: nat): seq<nat>
    requires k <= |t.rows| || k <= 1
    decreases k
  {
    if k <= 1 then []
    else PoseJumpRows(t, threshold, k - 1) + (if IsPoseJump(t, k - 1, threshold) then [k - 1] else [])
  }

  /**
    The pose-jump events up to row k are one event per pose-jump row, in
    increasing row order, each at that row's frame_index; the rows listed
    are exactly the pose jumps in [1, k).
  */
  lemma {:induction false} PoseJumpsExact(t: Table, threshold: real, k: nat)
    requires k <= |t.rows| || k <= 1
    ensures var rows, events := PoseJumpRows(t, threshold, k), PoseJumpsUpTo(t, threshold, k);
      && |events| == |rows|
      && (forall j :: 0 <= j < |rows| ==>
            && 1 <= rows[j] < k && rows[j] < |t.rows|
            && IsPoseJump(t, rows[j], threshold)
            && events[j] == PoseJumpEvent(t.rows[rows[j]].frameIndex))
      && (forall i :: 1 <= i < k && i < |t.rows| && IsPoseJump(t, i, threshold) ==> i in rows)
      && StrictlyIncreasing(rows)
      && (k >= 1 ==> |rows| <= k - 1)
    decreases k
  {
    if k > 1 {
      PoseJumpsExact(t, threshold, k - 1);
    }
  }

  /** The bases of `bases` whose two coordinates are present in both rows. */
  function CompleteBases(prev: Row, curr: Row, bases: set<string>): set<string> {
    set b | b in bases && CompletePair(prev, curr, b)
  }

  /** No name occurs twice. */
  predicate Distinct(s: seq<string>) {
    forall i, j :: 0 <= i < j < |s| ==> s[i] != s[j]
  }

  /** A list without repetitions has as many elements as its set. */
  lemma {:induction false} DistinctCard(s: seq<string>)
    requires Distinct(s)
    ensures |set x | x in s| == |s|
    decreases |s|
  {
    if s != [] {
      var front := s[..|s| - 1];
      DistinctCard(front);
      assert (set x | x in s) == (set x | x in front) + {s[|s| - 1]};
      assert s[|s| - 1] !in (set x | x in front);
    }
  }

  /**
    `displacements[k]` is the squared displacement of landmark
    `sources[k]`, a base of `bases` present in both rows; every such base
    is among the sources, and none twice.
  */
  ghost predicate ListsDisplacements(prev: Row, curr: Row, bases: set<string>,
                                     displacements: seq<real>, sources: seq<string>) {
    && |displacements| == |sources|
    && (forall k :: 0 <= k < |sources| ==>
          && sources[k] in bases
          && CompletePair(prev, curr, sources[k])
          && displacements[k] == Displacement(prev, curr, sources[k]))
    && (forall b :: b in bases && CompletePair(prev, curr, b) ==> b in sources)
    && Distinct(sources)
  }

  lemma ListsDisplacementsStep(prev: Row, curr: Row, done: set<string>, base: string,
                               displacements: seq<real>, sources: seq<string>)
    requires ListsDisplacements(prev, curr, done, displacements, sources)
    requires base !in done
    ensures CompletePair(prev, curr, base) ==>
      ListsDisplacements(prev, curr, done + {base},
        displacements + [Displacement(prev, curr, base)], sources + [base])
    ensures !CompletePair(prev, curr, base) ==>
      ListsDisplacements(prev, curr, done + {base}, displacements, sources)
  {
  }

  /**
    The inner loop of `detect_pose_jumps`: the displacement of every
    landmark base whose two coordinates are present in both rows.
  */
  method LandmarkDisplacements(prevRow: Row, currRow: Row, landmarkBases: set<string>)
    returns (displacements: seq<real>, ghost sources: seq<string>)
    ensures ListsDisplacements(prevRow, currRow, landmarkBases, displacements, sources)
    ensures |displacements| == |CompleteBases(prevRow, currRow, landmarkBases)|
  {
    displacements, sources := [], [];
    var remaining := landmarkBases;
    while remaining != {}
      invariant remaining <= landmarkBases
      invariant ListsDisplacements(prevRow, currRow, landmarkBases - remaining, displacements, sources)
      decreases remaining
    {
      var base :| base in remaining;
      ListsDisplacementsStep(prevRow, currRow, landmarkBases - remaining, base, displacements, sources);
      var prevX, prevY := Cell(prevRow, base + "_x"), Cell(prevRow, base + "_y");
      var currX, currY := Cell(currRow, base + "_x"), Cell(currRow, base + "_y");
      if prevX.Some? && prevY.Some? && currX.Some? && currY.Some? {
        var dist := SqDist(prevX.value, prevY.value, currX.value, currY.value);
        displacements, sources := displacements + [dist], sources + [base];
      }
      assert landmarkBases - (remaining - {base}) == (landmarkBases - remaining) + {base};
      remaining := remaining - {base};
    }
    assert landmarkBases - remaining == landmarkBases;
    assert (set x | x in sources) == CompleteBases(prevRow, currRow, landmarkBases);
    DistinctCard(sources);
  }

  /**
    The largest displacement exceeds the threshold exactly when some base
    present in both rows moved by more than the threshold; no displacement
    at all means no jump.
  */
  lemma LargestDisplacementDecides(prev: Row, curr: Row, bases: set<string>,
                                   displacements: seq<real>, sources: seq<string>, threshold: real)
    requires ListsDisplacements(prev, curr, bases, displacements, sources)
    ensures (|displacements| > 0 && Exceeds(MaxOf(displacements), threshold))
      <==> exists b :: b in bases && LandmarkJumped(prev, curr, b, threshold)
  {
    if |displacements| > 0 {
      MaxExceeds(displacements, threshold);
    }
    if exists b :: b in bases && LandmarkJumped(prev, curr, b, threshold) {
      var b :| b in bases && LandmarkJumped(prev, curr, b, threshold);
      var k :| 0 <= k < |sources| && sources[k] == b;
      assert Exceeds(displacements[k], threshold);
    }
    if |displacements| > 0 && Exceeds(MaxOf(displacements), threshold) {
      var k :| 0 <= k < |displacements| && Exceeds(displacements[k], threshold);
      assert LandmarkJumped(prev, curr, sources[k], threshold);
    }
  }

  /**
    `detect_pose_jumps`: for each row after the first, collects the
    displacement of every landmark base present in both rows and records
    a pose_jump event at that row's frame_index when the largest exceeds
    the threshold.
  */
  method DetectPoseJumps(t: Table, threshold: real := DefaultPoseThreshold)
    returns (events: seq<CheatEvent>)
    ensures events == PoseJumps(t, threshold)
  {
    events := [];
    var landmarkCols := LandmarkColumns(t.columns);
    var n := |t.rows|;
    var i := 1;
    while i < n
      invariant 1 <= i && (i <= n || i == 1)
      invariant events == PoseJumpsUpTo(t, threshold, i)
    {
      var prevRow := t.rows[i - 1];
      var currRow := t.rows[i];
      var landmarkBases := set c | c in landmarkCols :: RSplitHead(c);
      ghost var sources;
      var displacements;
      displacements, sources := LandmarkDisplacements(prevRow, currRow, landmarkBases);
      LargestDisplacementDecides(prevRow, currRow, landmarkBases, displacements, sources, threshold);
      assert landmarkBases == LandmarkBases(t.columns);
      if |displacements| > 0 && Exceeds(MaxOf(displacements), threshold) {
        events := events + [PoseJumpEvent(currRow.frameIndex)];
      }
      i := i + 1;
    }
  }

  lemma SuffixedNamesDiffer(a: string, b: string)
    ensures a + "_x" == b + "_x" ==> a == b
    ensures a + "_y" == b + "_y" ==> a == b
    ensures a + "_x" != b + "_y"
  {
    if a + "_x" == b + "_x" {
      assert a == (a + "_x")[..|a|];
      assert b == (b + "_x")[..|b|];
    }
    if a + "_y" == b + "_y" {
      assert a == (a + "_y")[..|a|];
      assert b == (b + "_y")[..|b|];
    }
    if |a + "_x"| == |b + "_y"| {
      assert (a + "_x")[|a| + 1] == 'x';
      assert (b + "_y")[|b| + 1] == 'y';
    }
  }

  /** The base of a column named `base + "_x"` is `base`. */
  lemma BaseOfXColumn(base: string)
    ensures IsLandmarkColumn(base + "_x")
    ensures RSplitHead(base + "_x") == base
  {
    var s := base + "_x";
    assert s[|base|] == '_' && s[|base| + 1] == 'x';
    assert '_' in s;
    assert s[..|s| - 1] == base + "_";
    assert (base + "_")[..|base|] == base;
    assert BeforeLastUnderscore(base + "_") == base;
    assert s[|s| - 1] == 'x';
  }

  /** Some landmark, whatever its name, jumped between the two rows. */
  ghost predicate SomeLandmarkJumped(prev: Row, curr: Row, threshold: real) {
    exists b :: LandmarkJumped(prev, curr, b, threshold)
  }

  /**
    Restricting to the landmark bases changes nothing in a well-formed
    table: row i is a pose jump iff SOME name has both coordinates in both
    rows and moved by more than the threshold.
  */
  lemma PoseJumpIffSomeLandmarkJumped(t: Table, i: int, threshold: real)
    requires WellFormed(t) && 1 <= i < |t.rows|
    ensures IsPoseJump(t, i, threshold) <==> SomeLandmarkJumped(t.rows[i - 1], t.rows[i], threshold)
  {
    var prev, curr := t.rows[i - 1], t.rows[i];
    if SomeLandmarkJumped(prev, curr, threshold) {
      var b :| LandmarkJumped(prev, curr, b, threshold);
      BaseOfXColumn(b);
      assert b + "_x" in t.columns;
      assert b + "_x" in LandmarkColumns(t.columns);
      assert b in LandmarkBases(t.columns);
    }
  }

  /** Landmark `base` has both coordinates in row `i` and the row before it. */
  predicate CompleteAtRow(t: Table, i: int, base: string) {
    1 <= i < |t.rows| && CompletePair(t.rows[i - 1], t.rows[i], base)
  }

  /**
    A table where no landmark has both coordinates in two
    consecutive rows (its cells missing in alternate rows, say) yields no
    pose jumps.
  */
  lemma JumpedIsComplete(t: Table, i: int, base: string, threshold: real)
    requires 1 <= i < |t.rows| && LandmarkJumped(t.rows[i - 1], t.rows[i], base, threshold)
    ensures CompleteAtRow(t, i, base)
  {
  }

  lemma NoCompletePairNoPoseJumps(t: Table, threshold: real)
    requires forall i, b :: !CompleteAtRow(t, i, b)
    ensures PoseJumps(t, threshold) == []
  {
    forall i | 1 <= i < |t.rows| ensures !IsPoseJump(t, i, threshold) {
      if IsPoseJump(t, i, threshold) {
        var b :| b in LandmarkBases(t.columns) && LandmarkJumped(t.rows[i - 1], t.rows[i], b, threshold);
        JumpedIsComplete(t, i, b, threshold);
        assert false;
      }
    }
    NoPoseJumpRowsUpTo(t, threshold, |t.rows|);
  }

  /** With no pose-jump row in [1, k), there are no events up to row k. */
  lemma {:induction false} NoPoseJumpRowsUpTo(t: Table, threshold: real, k: nat)
    requires k <= |t.rows|
    requires forall i :: 1 <= i < k ==> !IsPoseJump(t, i, threshold)
    ensures PoseJumpsUpTo(t, threshold, k) == []
    decreases k
  {
    if k > 1 {
      NoPoseJumpRowsUpTo(t, threshold, k - 1);
    }
  }

  /**
    In particular a well-formed table with no landmark whose "_x" and "_y"
    columns both exist (only `nose_x`, say, or only "_y" columns) yields
    no pose jumps.
  */
  lemma NoCoordinatePairColumnsNoPoseJumps(t: Table, threshold: real)
    requires WellFormed(t)
    requires forall b :: !(b + "_x" in t.columns && b + "_y" in t.columns)
    ensures PoseJumps(t, threshold) == []
  {
    forall i, b ensures !CompleteAtRow(t, i, b) {
      assert !(b + "_x" in t.columns && b + "_y" in t.columns);
    }
    NoCompletePairNoPoseJumps(t, threshold);
  }

  /** `row` with landmark `base` added at position (x, y). */
  function WithLandmark(row: Row, base: string, x: real, y: real): Row {
    Row(row.frameIndex, row.cells[base + "_x" := x][base + "_y" := y])
  }

  /**
    Adding a landmark that stands still between two rows (absent from the
    earlier row before) changes nothing: its displacement is zero, and
    the other landmarks keep theirs.
  */
  lemma StationaryLandmarkIrrelevant(prev: Row, curr: Row, still: string, x: real, y: real, threshold: real)
    requires threshold >= 0.0
    requires still + "_x" !in prev.cells
    ensures SomeLandmarkJumped(WithLandmark(prev, still, x, y), WithLandmark(curr, still, x, y), threshold)
      <==> SomeLandmarkJumped(prev, curr, threshold)
  {
    var prev', curr' := WithLandmark(prev, still, x, y), WithLandmark(curr, still, x, y);
    forall b
      ensures LandmarkJumped(prev', curr', b, threshold) <==> LandmarkJumped(prev, curr, b, threshold)
    {
      SuffixedNamesDiffer(b, still);
      SuffixedNamesDiffer(still, b);
      if b == still {
        assert Displacement(prev', curr', b) == 0.0;
      } else {
        assert CompletePair(prev', curr', b) <==> CompletePair(prev, curr, b);
        if CompletePair(prev, curr, b) {
          assert Displacement(prev', curr', b) == Displacement(prev, curr, b);
        }
      }
    }
  }

  /**
    When one landmark moves and every other complete landmark stands
    still, an event is due exactly when that landmark's displacement
    exceeds the threshold, however many other landmarks there are.
  */
  lemma OnlyMoverDecides(prev: Row, curr: Row, mover: string, threshold: real)
    requires threshold >= 0.0
    requires CompletePair(prev, curr, mover)
    requires forall b :: b != mover && CompletePair(prev, curr, b) ==> Displacement(prev, curr, b) == 0.0
    ensures SomeLandmarkJumped(prev, curr, threshold) <==> Exceeds(Displacement(prev, curr, mover), threshold)
  {
    if SomeLandmarkJumped(prev, curr, threshold) {
      var b :| LandmarkJumped(prev, curr, b, threshold);
      if b != mover {
        assert Displacement(prev, curr, b) == 0.0;
      }
    } else {
      assert !LandmarkJumped(prev, curr, mover, threshold);
    }
  }

  /**
    Every pose-jump event has type pose_jump and severity 0.7, and a table
    of n rows yields at most n - 1 of them, one per consecutive row pair.
  */
  lemma PoseJumpsSound(t: Table, threshold: real)
    ensures var events := PoseJumps(t, threshold);
      && (forall j :: 0 <= j < |events| ==>
            && events[j].frameIndex.Some?
            && events[j].eventType == PoseJumpType
            && events[j].severity == PoseJumpSeverity
            && SeverityInRange(events[j]))
      && (|t.rows| >= 1 ==> |events| <= |t.rows| - 1)
  {
    PoseJumpsExact(t, threshold, |t.rows|);
  }

  // ---------------------------------------------------------------------
  // Aggregation
  // ---------------------------------------------------------------------

  /** The report `run_all_checks` builds. */
  function AllChecks(video: Video, t: Table, overallThreshold: int): (r: CheatingReport)
    requires Decodable(video)
    ensures ReportConsistent(r, overallThreshold)
  {
    var events := SceneCuts(video, DefaultSceneThreshold)
      + (if |t.rows| == 0 then [] else PoseJumps(t, DefaultPoseThreshold));
    CheatingReport(|events| > overallThreshold, |events|, events)
  }

  /**
    `run_all_checks`: the scene-cut events, then the pose-jump events
    unless the table is empty, counted and compared with the threshold.
  */
  method RunAllChecks(video: Video, t: Table, overallThreshold: int := DefaultOverallThreshold)
    returns (report: CheatingReport)
    requires Decodable(video)
    ensures report == AllChecks(video, t, overallThreshold)
    ensures ReportConsistent(report, overallThreshold)
  {
    var allEvents: seq<CheatEvent> := [];
    var sceneEvents := DetectSceneChanges(video);
    allEvents := allEvents + sceneEvents;
    if |t.rows| != 0 {
      var poseEvents := DetectPoseJumps(t);
      allEvents := allEvents + poseEvents;
    }
    var totalInconsistencies := |allEvents|;
    var tamperingSuspected := totalInconsistencies > overallThreshold;
    report := CheatingReport(tamperingSuspected, totalInconsistencies, allEvents);
  }

  /** The number of events of one type. */
  function CountOfType(events: seq<CheatEvent>, eventType: string): nat
    decreases |events|
  {
    if events == [] then 0
    else
      var last := if events[|events| - 1].eventType == eventType then 1 else 0;
      CountOfType(events[..|events| - 1], eventType) + last
  }

  lemma {:induction false} CountOfTypeAppend(a: seq<CheatEvent>, b: seq<CheatEvent>, eventType: string)
    ensures CountOfType(a + b, eventType) == CountOfType(a, eventType) + CountOfType(b, eventType)
    decreases |b|
  {
    if b == [] {
      assert a + b == a;
    } else {
      CountOfTypeAppend(a, b[..|b| - 1], eventType);
      assert (a + b)[..|a + b| - 1] == a + b[..|b| - 1];
      assert (a + b)[|a + b| - 1] == b[|b| - 1];
    }
  }

  lemma {:induction false} CountOfUniformType(events: seq<CheatEvent>, eventType: string, other: string)
    requires eventType != other
    requires forall j :: 0 <= j < |events| ==> events[j].eventType == eventType
    ensures CountOfType(events, eventType) == |events|
    ensures CountOfType(events, other) == 0
    decreases |events|
  {
    if events != [] {
      CountOfUniformType(events[..|events| - 1], eventType, other);
    }
  }

  /**
    The report's count is the number of scene_cut events plus the number
    of pose_jump events, the scene-cut events come first, and an empty
    table contributes no pose_jump event.
  */
  lemma AllChecksCountsBothDetectors(video: Video, t: Table, overallThreshold: int)
    requires Decodable(video)
    ensures var r := AllChecks(video, t, overallThreshold);
      && r.totalInconsistencies
           == CountOfType(r.events, SceneCutType) + CountOfType(r.events, PoseJumpType)
      && r.events[..|SceneCuts(video, DefaultSceneThreshold)|] == SceneCuts(video, DefaultSceneThreshold)
      && (|t.rows| == 0 ==> CountOfType(r.events, PoseJumpType) == 0)
  {
    var scene := SceneCuts(video, DefaultSceneThreshold);
    var pose := if |t.rows| == 0 then [] else PoseJumps(t, DefaultPoseThreshold);
    if video.Opened? {
      SceneCutsSound(video.frames, DefaultSceneThreshold);
    }
    CountOfUniformType(scene, SceneCutType, PoseJumpType);
    PoseJumpsSound(t, DefaultPoseThreshold);
    CountOfUniformType(pose, PoseJumpType, SceneCutType);
    CountOfTypeAppend(scene, pose, SceneCutType);
    CountOfTypeAppend(scene, pose, PoseJumpType);
    assert (scene + pose)[..|scene|] == scene;
  }
}
