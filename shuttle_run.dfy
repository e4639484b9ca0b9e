/**
  The 4x10 m shuttle run analysis after landmark extraction: the turns are
  the peaks and troughs of the horizontal body centre merged in frame
  order; the run ends at the third turn, and the laps are the frame
  differences between the start, the first three turns and the end.
*/
module ShuttleRun {
  import opened Wrappers
  import opened Signals
  import opened Base
  import opened Types
  import opened Errors
  import CheatDetection

  const TestName: string := "shuttle_run"
  const BodyCenterX: string := "body_center_x"
  const TurnsNeeded: nat := 3
  const ShuttleConfidence: real := 0.88

  /** The minimal distance between two turns of one kind: half a second of frames, not truncated. */
  function TurnDistance(fps: real): real {
    fps * 0.5
  }

  /** `sorted(list(np.concatenate([peaks, troughs])))`: all turns in frame order. */
  function Turns(peaks: seq<nat>, troughs: seq<nat>): (turns: seq<nat>)
    requires SortedAsc(peaks) && SortedAsc(troughs)
    ensures |turns| == |peaks| + |troughs|
    ensures SortedAsc(turns)
    ensures multiset(turns) == multiset(peaks + troughs)
  {
    var turns := Merge(peaks, troughs);
    assert |multiset(turns)| == |multiset(peaks)| + |multiset(troughs)|;
    turns
  }

  /** Any sorted arrangement of the peaks and troughs is exactly the merged turn list. */
  lemma TurnsAreTheSortedConcatenation(peaks: seq<nat>, troughs: seq<nat>, s: seq<nat>)
    requires SortedAsc(peaks) && SortedAsc(troughs)
    requires SortedAsc(s) && multiset(s) == multiset(peaks + troughs)
    ensures s == Turns(peaks, troughs)
  {
    SortedPermutationUnique(s, Turns(peaks, troughs));
  }

  /**
    `np.diff([0] + turns[:3] + [turns[2]])`: the frames of each lap. They
    are t0, t1 - t0, t2 - t1 and 0, add up to the third turn, and for
    sorted turns each lies between 0 and the third turn.
  */
  function LapFrames(turns: seq<nat>): (laps: seq<int>)
    requires |turns| >= TurnsNeeded
    ensures laps == [turns[0] as int, turns[1] as int - turns[0] as int, turns[2] as int - turns[1] as int, 0]
    ensures SumInt(laps) == turns[2]
    ensures SortedAsc(turns) ==> forall k :: 0 <= k < |laps| ==> 0 <= laps[k] <= turns[2]
  {
    var turnFrames: seq<int> := [0] + turns[..3] + [turns[2]];
    DiffTelescopes(turnFrames);
    Diff(turnFrames)
  }

  /** `[int((f / fps) * 1000) for f in lap_frames]` */
  function LapTimes(laps: seq<int>, fps: real): seq<int>
    requires fps > 0.0
  {
    seq(|laps|, k requires 0 <= k < |laps| => Trunc(laps[k] as real / fps * 1000.0))
  }

  /**
    The shuttle metrics: the total time is the third turn's frame in
    milliseconds; there are four lap times, each the truncated time of its
    lap, the last always 0, and for sorted turns none exceeds the total.
  */
  function ShuttleMetrics(turns: seq<nat>, fps: real): (m: Metrics)
    requires |turns| >= TurnsNeeded && fps > 0.0
    ensures m.ShuttleRunMetrics?
    ensures m.totalTimeMs == Trunc(turns[2] as real / fps * 1000.0) && m.totalTimeMs >= 0
    ensures |m.lapTimesMs| == 4
    ensures forall k :: 0 <= k < 4 ==> m.lapTimesMs[k] == Trunc(LapFrames(turns)[k] as real / fps * 1000.0)
    ensures m.lapTimesMs[3] == 0
    ensures SortedAsc(turns) ==> forall k :: 0 <= k < 4 ==> 0 <= m.lapTimesMs[k] <= m.totalTimeMs
  {
    var startFrame := 0;
    var endFrame := turns[2];
    var totalTimeS := (endFrame - startFrame) as real / fps;
    var laps := LapFrames(turns);
    var lapTimesMs := LapTimes(laps, fps);
    assert SortedAsc(turns) ==> forall k :: 0 <= k < 4 ==> 0 <= lapTimesMs[k] <= Trunc(totalTimeS * 1000.0) by {
      if SortedAsc(turns) {
        forall k | 0 <= k < 4 ensures 0 <= lapTimesMs[k] <= Trunc(totalTimeS * 1000.0) {
          MillisMonotone(laps[k], turns[2], fps);
          TruncMonotone(laps[k] as real / fps * 1000.0, totalTimeS * 1000.0);
        }
      }
    }
    ShuttleRunMetrics(Trunc(totalTimeS * 1000.0), lapTimesMs[..4])
  }

  /**
    `analyze_shuttle_run` after acquisition: `peaks` and `troughs` are what
    the peak finder returns for the body centre and its negation.
  */
  function AnalyzeShuttleRun(props: VideoProperties, t: Table, video: CheatDetection.Video, athleteId: string,
                             peaks: seq<nat>, troughs: seq<nat>): (r: Result<TestResult, AnalysisError>)
    requires Filled(ColumnOf(t, BodyCenterX))
    requires CheatDetection.Decodable(video)
    requires !NoSignal(t, BodyCenterX) && PeakDistanceAccepted(TurnDistance(props.fps)) ==>
      && IsPeakSet(ColumnValues(t, BodyCenterX), None, TurnDistance(props.fps), peaks)
      && IsPeakSet(Negate(ColumnValues(t, BodyCenterX)), None, TurnDistance(props.fps), troughs)
    ensures NoSignal(t, BodyCenterX) ==> r == Failure(NoPersonDetected)
    ensures !NoSignal(t, BodyCenterX) && !PeakDistanceAccepted(TurnDistance(props.fps)) ==>
      r == Failure(PeakDistanceTooSmall)
    ensures !NoSignal(t, BodyCenterX) && PeakDistanceAccepted(TurnDistance(props.fps)) ==>
      && (r.Success? <==> |peaks| + |troughs| >= TurnsNeeded)
      && (r.Failure? ==> r.error == NotEnoughTurns(|peaks| + |troughs|))
    ensures r.Success? ==>
      && props.fps > 0.0
      && r.value.testName == TestName && r.value.athleteId == athleteId
      && r.value.valid && r.value.confidence == ShuttleConfidence
      && r.value.metrics == ShuttleMetrics(Turns(peaks, troughs), props.fps)
      && r.value.cheatFlags == CheatDetection.AllChecks(video, t, CheatDetection.DefaultOverallThreshold)
  {
    if NoSignal(t, BodyCenterX) then Failure(NoPersonDetected)
    else if !PeakDistanceAccepted(TurnDistance(props.fps)) then Failure(PeakDistanceTooSmall)
    else
      var turns := Turns(peaks, troughs);
      if |turns| < TurnsNeeded then Failure(NotEnoughTurns(|turns|))
      else
        var metrics := ShuttleMetrics(turns, props.fps);
        var report := CheatDetection.AllChecks(video, t, CheatDetection.DefaultOverallThreshold);
        Validated(NewTestResult(TestName, athleteId, metrics, true, ShuttleConfidence, report))
  }
}
