/**
  The endurance run analysis after landmark extraction: the time is the
  video's length; the cadence counts two steps per dip of the right ankle;
  fatigue is a drop of the mean stride between the first and the last
  fifth of the run; the confidence is the share of frames with the ankle
  tracked.
*/
module EnduranceRun {
  import opened Wrappers
  import opened Signals
  import opened Base
  import opened Types
  import opened Errors
  import CheatDetection

  const TestName: string := "endurance_run"
  const RightAnkleY: string := "right_ankle_y"
  const StrideLength: string := "stride_length"
  const DefaultDistanceM: int := 800
  /** Fatigue is only judged on more stride samples than this. */
  const FatigueMinSamples: nat := 20
  const FatigueRatio: real := 0.9
  /** A run is valid when the ankle was tracked in more than this share of frames. */
  const ValidConfidence: real := 0.8

  /** `frame_count / fps`, or 0 for a video without a usable frame rate. */
  function TotalTimeS(props: VideoProperties): (s: real)
    ensures props.fps > 0.0 ==> s * props.fps == props.frameCount as real
    ensures props.fps <= 0.0 ==> s == 0.0
  {
    if props.fps > 0.0 then props.frameCount as real / props.fps else 0.0
  }

  /** `int(fps * 0.3)`: ankle dips are at least 0.3 s apart. */
  function PeakDistance(fps: real): real {
    Trunc(fps * 0.3) as real
  }

  /**
    Steps per minute: two steps per ankle dip over the run's length in
    minutes, or 0 for a run of no length.
  */
  function Cadence(dips: nat, totalTimeS: real): (c: real)
    ensures totalTimeS > 0.0 ==> c * totalTimeS == 120.0 * dips as real && c >= 0.0
    ensures totalTimeS <= 0.0 ==> c == 0.0
  {
    if totalTimeS > 0.0 then dips as real * 2.0 / (totalTimeS / 60.0) else 0.0
  }

  /** Seconds per kilometre, or 0 without a positive distance. */
  function Pace(totalTimeS: real, distanceM: int): (p: real)
    ensures distanceM > 0 ==> p * distanceM as real == 1000.0 * totalTimeS
    ensures distanceM > 0 && totalTimeS >= 0.0 ==> p >= 0.0
    ensures distanceM <= 0 ==> p == 0.0
  {
    if distanceM > 0 then totalTimeS / (distanceM as real / 1000.0) else 0.0
  }

  /** `int(n * 0.2)`: one fifth of the samples, at least 4 when fatigue is judged. */
  function FatigueWindow(n: nat): (w: nat)
    requires n > FatigueMinSamples
    ensures 4 <= w && 5 * w <= n < 5 * (w + 1)
  {
    var w := Trunc(n as real * 0.2);
    w
  }

  /**
    Whether the mean stride of the last fifth of the samples is below 90%
    of that of the first fifth; never with 20 samples or fewer.
  */
  function FatigueDetected(stride: seq<real>): (f: bool)
    ensures |stride| <= FatigueMinSamples ==> !f
  {
    if |stride| > FatigueMinSamples then
      var w := FatigueWindow(|stride|);
      var startAvg := Mean(stride[..w]);
      var endAvg := Mean(stride[|stride| - w..]);
      endAvg < startAvg * FatigueRatio
    else false
  }

  /**
    No fatigue when the stride holds up: if every stride of the last fifth
    is at least 90% of every stride of the first fifth (through bounds
    `hi` and `lo`), the averages cannot fall far enough.
  */
  lemma StrideHeldNoFatigue(stride: seq<real>, hi: real, lo: real)
    requires |stride| > FatigueMinSamples
    requires forall i :: 0 <= i < FatigueWindow(|stride|) ==> stride[i] <= hi
    requires forall j :: |stride| - FatigueWindow(|stride|) <= j < |stride| ==> lo <= stride[j]
    requires FatigueRatio * hi <= lo
    ensures !FatigueDetected(stride)
  {
    var w := FatigueWindow(|stride|);
    MeanAtMost(stride[..w], hi);
    MeanAtLeast(stride[|stride| - w..], lo);
  }

  /**
    Fatigue when the stride shrinks: if every stride of the last fifth is
    at most `hi`, every stride of the first fifth at least `lo`, and `hi`
    is below 90% of `lo`, fatigue is reported.
  */
  lemma StrideShrankFatigue(stride: seq<real>, lo: real, hi: real)
    requires |stride| > FatigueMinSamples
    requires forall i :: 0 <= i < FatigueWindow(|stride|) ==> lo <= stride[i]
    requires forall j :: |stride| - FatigueWindow(|stride|) <= j < |stride| ==> stride[j] <= hi
    requires hi < FatigueRatio * lo
    ensures FatigueDetected(stride)
  {
    var w := FatigueWindow(|stride|);
    MeanAtLeast(stride[..w], lo);
    MeanAtMost(stride[|stride| - w..], hi);
  }

  /**
    `1 - (NaN count / frames)`: the share of frames with the ankle
    tracked, between 0 and 1.
  */
  function TrackingConfidence(ankle: Column): (c: real)
    requires |ankle| > 0
    ensures 0.0 <= c <= 1.0
    ensures c * |ankle| as real == (|ankle| - CountMissing(ankle)) as real
    ensures Complete(ankle) ==> c == 1.0
    ensures AllMissing(ankle) ==> c == 0.0
  {
    var n, missing := |ankle| as real, CountMissing(ankle) as real;
    DivWithinUnit(missing, n);
    DivMul(missing, n);
    assert AllMissing(ankle) ==> missing / n == 1.0 by {
      MulDivCancel(n, 1.0);
    }
    1.0 - missing / n
  }

  /**
    The endurance metrics for the tracked ankle heights, the ankle dips
    found in them and the tracked strides: the declared distance, the
    video's length in whole milliseconds, the pace over that distance, the
    cadence (0 when the ankle was never tracked) and the fatigue verdict.
  */
  function EnduranceMetricsOf(props: VideoProperties, distanceM: int, ankle: seq<real>, dips: nat, stride: seq<real>)
    : (m: Metrics)
    ensures m.EnduranceRunMetrics? && m.distanceM == distanceM
    ensures m.timeMs == Trunc(TotalTimeS(props) * 1000.0)
    ensures props.frameCount >= 0 ==> m.timeMs >= 0
    ensures m.paceSPerKm == Pace(TotalTimeS(props), distanceM)
    ensures |ankle| == 0 ==> m.averageCadenceSpm == 0.0
    ensures |ankle| > 0 ==> m.averageCadenceSpm == Cadence(dips, TotalTimeS(props))
    ensures m.averageCadenceSpm >= 0.0
    ensures m.fatigueDetected == FatigueDetected(stride)
  {
    var totalTimeS := TotalTimeS(props);
    var cadence := if |ankle| > 0 then Cadence(dips, totalTimeS) else 0.0;
    var pace := Pace(totalTimeS, distanceM);
    var fatigue := FatigueDetected(stride);
    assert props.frameCount >= 0 ==> totalTimeS >= 0.0 by {
      if props.frameCount >= 0 && props.fps > 0.0 {
        assert totalTimeS * props.fps >= 0.0;
      }
    }
    EnduranceRunMetrics(distanceM, Trunc(totalTimeS * 1000.0), pace, cadence, fatigue)
  }

  /**
    `analyze_endurance_run` after acquisition: `peaks` is what the peak
    finder returns for the negated tracked ankle heights, `distanceM` the
    declared distance, 800 m unless given. A table without rows has no ankle column at all.
  */
  function AnalyzeEnduranceRun(props: VideoProperties, t: Table, video: CheatDetection.Video, athleteId: string,
                               peaks: seq<nat>, distanceM: int := DefaultDistanceM): (r: Result<TestResult, AnalysisError>)
    requires Filled(ColumnOf(t, RightAnkleY)) && Filled(ColumnOf(t, StrideLength))
    requires CoMissing(ColumnOf(t, RightAnkleY), ColumnOf(t, StrideLength))
    requires CheatDetection.Decodable(video)
    requires |DropNa(ColumnOf(t, RightAnkleY))| > 0 && PeakDistanceAccepted(PeakDistance(props.fps)) ==>
      IsPeakSet(Negate(DropNa(ColumnOf(t, RightAnkleY))), None, PeakDistance(props.fps), peaks)
    ensures |t.rows| == 0 ==> r == Failure(MissingColumn(RightAnkleY))
    ensures |t.rows| > 0 ==>
      (r.Failure? <==> |DropNa(ColumnOf(t, RightAnkleY))| > 0 && !PeakDistanceAccepted(PeakDistance(props.fps)))
    ensures r.Failure? ==> r.error == MissingColumn(RightAnkleY) || r.error == PeakDistanceTooSmall
    ensures r.Success? ==>
      && |t.rows| > 0
      && r.value.testName == TestName && r.value.athleteId == athleteId
      && r.value.confidence == TrackingConfidence(ColumnOf(t, RightAnkleY))
      && r.value.valid == (r.value.confidence > ValidConfidence)
      && r.value.metrics == EnduranceMetricsOf(props, distanceM, DropNa(ColumnOf(t, RightAnkleY)), |peaks|,
           DropNa(ColumnOf(t, StrideLength)))
      && r.value.cheatFlags == CheatDetection.AllChecks(video, t, CheatDetection.DefaultOverallThreshold)
  {
    if |t.rows| == 0 then Failure(MissingColumn(RightAnkleY))
    else
      var ankle := DropNa(ColumnOf(t, RightAnkleY));
      if |ankle| > 0 && !PeakDistanceAccepted(PeakDistance(props.fps)) then Failure(PeakDistanceTooSmall)
      else
        var metrics := EnduranceMetricsOf(props, distanceM, ankle, |peaks|, DropNa(ColumnOf(t, StrideLength)));
        var confidence := TrackingConfidence(ColumnOf(t, RightAnkleY));
        var report := CheatDetection.AllChecks(video, t, CheatDetection.DefaultOverallThreshold);
        Validated(NewTestResult(TestName, athleteId, metrics, confidence > ValidConfidence, confidence, report))
  }

  /**
    Since gap filling leaves the ankle column either complete or empty, an
    analysed run is valid exactly when the ankle was tracked at all; a run
    where it never was reports confidence 0, no cadence and no fatigue.
  */
  lemma ValidExactlyWhenTracked(props: VideoProperties, t: Table, video: CheatDetection.Video, athleteId: string,
                                peaks: seq<nat>, distanceM: int)
    requires Filled(ColumnOf(t, RightAnkleY)) && Filled(ColumnOf(t, StrideLength))
    requires CoMissing(ColumnOf(t, RightAnkleY), ColumnOf(t, StrideLength))
    requires CheatDetection.Decodable(video)
    requires |DropNa(ColumnOf(t, RightAnkleY))| > 0 && PeakDistanceAccepted(PeakDistance(props.fps)) ==>
      IsPeakSet(Negate(DropNa(ColumnOf(t, RightAnkleY))), None, PeakDistance(props.fps), peaks)
    requires AnalyzeEnduranceRun(props, t, video, athleteId, peaks, distanceM).Success?
    ensures var res := AnalyzeEnduranceRun(props, t, video, athleteId, peaks, distanceM).value;
      res.valid <==> !AllMissing(ColumnOf(t, RightAnkleY))
    ensures var res := AnalyzeEnduranceRun(props, t, video, athleteId, peaks, distanceM).value;
      AllMissing(ColumnOf(t, RightAnkleY)) ==>
        res.confidence == 0.0 && res.metrics.averageCadenceSpm == 0.0 && !res.metrics.fatigueDetected
  {
    var ankle := ColumnOf(t, RightAnkleY);
    if AllMissing(ankle) {
      assert AllMissing(ColumnOf(t, StrideLength));
      assert DropNa(ankle) == [] && DropNa(ColumnOf(t, StrideLength)) == [];
    } else {
      assert Complete(ankle);
    }
  }
}
