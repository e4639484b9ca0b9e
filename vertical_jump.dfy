/**
  The vertical jump analysis after landmark extraction: jumps are the
  peaks of the negated mean ankle height; the highest one is measured from
  the lowest point in the second before it, and scaled to centimetres by
  the athlete's reference height over the ankle-to-shoulder distance.
*/
module VerticalJump {
  import opened Wrappers
  import opened Signals
  import opened Base
  import opened Types
  import opened Errors
  import CheatDetection

  const TestName: string := "vertical_jump"
  const LeftAnkleY: string := "left_ankle_y"
  const RightAnkleY: string := "right_ankle_y"
  const LeftShoulderY: string := "left_shoulder_y"
  const RightShoulderY: string := "right_shoulder_y"
  const JumpConfidence: real := 0.9

  /**
    What gap filling leaves of the four columns recorded together from one
    pose detection: each filled everywhere or nowhere, all alike.
  */
  predicate Captured(t: Table) {
    && Filled(ColumnOf(t, LeftAnkleY)) && Filled(ColumnOf(t, RightAnkleY))
    && Filled(ColumnOf(t, LeftShoulderY)) && Filled(ColumnOf(t, RightShoulderY))
    && CoMissing(ColumnOf(t, LeftAnkleY), ColumnOf(t, RightAnkleY))
    && CoMissing(ColumnOf(t, LeftAnkleY), ColumnOf(t, LeftShoulderY))
    && CoMissing(ColumnOf(t, LeftAnkleY), ColumnOf(t, RightShoulderY))
  }

  /** `-((left_ankle_y + right_ankle_y) / 2)`: larger when the feet are higher in the image. */
  function InvertedAnkle(leftAnkle: seq<real>, rightAnkle: seq<real>): (x: seq<real>)
    requires |leftAnkle| == |rightAnkle|
    ensures |x| == |leftAnkle|
  {
    seq(|leftAnkle|, i requires 0 <= i < |leftAnkle| => -((leftAnkle[i] + rightAnkle[i]) / 2.0))
  }

  /** The signal of a table with the ankles present. */
  function Signal(t: Table): (x: seq<real>)
    requires Complete(ColumnOf(t, LeftAnkleY)) && Complete(ColumnOf(t, RightAnkleY))
    ensures |x| == |t.rows|
  {
    InvertedAnkle(ColumnValues(t, LeftAnkleY), ColumnValues(t, RightAnkleY))
  }

  /** `int(fps * 0.5)`: jumps are at least half a second apart. */
  function PeakDistance(fps: real): real {
    Trunc(fps * 0.5) as real
  }

  /** A frame rate the peak finder accepts leaves at least one frame in the take-off window. */
  lemma AcceptedRateGivesWindow(fps: real)
    requires PeakDistanceAccepted(PeakDistance(fps))
    ensures Trunc(fps) >= 1
  {
    assert fps * 0.5 >= 1.0;
  }

  /**
    `peaks[np.argmax(inverted_y[peaks])]`: the frame of the highest peak,
    the earliest of the highest when several are equally high.
  */
  function HighestPeak(x: seq<real>, peaks: seq<nat>): (h: nat)
    requires |peaks| > 0 && forall k :: 0 <= k < |peaks| ==> peaks[k] < |x|
    requires StrictlyIncreasing(peaks)
    ensures h in peaks
    ensures forall k :: 0 <= k < |peaks| ==> x[peaks[k]] <= x[h]
    ensures forall k :: 0 <= k < |peaks| && peaks[k] < h ==> x[peaks[k]] < x[h]
  {
    var i := ArgMax(Select(x, peaks));
    assert forall k :: 0 <= k < |peaks| && peaks[k] < peaks[i] ==> k < i;
    peaks[i]
  }

  /** `max(0, highest_peak_idx - int(fps))`: the first frame of the take-off window. */
  function WindowStart(highest: nat, fps: real): nat {
    if highest - Trunc(fps) > 0 then highest - Trunc(fps) else 0
  }

  /**
    The take-off frame: the first frame of lowest signal in the window of
    up to one second before the highest peak.
  */
  function Takeoff(x: seq<real>, highest: nat, fps: real): (k: nat)
    requires 1 <= highest < |x| && Trunc(fps) >= 1
    ensures WindowStart(highest, fps) <= k < highest
    ensures forall j :: WindowStart(highest, fps) <= j < highest ==> x[k] <= x[j]
    ensures forall j :: WindowStart(highest, fps) <= j < k ==> x[k] < x[j]
  {
    var start := WindowStart(highest, fps);
    var window := x[start..highest];
    var m := ArgMin(window);
    assert forall j :: start <= j < highest ==> x[j] == window[j - start];
    start + m
  }

  /**
    The jump height in normalized units is never negative: the window
    holds the frame just before the peak, and a peak is at least as high
    as its left neighbour.
  */
  lemma JumpHeightNonNegative(x: seq<real>, highest: nat, fps: real)
    requires 1 <= highest < |x| && Trunc(fps) >= 1
    requires x[highest - 1] <= x[highest]
    ensures x[highest] - x[Takeoff(x, highest, fps)] >= 0.0
  {
    var k := Takeoff(x, highest, fps);
    assert x[k] <= x[highest - 1];
  }

  /**
    `max_jump_height_cm`: 0 unless the reference height is set and non-zero
    and the ankle-to-shoulder distance is positive; then the normalized
    height times the reference height over that distance.
  */
  function ScaledHeight(normalized: real, refHeight: Option<real>, torso: real): (cm: real)
    ensures !Truthy(refHeight) || torso <= 0.0 ==> cm == 0.0
    ensures Truthy(refHeight) && torso > 0.0 ==> cm * torso == normalized * refHeight.value
    ensures normalized >= 0.0 && (refHeight.Some? ==> refHeight.value >= 0.0) ==> cm >= 0.0
  {
    if Truthy(refHeight) && torso > 0.0 then
      var pixelToCmRatio := refHeight.value / torso;
      assert pixelToCmRatio * torso == refHeight.value;
      normalized * pixelToCmRatio
    else 0.0
  }

  /** `abs(mean(left_ankle_y) - mean(left_shoulder_y))` */
  function TorsoLength(leftAnkle: seq<real>, leftShoulder: seq<real>): (d: real)
    requires |leftAnkle| > 0 && |leftShoulder| > 0
    ensures d >= 0.0
  {
    Abs(Mean(leftAnkle) - Mean(leftShoulder))
  }

  /**
    The vertical jump metrics for a signal `x` and its peaks: one jump per
    peak, a height of 0 without a peak, and otherwise the scaled height of
    the highest peak above its take-off, never negative for a
    non-negative reference height; flight time is not measured.
  */
  function VerticalJumpMetricsOf(x: seq<real>, torso: real, fps: real, refHeight: Option<real>, peaks: seq<nat>)
    : (m: Metrics)
    requires |x| > 0 && Trunc(fps) >= 1
    requires IsPeakSet(x, Some(Mean(x)), PeakDistance(fps), peaks)
    ensures m.VerticalJumpMetrics?
    ensures m.jumpCount == |peaks| && m.flightTimeMs == 0 && m.framesAnalyzed == |x|
    ensures |peaks| == 0 ==> m.jumpHeightCm == 0.0
    ensures |peaks| > 0 ==>
      var h := HighestPeak(x, peaks);
      m.jumpHeightCm == ScaledHeight(x[h] - x[Takeoff(x, h, fps)], refHeight, torso)
    ensures (refHeight.Some? ==> refHeight.value >= 0.0) ==> m.jumpHeightCm >= 0.0
  {
    var numJumps := |peaks|;
    var maxJumpHeightCm :=
      if numJumps > 0 then
        var highest := HighestPeak(x, peaks);
        var takeoff := Takeoff(x, highest, fps);
        JumpHeightNonNegative(x, highest, fps);
        ScaledHeight(x[highest] - x[takeoff], refHeight, torso)
      else 0.0;
    VerticalJumpMetrics(numJumps, maxJumpHeightCm, 0, |x|)
  }

  /**
    `analyze_vertical_jump` after acquisition: `refHeight` is the stored
    athlete height, `peaks` what the peak finder returns for the signal.
  */
  function AnalyzeVerticalJump(props: VideoProperties, t: Table, video: CheatDetection.Video, athleteId: string,
                               refHeight: Option<real>, peaks: seq<nat>): (r: Result<TestResult, AnalysisError>)
    requires Captured(t)
    requires CheatDetection.Decodable(video)
    requires !NoSignal(t, LeftAnkleY) && PeakDistanceAccepted(PeakDistance(props.fps)) ==>
      IsPeakSet(Signal(t), Some(Mean(Signal(t))), PeakDistance(props.fps), peaks)
    ensures NoSignal(t, LeftAnkleY) ==> r == Failure(NoPersonDetected)
    ensures !NoSignal(t, LeftAnkleY) ==>
      (r.Success? <==> PeakDistanceAccepted(PeakDistance(props.fps)))
    ensures r.Failure? ==> r.error == NoPersonDetected || r.error == PeakDistanceTooSmall
    ensures r.Success? ==>
      && !NoSignal(t, LeftAnkleY) && Trunc(props.fps) >= 1
      && r.value.testName == TestName && r.value.athleteId == athleteId
      && r.value.valid && r.value.confidence == JumpConfidence
      && r.value.metrics == VerticalJumpMetricsOf(Signal(t),
           TorsoLength(ColumnValues(t, LeftAnkleY), ColumnValues(t, LeftShoulderY)), props.fps, refHeight, peaks)
      && r.value.cheatFlags == CheatDetection.AllChecks(video, t, CheatDetection.DefaultOverallThreshold)
  {
    if NoSignal(t, LeftAnkleY) then Failure(NoPersonDetected)
    else if !PeakDistanceAccepted(PeakDistance(props.fps)) then Failure(PeakDistanceTooSmall)
    else
      AcceptedRateGivesWindow(props.fps);
      var torso := TorsoLength(ColumnValues(t, LeftAnkleY), ColumnValues(t, LeftShoulderY));
      var metrics := VerticalJumpMetricsOf(Signal(t), torso, props.fps, refHeight, peaks);
      var report := CheatDetection.AllChecks(video, t, CheatDetection.DefaultOverallThreshold);
      Validated(NewTestResult(TestName, athleteId, metrics, true, JumpConfidence, report))
  }
}
