/**
  The sit-ups analysis after landmark extraction: each repetition is a
  peak of the negated shoulder-to-hip height, the torso curled up; its
  timestamp is the peak's frame in milliseconds.
*/
module Situps {
  import opened Wrappers
  import opened Signals
  import opened Base
  import opened Types
  import opened Errors
  import CheatDetection

  const TestName: string := "situps"
  const TorsoYDiff: string := "torso_y_diff"
  const FormScore: real := 0.9
  const SitupsConfidence: real := 0.92

  /**
    The per-frame torso measure: the vertical distance between the
    shoulders' midpoint and the hips' midpoint, never negative.
  */
  function TorsoYDiffOf(leftShoulderY: real, rightShoulderY: real, leftHipY: real, rightHipY: real): (d: real)
    ensures d >= 0.0
    ensures var gap := (leftShoulderY + rightShoulderY) / 2.0 - (leftHipY + rightHipY) / 2.0;
      d == gap || d == -gap
  {
    Abs((leftShoulderY + rightShoulderY) / 2.0 - (leftHipY + rightHipY) / 2.0)
  }

  /** The four landmark heights of one frame in which a pose was detected. */
  datatype TorsoLandmarks = TorsoLandmarks(leftShoulderY: real, rightShoulderY: real, leftHipY: real, rightHipY: real)

  /**
    The raw `torso_y_diff` column: the torso measure for each frame with a
    detected pose, missing (NaN) for the others.
  */
  function TorsoColumn(detections: seq<Option<TorsoLandmarks>>): (c: Column)
    ensures |c| == |detections|
    ensures forall k :: 0 <= k < |c| ==> (c[k].Some? <==> detections[k].Some?)
    ensures forall k :: 0 <= k < |c| && c[k].Some? ==> 0.0 <= c[k].value
  {
    seq(|detections|, k requires 0 <= k < |detections| =>
      match detections[k]
      case None => None
      case Some(p) => Some(TorsoYDiffOf(p.leftShoulderY, p.rightShoulderY, p.leftHipY, p.rightHipY)))
  }

  /** `-torso_y_diff`: highest when the torso is curled up. */
  function Signal(t: Table): (x: seq<real>)
    requires Complete(ColumnOf(t, TorsoYDiff))
    ensures |x| == |t.rows|
  {
    Negate(ColumnValues(t, TorsoYDiff))
  }

  /**
    Gap filling keeps the torso measure non-negative, so the signal never
    rises above 0, and neither does the peak height threshold, its mean.
  */
  lemma SignalNonPositive(detections: seq<Option<TorsoLandmarks>>, t: Table)
    requires GapFilled(TorsoColumn(detections), ColumnOf(t, TorsoYDiff))
    requires exists k :: 0 <= k < |detections| && detections[k].Some?
    ensures Complete(ColumnOf(t, TorsoYDiff))
    ensures forall i :: 0 <= i < |t.rows| ==> Signal(t)[i] <= 0.0
    ensures |t.rows| > 0 ==> Mean(Signal(t)) <= 0.0
  {
    var raw := TorsoColumn(detections);
    var k :| 0 <= k < |detections| && detections[k].Some?;
    assert raw[k].Some?;
    FilledSignalNonPositive(raw, t);
  }

  /** The same for any non-negative raw column with an observation. */
  lemma FilledSignalNonPositive(raw: Column, t: Table)
    requires GapFilled(raw, ColumnOf(t, TorsoYDiff)) && !AllMissing(raw)
    requires forall k :: 0 <= k < |raw| && raw[k].Some? ==> 0.0 <= raw[k].value
    ensures Complete(ColumnOf(t, TorsoYDiff))
    ensures forall i :: 0 <= i < |t.rows| ==> Signal(t)[i] <= 0.0
    ensures |t.rows| > 0 ==> Mean(Signal(t)) <= 0.0
  {
    GapFilledAtLeast(raw, ColumnOf(t, TorsoYDiff), 0.0);
    if |t.rows| > 0 {
      SumAtMost(Signal(t), 0.0);
    }
  }

  /** `int(fps * 0.8)`: repetitions are at least 0.8 s apart. */
  function PeakDistance(fps: real): real {
    Trunc(fps * 0.8) as real
  }

  /** `[int((idx / fps) * 1000) for idx in peaks]`: each repetition's time, truncated to milliseconds. */
  function RepTimestamps(peaks: seq<nat>, fps: real): (ts: seq<int>)
    requires fps > 0.0
    ensures |ts| == |peaks|
    ensures forall k :: 0 <= k < |peaks| ==>
      0 <= ts[k] && ts[k] as real <= peaks[k] as real / fps * 1000.0 < ts[k] as real + 1.0
  {
    seq(|peaks|, k requires 0 <= k < |peaks| => Trunc(peaks[k] as real / fps * 1000.0))
  }

  /** An accepted peak distance spans at least a millisecond of video: distance times 1000 is at least fps. */
  lemma AcceptedDistanceSpansAMillisecond(fps: real)
    requires PeakDistanceAccepted(PeakDistance(fps))
    ensures fps > 0.0 && PeakDistance(fps) * 1000.0 >= fps
  {
    assert fps * 0.8 >= 1.0;
    assert PeakDistance(fps) > fps * 0.8 - 1.0;
  }

  /** Frames at least `d` apart, with `d` spanning a millisecond, get different truncated timestamps. */
  lemma SpacedFramesStampApart(p0: nat, p1: nat, fps: real, d: real)
    requires fps > 0.0 && d * 1000.0 >= fps && p0 as real + d <= p1 as real
    ensures Trunc(p0 as real / fps * 1000.0) < Trunc(p1 as real / fps * 1000.0)
  {
    var a, b := p0 as real / fps * 1000.0, p1 as real / fps * 1000.0;
    var gap := (p1 - p0) as real;
    MulDivAssoc(1000.0, gap, fps);
    MulDivAssoc(1000.0, p0 as real, fps);
    MulDivAssoc(1000.0, p1 as real, fps);
    var q := 1000.0 * gap / fps;
    assert b - a == q;
    DivMul(1000.0 * gap, fps);
    assert (q - 1.0) * fps == 1000.0 * gap - fps;
    FactorNonNegative(q - 1.0, fps);
  }

  /**
    For a frame rate the peak finder accepts, repetitions it reports are
    stamped at least one millisecond apart, so the timestamps strictly
    increase and no two repetitions share one.
  */
  lemma RepTimestampsIncrease(peaks: seq<nat>, fps: real)
    requires PeakDistanceAccepted(PeakDistance(fps))
    requires forall k :: 0 <= k < |peaks| - 1 ==> peaks[k] as real + PeakDistance(fps) <= peaks[k + 1] as real
    ensures fps > 0.0
    ensures forall k :: 0 <= k < |peaks| - 1 ==> RepTimestamps(peaks, fps)[k] < RepTimestamps(peaks, fps)[k + 1]
  {
    AcceptedDistanceSpansAMillisecond(fps);
    var ts := RepTimestamps(peaks, fps);
    forall k | 0 <= k < |peaks| - 1 ensures ts[k] < ts[k + 1] {
      SpacedFramesStampApart(peaks[k], peaks[k + 1], fps, PeakDistance(fps));
    }
  }

  /**
    `analyze_situps` after acquisition: `peaks` is what the peak finder
    returns for the signal above its mean.
  */
  function AnalyzeSitups(props: VideoProperties, t: Table, video: CheatDetection.Video, athleteId: string,
                         peaks: seq<nat>): (r: Result<TestResult, AnalysisError>)
    requires Filled(ColumnOf(t, TorsoYDiff))
    requires CheatDetection.Decodable(video)
    requires !NoSignal(t, TorsoYDiff) && PeakDistanceAccepted(PeakDistance(props.fps)) ==>
      IsPeakSet(Signal(t), Some(Mean(Signal(t))), PeakDistance(props.fps), peaks)
    ensures NoSignal(t, TorsoYDiff) ==> r == Failure(NoPoseData)
    ensures !NoSignal(t, TorsoYDiff) ==> (r.Success? <==> PeakDistanceAccepted(PeakDistance(props.fps)))
    ensures r.Failure? ==> r.error == NoPoseData || r.error == PeakDistanceTooSmall
    ensures r.Success? ==>
      && props.fps > 0.0
      && r.value.testName == TestName && r.value.athleteId == athleteId
      && r.value.valid && r.value.confidence == SitupsConfidence
      && r.value.metrics == SitupsMetrics(|peaks|, RepTimestamps(peaks, props.fps), FormScore)
      && r.value.cheatFlags == CheatDetection.AllChecks(video, t, CheatDetection.DefaultOverallThreshold)
    ensures r.Success? ==> var ts := r.value.metrics.repTimestampsMs;
      forall k :: 0 <= k < |ts| - 1 ==> ts[k] < ts[k + 1]
  {
    if NoSignal(t, TorsoYDiff) then Failure(NoPoseData)
    else if !PeakDistanceAccepted(PeakDistance(props.fps)) then Failure(PeakDistanceTooSmall)
    else
      RepTimestampsIncrease(peaks, props.fps);
      var metrics := SitupsMetrics(|peaks|, RepTimestamps(peaks, props.fps), FormScore);
      var report := CheatDetection.AllChecks(video, t, CheatDetection.DefaultOverallThreshold);
      Validated(NewTestResult(TestName, athleteId, metrics, true, SitupsConfidence, report))
  }
}
