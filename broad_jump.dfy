/**
  The standing broad jump analysis after landmark extraction: take-off is
  the frame where the left ankle rises fastest, landing the lowest ankle
  position from then on; the horizontal ankle travel between them is
  scaled to centimetres through the athlete's reference height.
*/
module BroadJump {
  import opened Wrappers
  import opened Signals
  import opened Base
  import opened Types
  import opened Errors
  import CheatDetection

  const TestName: string := "broad_jump"
  const LeftAnkleX: string := "left_ankle_x"
  const LeftAnkleY: string := "left_ankle_y"
  const LeftShoulderY: string := "left_shoulder_y"
  const BroadJumpConfidence: real := 0.85

  /** The three columns recorded together from one pose detection, after gap filling. */
  predicate Captured(t: Table) {
    && Filled(ColumnOf(t, LeftAnkleX)) && Filled(ColumnOf(t, LeftAnkleY)) && Filled(ColumnOf(t, LeftShoulderY))
    && CoMissing(ColumnOf(t, LeftAnkleY), ColumnOf(t, LeftAnkleX))
    && CoMissing(ColumnOf(t, LeftAnkleY), ColumnOf(t, LeftShoulderY))
  }

  /**
    `np.argmin(np.gradient(left_ankle_y))`: the first frame where the ankle
    moves up the image fastest (image y grows downwards).
  */
  function TakeoffFrame(y: seq<real>): (k: nat)
    requires |y| >= 2
    ensures k < |y|
    ensures forall j :: 0 <= j < |y| ==> Gradient(y)[k] <= Gradient(y)[j]
    ensures forall j :: 0 <= j < k ==> Gradient(y)[k] < Gradient(y)[j]
  {
    ArgMin(Gradient(y))
  }

  /** An ankle moving at constant speed has no fastest frame but the first: take-off is frame 0. */
  lemma LinearTrackTakesOffAtFirstFrame(y: seq<real>, a: real, b: real)
    requires |y| >= 2
    requires forall i :: 0 <= i < |y| ==> y[i] == a + b * i as real
    ensures TakeoffFrame(y) == 0
  {
    GradientOfLine(y, a, b);
    assert Gradient(y)[TakeoffFrame(y)] == Gradient(y)[0];
  }

  /**
    `distance_cm`: 0 unless the reference height is set and non-zero and
    the ankle-to-shoulder distance is positive; then the horizontal travel
    in pixels times the centimetres per vertical pixel of that distance.
  */
  function DistanceCm(distanceNorm: real, width: int, videoHeight: int, refHeight: Option<real>, torso: real)
    : (cm: real)
    requires Truthy(refHeight) && torso > 0.0 ==> videoHeight > 0
    ensures !Truthy(refHeight) || torso <= 0.0 ==> cm == 0.0
    ensures Truthy(refHeight) && torso > 0.0 ==>
      cm * (torso * videoHeight as real) == distanceNorm * width as real * refHeight.value
    ensures distanceNorm >= 0.0 && width >= 0 && (refHeight.Some? ==> refHeight.value >= 0.0) ==> cm >= 0.0
  {
    if Truthy(refHeight) && torso > 0.0 then
      var pixelHeight := torso * videoHeight as real;
      var cmPerPixel := refHeight.value / pixelHeight;
      assert cmPerPixel * pixelHeight == refHeight.value;
      var distancePixels := distanceNorm * width as real;
      distancePixels * cmPerPixel
    else 0.0
  }

  /**
    The broad jump metrics: the take-off frame as above, the landing frame
    the first one from take-off on where the ankle is lowest in the image,
    and the distance scaled from the horizontal ankle travel between them,
    never negative for a non-negative reference height.
  */
  function BroadJumpMetricsOf(ankleX: seq<real>, ankleY: seq<real>, shoulderY: seq<real>,
                              props: VideoProperties, refHeight: Option<real>): (m: Metrics)
    requires |ankleX| == |ankleY| == |shoulderY| >= 2
    requires Truthy(refHeight) && Abs(Mean(ankleY) - Mean(shoulderY)) > 0.0 ==> props.height > 0
    ensures m.BroadJumpMetrics?
    ensures m.takeoffFrame == TakeoffFrame(ankleY)
    ensures m.landingFrame == ArgMaxFrom(ankleY, m.takeoffFrame)
    ensures m.distanceCm == DistanceCm(Abs(ankleX[m.landingFrame] - ankleX[m.takeoffFrame]),
      props.width, props.height, refHeight, Abs(Mean(ankleY) - Mean(shoulderY)))
    ensures props.width >= 0 && (refHeight.Some? ==> refHeight.value >= 0.0) ==> m.distanceCm >= 0.0
  {
    var takeoff := TakeoffFrame(ankleY);
    var landing := ArgMaxFrom(ankleY, takeoff);
    var distanceNorm := Abs(ankleX[landing] - ankleX[takeoff]);
    var torso := Abs(Mean(ankleY) - Mean(shoulderY));
    BroadJumpMetrics(DistanceCm(distanceNorm, props.width, props.height, refHeight, torso), takeoff, landing)
  }

  /**
    The ankle-to-shoulder distance of the whole clip, in image heights: the
    person's height on screen, against which the reference height scales.
  */
  function ScaleHeight(t: Table): (h: real)
    requires Captured(t) && !NoSignal(t, LeftAnkleY)
    ensures h >= 0.0
  {
    Abs(Mean(ColumnValues(t, LeftAnkleY)) - Mean(ColumnValues(t, LeftShoulderY)))
  }

  /**
    `analyze_broad_jump` after acquisition: `refHeight` is the stored
    athlete height. A single frame is too short for the gradient.
  */
  function AnalyzeBroadJump(props: VideoProperties, t: Table, video: CheatDetection.Video, athleteId: string,
                            refHeight: Option<real>): (r: Result<TestResult, AnalysisError>)
    requires Captured(t)
    requires CheatDetection.Decodable(video)
    requires !NoSignal(t, LeftAnkleY) && |t.rows| >= 2 && Truthy(refHeight) && ScaleHeight(t) > 0.0 ==>
      props.height > 0
    ensures NoSignal(t, LeftAnkleY) ==> r == Failure(NoPersonDetected)
    ensures !NoSignal(t, LeftAnkleY) ==> (r.Success? <==> |t.rows| >= 2)
    ensures r.Failure? ==> r.error == NoPersonDetected || r.error == TooFewSamplesForGradient
    ensures r.Success? ==>
      && !NoSignal(t, LeftAnkleY) && |t.rows| >= 2
      && r.value.testName == TestName && r.value.athleteId == athleteId
      && r.value.valid && r.value.confidence == BroadJumpConfidence
      && r.value.metrics == BroadJumpMetricsOf(ColumnValues(t, LeftAnkleX), ColumnValues(t, LeftAnkleY),
           ColumnValues(t, LeftShoulderY), props, refHeight)
      && r.value.cheatFlags == CheatDetection.AllChecks(video, t, CheatDetection.DefaultOverallThreshold)
  {
    if NoSignal(t, LeftAnkleY) then Failure(NoPersonDetected)
    else if |t.rows| < 2 then Failure(TooFewSamplesForGradient)
    else
      var metrics := BroadJumpMetricsOf(ColumnValues(t, LeftAnkleX), ColumnValues(t, LeftAnkleY),
        ColumnValues(t, LeftShoulderY), props, refHeight);
      var report := CheatDetection.AllChecks(video, t, CheatDetection.DefaultOverallThreshold);
      Validated(NewTestResult(TestName, athleteId, metrics, true, BroadJumpConfidence, report))
  }
}
