/**
  The medicine ball throw analysis after ball tracking: the release is the
  frame where the ball moves fastest, the landing the lowest ball position
  from then on, and the distance the straight line between them at a
  fixed 1.5 cm per pixel.
*/
module MedicineBall {
  import opened Wrappers
  import opened Signals
  import opened Base
  import opened Types
  import opened Errors
  import CheatDetection

  const TestName: string := "medicine_ball"
  const BallX: string := "ball_x"
  const BallY: string := "ball_y"
  const CmPerPixel: real := 1.5
  const ThrowConfidence: real := 0.75

  /** The two ball coordinates are found together, and gap filling keeps them so. */
  predicate Captured(t: Table) {
    Filled(ColumnOf(t, BallX)) && Filled(ColumnOf(t, BallY)) && CoMissing(ColumnOf(t, BallX), ColumnOf(t, BallY))
  }

  /** The squared distance the ball moves from frame `i - 1` to frame `i`. */
  function StepSq(x: seq<real>, y: seq<real>, i: nat): (d: real)
    requires |x| == |y| && 1 <= i < |x|
    ensures d >= 0.0
  {
    SqDist(x[i - 1], y[i - 1], x[i], y[i])
  }

  /**
    `np.linalg.norm(diff(...), axis=1)` without its leading NaN: entry `k`
    is the ball's speed, in pixels per frame, into frame `k + 1`.
  */
  function Speeds(x: seq<real>, y: seq<real>, sqrt: real -> real): (v: seq<real>)
    requires |x| == |y| >= 1
    ensures |v| == |x| - 1
    ensures forall k :: 0 <= k < |v| ==> v[k] == sqrt(StepSq(x, y, k + 1))
  {
    seq(|x| - 1, k requires 0 <= k < |x| - 1 => sqrt(StepSq(x, y, k + 1)))
  }

  /** The squared steps, entry `k` into frame `k + 1`. */
  function StepSquares(x: seq<real>, y: seq<real>): (v: seq<real>)
    requires |x| == |y| >= 1
    ensures |v| == |x| - 1
    ensures forall k :: 0 <= k < |v| ==> v[k] == StepSq(x, y, k + 1)
  {
    seq(|x| - 1, k requires 0 <= k < |x| - 1 => StepSq(x, y, k + 1))
  }

  /**
    The fastest step is the largest squared step: the first frame entered
    by a largest step, whatever square root is used.
  */
  lemma FastestStepIsLargestSquare(x: seq<real>, y: seq<real>, sqrt: real -> real)
    requires |x| == |y| >= 2 && IsSqrtFn(sqrt)
    ensures ArgMax(Speeds(x, y, sqrt)) == ArgMax(StepSquares(x, y))
  {
    var v, sq := Speeds(x, y, sqrt), StepSquares(x, y);
    var k := ArgMax(v);
    forall j | 0 <= j < |sq| ensures sq[j] <= sq[k] {
      assert v[j] <= v[k];
      if sq[k] < sq[j] {
        SqrtStrictlyMonotone(sqrt, sq[k], sq[j]);
      }
    }
    forall j | 0 <= j < k ensures sq[j] < sq[k] {
      assert v[j] < v[k];
    }
    ArgMaxUnique(sq, k);
  }

  /**
    `np.nanargmax(velocities)`: the release frame, the first frame entered
    by the largest step of the ball; frame 0 has no step into it.
  */
  function ReleaseFrame(x: seq<real>, y: seq<real>, sqrt: real -> real): (k: nat)
    requires |x| == |y| >= 2 && IsSqrtFn(sqrt)
    ensures 1 <= k < |x|
    ensures k == 1 + ArgMax(StepSquares(x, y))
    ensures forall j :: 1 <= j < |x| ==> StepSq(x, y, j) <= StepSq(x, y, k)
    ensures forall j :: 1 <= j < k ==> StepSq(x, y, j) < StepSq(x, y, k)
  {
    FastestStepIsLargestSquare(x, y, sqrt);
    var sq := StepSquares(x, y);
    assert forall j :: 1 <= j < |x| ==> StepSq(x, y, j) == sq[j - 1];
    1 + ArgMax(Speeds(x, y, sqrt))
  }

  /**
    `np.linalg.norm(landing - release) * 1.5`: the straight-line distance
    between the two frames' ball positions, in centimetres.
  */
  function ThrowDistanceCm(x: seq<real>, y: seq<real>, release: nat, landing: nat, sqrt: real -> real)
    : (d: real)
    requires |x| == |y| && release < |x| && landing < |x| && IsSqrtFn(sqrt)
    ensures d >= 0.0
    ensures d * d == CmPerPixel * CmPerPixel * SqDist(x[release], y[release], x[landing], y[landing])
  {
    var sq := SqDist(x[release], y[release], x[landing], y[landing]);
    var distancePixels := sqrt(sq);
    assert distancePixels * distancePixels == sq;
    distancePixels * CmPerPixel
  }

  /**
    The throw metrics: the distance from the release to the first lowest
    ball position after it; release velocity and angle are not measured.
  */
  function MedicineBallMetricsOf(x: seq<real>, y: seq<real>, sqrt: real -> real): (m: Metrics)
    requires |x| == |y| >= 2 && IsSqrtFn(sqrt)
    ensures m.MedicineBallMetrics?
    ensures var release := ReleaseFrame(x, y, sqrt);
      m.distanceCm == ThrowDistanceCm(x, y, release, ArgMaxFrom(y, release), sqrt)
    ensures m.distanceCm >= 0.0 && m.releaseVelocityMS == 0.0 && m.releaseAngleDeg == 0.0
  {
    var release := ReleaseFrame(x, y, sqrt);
    var landing := ArgMaxFrom(y, release);
    MedicineBallMetrics(ThrowDistanceCm(x, y, release, landing, sqrt), 0.0, 0.0)
  }

  /**
    `analyze_medicine_ball_throw` after ball tracking: with a single frame
    there is no step and so no release point.
  */
  function AnalyzeMedicineBall(t: Table, video: CheatDetection.Video, athleteId: string, sqrt: real -> real)
    : (r: Result<TestResult, AnalysisError>)
    requires Captured(t)
    requires CheatDetection.Decodable(video)
    requires IsSqrtFn(sqrt)
    ensures NoSignal(t, BallX) ==> r == Failure(NoBallDetected)
    ensures !NoSignal(t, BallX) ==> (r.Success? <==> |t.rows| >= 2)
    ensures r.Failure? ==> r.error == NoBallDetected || r.error == NoReleasePoint
    ensures r.Success? ==>
      && !NoSignal(t, BallX) && |t.rows| >= 2
      && r.value.testName == TestName && r.value.athleteId == athleteId
      && r.value.valid && r.value.confidence == ThrowConfidence
      && r.value.metrics == MedicineBallMetricsOf(ColumnValues(t, BallX), ColumnValues(t, BallY), sqrt)
      && r.value.cheatFlags == CheatDetection.AllChecks(video, t, CheatDetection.DefaultOverallThreshold)
  {
    if NoSignal(t, BallX) then Failure(NoBallDetected)
    else if |t.rows| < 2 then Failure(NoReleasePoint)
    else
      var metrics := MedicineBallMetricsOf(ColumnValues(t, BallX), ColumnValues(t, BallY), sqrt);
      var report := CheatDetection.AllChecks(video, t, CheatDetection.DefaultOverallThreshold);
      Validated(NewTestResult(TestName, athleteId, metrics, true, ThrowConfidence, report))
  }
}
