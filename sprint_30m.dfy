/**
  The 30 m sprint analysis after landmark extraction: the start and the
  finish are the first rows where the nose crosses 5% and 95% of the frame
  width, the 10 m split the first row past one third of the way between
  them; the time, split and average speed follow from the frame rate.
*/
module Sprint30m {
  import opened Wrappers
  import opened Signals
  import opened Base
  import opened Types
  import opened Errors
  import CheatDetection

  const TestName: string := "sprint_30m"
  const NoseX: string := "nose_x"
  const StartLine: real := 0.05
  const FinishLine: real := 0.95
  /** One third of the way from the start line to the finish line: the 10 m mark. */
  const SplitLine: real := 0.05 + (0.95 - 0.05) / 3.0
  const SprintMeters: real := 30.0
  const SprintConfidence: real := 0.9

  /** The rows where the runner crosses the three lines; the split row may be missing. */
  datatype Crossings = Crossings(start: nat, split: Option<nat>, finish: nat)

  lemma FirstAboveUnique(x: seq<real>, t: real, i: int, j: int)
    requires IsFirstAbove(x, t, i) && IsFirstAbove(x, t, j)
    ensures i == j
  {
  }

  /**
    The start, split and finish rows. Fails exactly when no row passes the
    finish line, or the first row past the start line is already past the
    finish line, so that the finish is not strictly after the start.
  */
  function FindCrossings(x: seq<real>): (r: Result<Crossings, AnalysisError>)
    ensures r.Success? ==>
      && IsFirstAbove(x, StartLine, r.value.start)
      && IsFirstAbove(x, FinishLine, r.value.finish)
      && r.value.start < r.value.finish
      && (r.value.split.Some? ==> IsFirstAbove(x, SplitLine, r.value.split.value))
    ensures r.Failure? ==> r.error == NoValidCrossing
    ensures r.Failure? <==>
      || (forall k :: 0 <= k < |x| ==> x[k] <= FinishLine)
      || (exists i :: IsFirstAbove(x, StartLine, i) && x[i] > FinishLine)
  {
    var start := FirstAbove(x, StartLine);
    var finish := FirstAbove(x, FinishLine);
    if start.None? || finish.None? || finish.value <= start.value then
      assert finish.Some? ==> start.Some? && start.value <= finish.value by {
        if finish.Some? {
          FirstAboveOrdered(x, StartLine, FinishLine, finish.value);
        }
      }
      Failure(NoValidCrossing)
    else
      assert forall i :: IsFirstAbove(x, StartLine, i) ==> x[i] <= FinishLine by {
        forall i | IsFirstAbove(x, StartLine, i) ensures x[i] <= FinishLine {
          FirstAboveUnique(x, StartLine, i, start.value);
        }
      }
      Success(Crossings(start.value, FirstAbove(x, SplitLine), finish.value))
  }

  /**
    Whenever the crossings are found, the split row is found too and lies
    between the start and the finish.
  */
  lemma CrossingsOrdered(x: seq<real>)
    requires FindCrossings(x).Success?
    ensures var c := FindCrossings(x).value;
      c.split.Some? && c.start <= c.split.value <= c.finish
  {
    var c := FindCrossings(x).value;
    FirstAboveOrdered(x, SplitLine, FinishLine, c.finish);
    FirstAboveOrdered(x, StartLine, SplitLine, c.split.value);
    FirstAboveUnique(x, StartLine, c.start, FirstAbove(x, StartLine).value);
  }

  /** Whenever some row passes the finish line, some row passes the start line, no later. */
  lemma FinishImpliesStart(x: seq<real>, finish: nat)
    requires IsFirstAbove(x, FinishLine, finish)
    ensures exists start :: IsFirstAbove(x, StartLine, start) && start <= finish
  {
    FirstAboveOrdered(x, StartLine, FinishLine, finish);
  }

  /**
    The sprint metrics: the time and split truncated to milliseconds and
    the average speed over 30 m. The time is positive, the split lies
    between 0 and the time, and speed times time is 30 m.
  */
  function SprintMetrics(c: Crossings, fps: real): (m: Metrics)
    requires fps > 0.0 && c.start < c.finish
    ensures m.Sprint30mMetrics?
    ensures m.timeMs == Trunc((c.finish - c.start) as real / fps * 1000.0) && m.timeMs >= 0
    ensures m.averageSpeedMS > 0.0
    ensures m.averageSpeedMS * ((c.finish - c.start) as real / fps) == SprintMeters
    ensures c.split.Some? && c.start <= c.split.value <= c.finish ==> 0 <= m.split10mMs <= m.timeMs
    ensures c.split.None? ==> m.split10mMs == 0
  {
    var timeS := (c.finish - c.start) as real / fps;
    var splitS := if c.split.Some? then (c.split.value - c.start) as real / fps else 0.0;
    var speed := if timeS > 0.0 then SprintMeters / timeS else 0.0;
    assert c.split.Some? && c.start <= c.split.value <= c.finish ==>
      0 <= Trunc(splitS * 1000.0) <= Trunc(timeS * 1000.0) by {
      if c.split.Some? && c.start <= c.split.value <= c.finish {
        MillisMonotone(c.split.value - c.start, c.finish - c.start, fps);
        TruncMonotone(splitS * 1000.0, timeS * 1000.0);
      }
    }
    Sprint30mMetrics(Trunc(timeS * 1000.0), Trunc(splitS * 1000.0), speed)
  }

  /**
    `analyze_sprint_30m` after acquisition: `t` is the gap-filled frame
    table, `video` the frames the tamper checks read.
  */
  function AnalyzeSprint30m(props: VideoProperties, t: Table, video: CheatDetection.Video, athleteId: string)
    : (r: Result<TestResult, AnalysisError>)
    requires Filled(ColumnOf(t, NoseX))
    requires CheatDetection.Decodable(video)
    requires !NoSignal(t, NoseX) && FindCrossings(ColumnValues(t, NoseX)).Success? ==> props.fps > 0.0
    ensures NoSignal(t, NoseX) ==> r == Failure(NoPersonDetected)
    ensures !NoSignal(t, NoseX) ==>
      (r.Failure? <==> FindCrossings(ColumnValues(t, NoseX)).Failure?)
    ensures r.Failure? ==> r.error == NoPersonDetected || r.error == NoValidCrossing
    ensures r.Success? ==>
      && !NoSignal(t, NoseX)
      && r.value.testName == TestName && r.value.athleteId == athleteId
      && r.value.valid && r.value.confidence == SprintConfidence
      && r.value.metrics == SprintMetrics(FindCrossings(ColumnValues(t, NoseX)).value, props.fps)
      && r.value.cheatFlags == CheatDetection.AllChecks(video, t, CheatDetection.DefaultOverallThreshold)
  {
    if NoSignal(t, NoseX) then Failure(NoPersonDetected)
    else
      var crossings :- FindCrossings(ColumnValues(t, NoseX));
      var metrics := SprintMetrics(crossings, props.fps);
      var report := CheatDetection.AllChecks(video, t, CheatDetection.DefaultOverallThreshold);
      Validated(NewTestResult(TestName, athleteId, metrics, true, SprintConfidence, report))
  }
}
