/**
  The records of the analysis core: video properties, tamper events and
  the tamper report, the per-test metric records, and the analysis result
  (without its frame table).
*/
module Base {
  import opened Wrappers

  /** What the acquisition layer reports about a video. */
  datatype VideoProperties = VideoProperties(
    width: int,
    height: int,
    fps: real,
    frameCount: int,
    durationSeconds: real)

  /** One tamper indication; `frameIndex` is absent for checks that are not frame-local. */
  datatype CheatEvent = CheatEvent(
    frameIndex: Option<int>,
    eventType: string,
    description: string,
    severity: real)

  /** The default severity of a CheatEvent. */
  const DefaultSeverity: real := 0.5

  /** Severities are documented as scores from 0.0 to 1.0. */
  predicate SeverityInRange(e: CheatEvent) {
    0.0 <= e.severity <= 1.0
  }

  /** `CheatEvent(event_type=..., description=...)`, the other fields left at their defaults. */
  function NewCheatEvent(eventType: string, description: string): (e: CheatEvent)
    ensures e.frameIndex.None?
    ensures e.eventType == eventType && e.description == description
    ensures e.severity == DefaultSeverity && SeverityInRange(e)
  {
    CheatEvent(None, eventType, description, DefaultSeverity)
  }

  /** The verdict of the tamper checks. */
  datatype CheatingReport = CheatingReport(
    tamperingSuspected: bool,
    totalInconsistencies: int,
    events: seq<CheatEvent>)

  /**
    The invariant an aggregated report keeps: it counts its events, and it
    suspects tampering exactly when that count exceeds the threshold.
  */
  predicate ReportConsistent(r: CheatingReport, threshold: int) {
    && r.totalInconsistencies == |r.events|
    && (r.tamperingSuspected <==> r.totalInconsistencies > threshold)
  }

  /** `CheatingReport()`: every field at its default. */
  function DefaultReport(): (r: CheatingReport)
    ensures !r.tamperingSuspected && r.totalInconsistencies == 0 && r.events == []
    ensures forall threshold: int :: threshold >= 0 ==> ReportConsistent(r, threshold)
  {
    CheatingReport(false, 0, [])
  }

  /**
    The test-specific metrics dictionary, one variant per analyser, with
    the keys the analysers write.
  */
  datatype Metrics =
    | SitupsMetrics(count: nat, repTimestampsMs: seq<int>, formScore: real)
    | VerticalJumpMetrics(jumpCount: nat, jumpHeightCm: real, flightTimeMs: int, framesAnalyzed: nat)
    | BroadJumpMetrics(distanceCm: real, takeoffFrame: nat, landingFrame: nat)
    | Sprint30mMetrics(timeMs: int, split10mMs: int, averageSpeedMS: real)
    | ShuttleRunMetrics(totalTimeMs: int, lapTimesMs: seq<int>)
    | EnduranceRunMetrics(distanceM: int, timeMs: int, paceSPerKm: real, averageCadenceSpm: real, fatigueDetected: bool)
    | MedicineBallMetrics(distanceCm: real, releaseVelocityMS: real, releaseAngleDeg: real)

  /** The result of one analysis run; the frame table it also carries is not part of this record. */
  datatype AnalysisResult = AnalysisResult(
    testName: string,
    videoProperties: VideoProperties,
    results: Metrics,
    cheatingReport: CheatingReport)
}
