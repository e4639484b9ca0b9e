/**
  The exported result records and their field constraints. A record whose
  constrained field is out of range is refused at construction, as the
  validating constructors do; the `New...` functions model that.
*/
module Types {
  import opened Wrappers
  import opened Base

  /** Why a record could not be built: the field whose constraint failed. */
  datatype ValidationError = OutOfRange(field: string)

  /** Per-frame tamper flags in the exported shape. */
  datatype CheatFlags = CheatFlags(
    manipulationScore: real,
    sceneCutsDetected: seq<int>,
    poseJumpsDetected: seq<int>,
    lowConfidenceFrames: seq<int>)

  predicate CheatFlagsValid(f: CheatFlags) {
    0.0 <= f.manipulationScore <= 1.0
  }

  /** `CheatFlags(...)`: refuses a manipulation score outside [0, 1]; omitted fields take their defaults. */
  function NewCheatFlags(
    manipulationScore: real := 0.0,
    sceneCutsDetected: seq<int> := [],
    poseJumpsDetected: seq<int> := [],
    lowConfidenceFrames: seq<int> := []): (r: Result<CheatFlags, ValidationError>)
    ensures r.Success? <==> 0.0 <= manipulationScore <= 1.0
    ensures r.Success? ==> CheatFlagsValid(r.value)
    ensures r.Success? ==> r.value == CheatFlags(manipulationScore, sceneCutsDetected, poseJumpsDetected, lowConfidenceFrames)
    ensures r.Failure? ==> r.error == OutOfRange("manipulation_score")
  {
    if 0.0 <= manipulationScore <= 1.0 then
      Success(CheatFlags(manipulationScore, sceneCutsDetected, poseJumpsDetected, lowConfidenceFrames))
    else
      Failure(OutOfRange("manipulation_score"))
  }

  /** `CheatFlags()` is valid: score 0.0 and no frames listed. */
  lemma DefaultCheatFlags()
    ensures NewCheatFlags() == Success(CheatFlags(0.0, [], [], []))
    ensures CheatFlagsValid(NewCheatFlags().value)
  {
  }

  /**
    One exported analysis result. `cheatFlags` holds what the analysers
    pass for it, a CheatingReport; the creation timestamp is not modelled.
  */
  datatype TestResult = TestResult(
    apiVersion: string,
    testName: string,
    athleteId: string,
    metrics: Metrics,
    valid: bool,
    confidence: real,
    cheatFlags: CheatingReport,
    raw: Option<map<string, string>>)

  predicate TestResultValid(r: TestResult) {
    0.0 <= r.confidence <= 1.0
  }

  /**
    `TestResult(test_name=..., athlete_id=..., metrics=..., valid=...,
    confidence=..., cheat_flags=...)`: refuses a confidence outside [0, 1];
    the API version defaults to "v1" and `raw` to absent.
  */
  function NewTestResult(
    testName: string,
    athleteId: string,
    metrics: Metrics,
    valid: bool,
    confidence: real,
    cheatFlags: CheatingReport): (r: Result<TestResult, ValidationError>)
    ensures r.Success? <==> 0.0 <= confidence <= 1.0
    ensures r.Success? ==> TestResultValid(r.value)
    ensures r.Success? ==> r.value.apiVersion == "v1" && r.value.raw.None?
    ensures r.Success? ==>
      && r.value.testName == testName && r.value.athleteId == athleteId
      && r.value.metrics == metrics && r.value.valid == valid
      && r.value.confidence == confidence && r.value.cheatFlags == cheatFlags
    ensures r.Failure? ==> r.error == OutOfRange("confidence")
  {
    if 0.0 <= confidence <= 1.0 then
      Success(TestResult("v1", testName, athleteId, metrics, valid, confidence, cheatFlags, None))
    else
      Failure(OutOfRange("confidence"))
  }

  /** The state of a background analysis job. */
  datatype JobStatus = JobStatus(
    jobId: string,
    status: string,
    progress: int,
    result: Option<TestResult>,
    errorMessage: Option<string>)

  predicate JobStatusValid(j: JobStatus) {
    0 <= j.progress <= 100
  }

  /** `JobStatus(job_id=..., status=...)`: refuses a progress outside [0, 100]; progress defaults to 0. */
  function NewJobStatus(
    jobId: string,
    status: string,
    progress: int := 0,
    result: Option<TestResult> := None,
    errorMessage: Option<string> := None): (r: Result<JobStatus, ValidationError>)
    ensures r.Success? <==> 0 <= progress <= 100
    ensures r.Success? ==> JobStatusValid(r.value)
    ensures r.Success? ==> r.value == JobStatus(jobId, status, progress, result, errorMessage)
    ensures r.Failure? ==> r.error == OutOfRange("progress")
  {
    if 0 <= progress <= 100 then
      Success(JobStatus(jobId, status, progress, result, errorMessage))
    else
      Failure(OutOfRange("progress"))
  }

  /** A job created with only its id and status is valid, at progress 0, with no result and no error. */
  lemma NewJobStatusDefaults(jobId: string, status: string)
    ensures NewJobStatus(jobId, status) == Success(JobStatus(jobId, status, 0, None, None))
  {
  }
}
