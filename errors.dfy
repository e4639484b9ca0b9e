/** The errors an analysis raises instead of returning a result. */
module Errors {
  import opened Wrappers
  import Types

  datatype AnalysisError =
      /** The required signal is missing in every frame, or the table is empty. */
    | NoPersonDetected
      /** The sit-ups signal is missing in every frame, or the table is empty. */
    | NoPoseData
      /** The ball was not found in any frame, or the table is empty. */
    | NoBallDetected
      /** A column the analysis reads is not in the table. */
    | MissingColumn(name: string)
      /** The runner does not cross the start line strictly before the finish line. */
    | NoValidCrossing
      /** Fewer than three shuttle turns; carries the number found. */
    | NotEnoughTurns(found: nat)
      /** No frame-to-frame ball displacement could be computed. */
    | NoReleasePoint
      /** The peak finder refuses a minimal peak distance below one sample. */
    | PeakDistanceTooSmall
      /** The gradient needs at least two samples. */
    | TooFewSamplesForGradient
      /** A result record refused one of its fields. */
    | Invalid(reason: Types.ValidationError)

  /** A record refused by its own validation surfaces as an analysis error. */
  function Validated(r: Result<Types.TestResult, Types.ValidationError>): (a: Result<Types.TestResult, AnalysisError>)
    ensures a.Success? <==> r.Success?
    ensures r.Success? ==> a.value == r.value
    ensures r.Failure? ==> a.error == Invalid(r.error)
  {
    match r
    case Success(v) => Success(v)
    case Failure(e) => Failure(Invalid(e))
  }
}
