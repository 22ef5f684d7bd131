/**
 * How a check ends. A passing check prints its PASS indicator and returns; a failing one prints
 * its report, line by line, and then raises an exception whose message is the FAIL indicator.
 */
module CheckOutcome {
  import opened Options
  import opened Text

  /** A failing outcome carries the lines its run prints, one `println` each. */
  datatype Outcome = Pass | Fail(report: seq<string>)

  /** What the run leaves on standard output, trimmed as the tests compare it. */
  function Stdout(o: Outcome, passedIndicator: string): string
  {
    match o
    case Pass => passedIndicator
    case Fail(report) => JoinLines(report)
  }

  /** The message of the exception the run raises, if it raises one. */
  function Raised(o: Outcome, failedIndicator: string): Option<string>
  {
    match o
    case Pass => None
    case Fail(_) => Some(failedIndicator)
  }
}
