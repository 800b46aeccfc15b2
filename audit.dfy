/** The job log. Each call of log_message in the scripts becomes one event
    that keeps the values the message is built from; the timestamp and the
    exact wording are not kept. The severity is the prefix the message
    carries ("INFO:", "WARNING", "ERROR:"), and the two job markers carry
    none. */
module Audit {
  import opened Wrappers

  datatype Severity = Info | Warning | Error | Unmarked

  datatype LogEvent =
    | JobStarted
    | JobFinished
      /** Row i moved to the error file because its email is missing; the
          USPCID is the raw dictionary value, None when the column is absent. */
    | MissingEmailMoved(row: nat, rowUspcid: Option<string>)
    | MobileChanged(uspcid: string, usclid: string, before: string, after: string)
    | MobileZero(uspcid: string, usclid: string)
    | NotMobileNumber(uspcid: string, usclid: string, number: string)
    | OutsideExpectedRanges(uspcid: string, usclid: string, number: string)
    | NoMobileNumber(uspcid: string, usclid: string)
    | AccountPadded(uspcid: string, usclid: string, before: string, after: string)
    | DobChanged(uspcid: string, usclid: string, before: string, after: string)
  {
    function Severity(): Severity {
      match this
      case JobStarted => Unmarked
      case JobFinished => Unmarked
      case MissingEmailMoved(_, _) => Error
      case MobileZero(_, _) => Warning
      case NotMobileNumber(_, _, _) => Warning
      case OutsideExpectedRanges(_, _, _) => Warning
      case _ => Info
    }
  }
}
