/** The failures the time log can raise, and the result types that carry them. */
module Errors {

  /** The ways a time-log command fails.
      - DateNotFound: the requested date is not a key of the log (a lookup error).
      - TimeParseError: a non-empty time string of a kept pair is not a time of day.
      - EmptyDayList: recording for a date whose list of markers exists but is empty,
        where reading its last marker fails. */
  datatype Error = DateNotFound | TimeParseError | EmptyDayList

  datatype Option<+T> = None | Some(value: T)

  datatype Result<+T> = Ok(value: T) | Err(error: Error)
}
