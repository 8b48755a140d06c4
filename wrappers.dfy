/** Option and Result, the failure-carrying values the engine returns
    instead of raising exceptions. */
module Wrappers {

  datatype Option<+T> = None | Some(value: T)

  /** Why an operation failed: the exception the source would have caught
      and rendered as a message. */
  datatype Error =
    | BadDate(text: string)          // strptime(..., "%Y-%m-%d") rejected a date string
    | BadTime(text: string)          // strptime(..., "%H:%M:%S") rejected a time-of-day string
    | BadNumber(text: string)        // float(...) rejected a column-6 cell
    | BadMonth(year: int, month: int) // calendar.monthrange / date(...) rejected the month

  datatype Result<+T> = Ok(value: T) | Err(error: Error)
}
