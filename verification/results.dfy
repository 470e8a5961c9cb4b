/** Failure-compatible wrappers and the exceptions the predictor can raise. */
module Results {

  /** A value that may be missing: a failed table lookup, an absent match. */
  datatype Option<+T> = None | Some(value: T)

  /** The reason datetime's constructor rejects its fields, in the order it checks them. */
  datatype DateFieldError = YearOutOfRange | MonthOutOfRange | DayOutOfRange | HourOutOfRange

  /** The exceptions the predictor lets escape to its caller. */
  datatype Error =
    | DateParseError                         // the "Date parsing error" raised by the date parser
    | DateValueError(reason: DateFieldError) // a ValueError from dt.date / dt.datetime, never caught
    | DateOverflowError                      // an OverflowError: a date field does not fit a C int
    | InvalidLocationIndex                   // every IndexError or KeyError inside predict

  datatype Result<+T> = Ok(value: T) | Err(error: Error) {

    predicate IsFailure() {
      Err?
    }

    function PropagateFailure<U>(): Result<U>
      requires Err?
    {
      Err(error)
    }

    function Extract(): T
      requires Ok?
    {
      value
    }
  }
}
