/** Failure-carrying results shared by every component of the forecasting pipeline.
    The errors name the Python exceptions the modelled code raises. */
module Base {

  datatype Option<+T> = None | Some(value: T)

  /** The exceptions the modelled code can end in. */
  datatype Error =
    | KeyError(key: string)            // a missing column label or dictionary key
    | IndexError                       // positional access past the end (`iloc[0]`, `[0]`)
    | ZeroDivision                     // a division by zero (empty fold list, zero chunk length)
    | UnboundLocal(name: string)       // a local read before any branch assigned it
    | UnknownCategory(column: string, category: string)
    | NotFitted                        // applying an encoder that was never fitted
    | NoSamples                        // an encoder fitted or applied to zero rows
    | FeatureNameMismatch              // encoder applied to other categorical columns than fitted
    | LengthMismatch                   // building a frame from columns of different lengths
    | TooFewSamples                    // more folds requested than the series can hold
    | InvalidSplits                    // a time-series splitter asked for fewer than two splits
    | Overflow                         // date arithmetic leaving the calendar's range
    | OperationalError                 // the database refused the connection
    | DuplicateTable(table: string)    // CREATE TABLE on an existing table
    | SqlError                         // any other failure of a statement
    | TypeError                        // subscripting the `None` of a failed request
    | InterfaceError                   // using a connection that was closed

  datatype Result<+T> = Ok(value: T) | Err(error: Error) {

    predicate IsFailure() {
      Err?
    }

    function PropagateFailure<U>(): Result<U>
      requires Err?
    {
      Err(error)
    }

    function Extract(): T
      requires Ok?
    {
      value
    }
  }
}
