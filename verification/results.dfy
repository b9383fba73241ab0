/** Failure-compatible wrappers and the errors the bot's record layer can raise.
    Each `Error` constructor stands for one Python exception (or one group of
    them) that the modelled code raises or lets through. */
module Results {

  datatype Option<+T> = None | Some(value: T)

  datatype Error =
    /** `ValueError("No A1-style position found.")` from `GSheet._get_value` */
    | NoA1Position
    /** `IndexError`, whether from the explicit bounds guard or from Python's own list indexing */
    | CellOutOfBounds
    /** `ValueError` from `int(...)` applied to a cell's text */
    | NotAnInteger(text: string)
    /** `ValueError` when a range string does not split into exactly two ends at `:` */
    | RangeNotTwoEnds
    /** gspread's `IncorrectCellLabel` from `a1_to_rowcol` */
    | IncorrectCellLabel(address: string)
    /** `IndexError` from `verbs[1]` in the description template */
    | TooFewVerbs
    /** `InvalidSheetException` naming the offending sheet URL */
    | InvalidSheet(url: string)
    /** a backend exception that the load's `except` clause does not name */
    | BackendError
    /** `KeyError` from `del data[key]` when the key holds no entry */
    | MissingKey

  datatype Result<+T> = Ok(value: T) | Err(error: Error) {

    predicate IsFailure() {
      Err?
    }

    function PropagateFailure<U>(): Result<U>
      requires Err?
    {
      Err(error)
    }

    function Extract(): T
      requires Ok?
    {
      value
    }
  }
}
