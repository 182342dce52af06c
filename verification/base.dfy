/** Failure-carrying results shared by every module of the model, and the
    errors the modelled Python code raises. */
module Base {

  datatype Option<+T> = None | Some(value: T)

  datatype Result<+T> = Ok(value: T) | Err(error: Error)

  /** The outcome of an operation that returns nothing on success. */
  datatype Outcome = Pass | Fail(error: Error)

  /** Python exceptions and library errors, by the condition that raises them. */
  datatype Error =
    | KeyError(key: string)          // a required configuration key is absent
    | ValueError(message: string)    // an argument or state the code rejects
    | FileNotFound(path: string)     // a read of a file that was never written
    | ColumnNotFound(column: string) // a data frame operation names a missing column
    | DuplicateColumn(column: string) // unnesting would create a column twice
    | NotAStruct(column: string)     // unnesting a column that holds no struct

  /** The smaller of two counts, as `min` and slice bounds clamp them. */
  function Min(a: nat, b: nat): nat
  {
    if a <= b then a else b
  }
}
