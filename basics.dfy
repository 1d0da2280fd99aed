/** Small wrappers shared by every module: optional values, results, and the
    error conditions the scripts can run into. */
module Basics {

  datatype Option<+T> = None | Some(value: T)

  /** The ways an operation of the model can fail. */
  datatype Error =
    | BindMismatch        // the driver got a value list whose length differs from the `?` count
    | ColumnTypeMismatch  // a bound value does not have its column's CQL type
    | InvalidLimit        // CQL refuses a LIMIT that is not strictly positive
    | NotEnoughBirds      // `bird_list[3]` on a list of fewer than four ids (IndexError)

  datatype Result<+T> = Ok(value: T) | Err(error: Error)
}
