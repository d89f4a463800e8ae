/** Failure-compatible wrappers shared by the dashboard model.
    `None` stands for a pandas missing value (NaN); `Err` for an exception
    that the script does not catch. */
module Common {

  datatype Option<+T> = None | Some(value: T)

  datatype Result<+T, +E> = Ok(value: T) | Err(error: E)
}
