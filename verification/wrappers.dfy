/** Result types shared by the noise lookup-table model. */
module Wrappers {

  /** `None` stands for a missing value; in a value grid it stands for NaN. */
  datatype Option<+T> = None | Some(value: T)

  /** The outcome of an operation that the Python code raises an exception for. */
  datatype Result<+R, +E> = Ok(value: R) | Err(error: E)
}
