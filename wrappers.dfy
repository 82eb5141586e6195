/** Option and Result values for the model's absent fields and error returns. */
module Wrappers {

  /** A value that may be missing, like a nullable field. */
  datatype Option<+T> = None | Some(value: T)

  /** Either a computed value or the error the operation raised. */
  datatype Result<+T, +E> = Success(value: T) | Failure(error: E)
}
