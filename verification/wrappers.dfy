/** Failure-carrying values shared by every module of the model: Go's
    `(value, error)` pairs become `Result`, and a nil-or-error return
    becomes `Option<E>` (None stands for a nil error). */
module Wrappers {

  datatype Option<+T> = None | Some(value: T)

  datatype Result<+R, +E> = Ok(value: R) | Err(error: E)

}
