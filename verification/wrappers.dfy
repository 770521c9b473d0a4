/** Failure-carrying values: `Option` stands for a Java reference that may be null,
    `Result` for a callback that delivers either a decoded response or an error. */
module Wrappers {

  datatype Option<+T> = None | Some(value: T)

  datatype Result<+R, +E> = Success(value: R) | Failure(error: E)
}
