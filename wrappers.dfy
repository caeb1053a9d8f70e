/** The two failure-carrying shapes the Go code expresses with a nil
    pointer or a trailing `error` result. */
module Wrappers {

  datatype Option<+T> = None | Some(value: T)

  datatype Result<+T, +E> = Success(value: T) | Failure(error: E)
}
