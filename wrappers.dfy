/** Optional values and error results, standing for Go's nil pointers and `error` returns. */
module Wrappers {

  /** A value that may be absent (a nil pointer in the Go code). */
  datatype Option<T> = None | Some(value: T)

  /** The outcome of an operation that returns `(T, error)` in Go: either a value or the
      error's message. */
  datatype Result<T> = Ok(value: T) | Err(msg: string)

  /** An operation that returns only an `error` in Go: nil (`Pass`) or a message (`Fail`). */
  datatype Outcome = Pass | Fail(msg: string)
}
