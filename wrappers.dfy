/** Failure-carrying values standing for Go's nil pointers and (value, error) pairs. */
module Wrappers {

  /** A pointer that may be nil. */
  datatype Option<+T> = None | Some(value: T)

  /** A Go call's (value, error) pair: exactly one of the two is meaningful. The error is
      the message of the Go error value, passed on unchanged. */
  datatype Result<+T> = Ok(value: T) | Err(error: string)
}
