/**
  Optional values and outcomes, standing for Go's nil pointers and its
  `(value, error)` result pairs.
 */
module Wrappers {

  datatype Option<+T> = None | Some(value: T)

  datatype Outcome<+T, +E> = Success(value: T) | Failure(error: E)
}
