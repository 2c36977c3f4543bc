/** Failure-compatible wrappers shared by the model, and the Python exception
    kinds the modelled code can raise. */
module Wrappers {

  /** The Python exceptions the core raises on bad input. */
  datatype PyError =
    | ValueError        // int() of a non-integer token, numpy reduction over an empty array
    | IndexError        // a ramp line with fewer than four fields
    | ZeroDivisionError // a float division by zero

  datatype Option<+T> = None | Some(value: T)

  /** A computation that either succeeds with a value or raises a Python exception. */
  datatype Result<+T> = Success(value: T) | Failure(error: PyError) {
    predicate IsFailure() {
      Failure?
    }

    function PropagateFailure<U>(): Result<U>
      requires Failure?
    {
      Failure(error)
    }

    function Extract(): T
      requires Success?
    {
      value
    }
  }
}
