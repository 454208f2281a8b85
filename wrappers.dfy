/** Option and Result values, and the errors the mathlib core raises. */
module Wrappers {

  datatype Option<+T> = None | Some(value: T)

  datatype Result<+T, +E> = Success(value: T) | Failure(error: E) {
    predicate IsFailure() {
      Failure?
    }

    function PropagateFailure<U>(): Result<U, E>
      requires Failure?
    {
      Failure(error)
    }

    function Extract(): T
      requires Success?
    {
      value
    }
  }

  /** The outcome of an operation that returns nothing but may raise. */
  datatype Outcome<+E> = Pass | Fail(error: E)

  /** The exceptions raised by the modelled code (message texts are not modelled). */
  datatype Error =
    | EmptyShapeList     // ValueError from np.max over no shapes
    | ShapeMismatch      // ValueError: objects cannot be broadcast to a single shape
    | NoLibrary          // ValueError: cannot identify math function library
    | OutShapeMismatch   // ValueError: output parameter must have final broadcasted shape
    | NotImplemented(op: string)  // NotImplementedError from _not_implemented
    | ZeroDimIndex       // IndexError: slicing a zero-dimensional numpy array
}
