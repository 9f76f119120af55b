/** Results of computations that may end in a Rust panic.

    The sampling thread has no error handling of its own: every failure of an
    integer operation or of a vector operation is a panic that ends the thread.
    An `Outcome` records either the value computed or the cause of that panic. */
module Outcomes {

  /** Why the sampling thread panics. */
  datatype Cause =
    | ArithmeticOverflow   // an integer operation left the range of its type
    | DivideByZero         // integer `/` by zero
    | RemainderByZero      // integer `%` by zero
    | RemoveOutOfBounds    // `Vec::remove(0)` on an empty vector
    | UnwrapNone           // `Option::unwrap` on `None`

  /** Either the value computed or the panic that ended the computation;
      usable with `:-`. */
  datatype Outcome<+T> = Ok(value: T) | Panic(cause: Cause) {

    predicate IsFailure() {
      Panic?
    }

    function PropagateFailure<U>(): Outcome<U>
      requires Panic?
    {
      Panic(cause)
    }

    function Extract(): T
      requires Ok?
    {
      value
    }
  }
}
