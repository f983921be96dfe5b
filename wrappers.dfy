/** Option and Result values, and the exceptions the generator can raise. */
module Wrappers {

  /** A value that may be absent; a blank spreadsheet cell (pandas NaN) is None. */
  datatype Option<+T> = None | Some(value: T)

  /** The exceptions the generator raises, by kind. Every one aborts the run,
      so no table is written. */
  datatype Error =
    | InvalidType   // RuntimeError("Invalid type") from a type rule or the HMI-internal pass
    | ValueError    // int() of a blank cell or of text that is not a decimal integer
    | IndexError    // a missing first row, or an array type with too few words
    | KeyError      // a constant the generator needs is not defined
    | TypeError     // a shelf count that is not an integer, a register size that is text
    | UnboundName   // a variable of main read before any assignment to it

  /** The outcome of a step that may raise. */
  datatype Result<+T> = Success(value: T) | Failure(error: Error) {

    predicate IsFailure() {
      Failure?
    }

    function PropagateFailure<U>(): Result<U>
      requires Failure?
    {
      Failure(error)
    }

    function Extract(): T
      requires Success?
    {
      value
    }
  }
}
