/** The exceptions the reader and writer throw, and the result types that carry them. */
module Errors {

  /** An exception raised by a reader or writer operation. */
  datatype Error =
    | ArgumentNull(paramName: string)        // ArgumentNullException
    | ArgumentOutOfRange(paramName: string)  // ArgumentOutOfRangeException ("" when no parameter is named)
    | NullReference                          // NullReferenceException from dereferencing a null array
    | UnexpectedEndOfStream                  // IOException("Unexpected end of stream")
    | Overflow                               // OverflowException from allocating an array of negative length
    | Application(message: string)           // ApplicationException raised by a client of the reader

  /** The outcome of an operation that returns a value or throws. */
  datatype Result<+T> = Ok(value: T) | Err(error: Error) {
    predicate IsFailure() { Err? }
    function PropagateFailure<U>(): Result<U> requires Err? { Err(error) }
    function Extract(): T requires Ok? { value }
  }

  /** The outcome of an operation that returns nothing or throws. */
  datatype Outcome = Pass | Fail(error: Error) {
    predicate IsFailure() { Fail? }
    function PropagateFailure(): Outcome requires Fail? { this }
  }

  /** The Option used for "no error found" in argument validation. */
  datatype Option<+T> = None | Some(value: T)

  function Min(a: int, b: int): int { if a <= b then a else b }
}
