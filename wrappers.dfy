/** Failure-carrying datatypes shared by the conversion model. */
module Wrappers {

  /** A value that may be absent (Java's `null`). */
  datatype Option<+T> = None | Some(value: T)

  /** A Java runtime exception that the source does not catch. */
  datatype Fault =
    | IndexOutOfBounds   // ArrayIndexOutOfBoundsException
    | NullReference      // NullPointerException

  /**
   * The three ways a step of the conversion can end: with a value, with an
   * error the source reports as a message, or with an uncaught exception.
   */
  datatype Status<+T, +E> = Ok(value: T) | Err(error: E) | Abort(fault: Fault)
}
