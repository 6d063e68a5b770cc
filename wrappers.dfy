/** Option, Result and Outcome: how the model writes Java's null and thrown exceptions. */
module Wrappers {
  /** A value that may be absent (a Java reference that may be null). */
  datatype Option<+T> = None | Some(value: T) {
    /** The value, or `default` when absent. */
    function GetOr(default: T): T {
      match this
      case Some(v) => v
      case None => default
    }
  }

  /** A computation that returns a value or fails with an error (an exception). */
  datatype Result<+T, +E> = Success(value: T) | Failure(error: E)

  /** A computation that returns nothing or fails with an error. */
  datatype Outcome<+E> = Pass | Fail(error: E)

  /** The unchecked exceptions the editor, validator and forms throw themselves. */
  datatype JavaException = IllegalArgument | NullPointer | IllegalState
}
