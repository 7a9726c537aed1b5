/**
 * Java's null reference and its one exception, as values.
 */
module Wrappers {

  /** `None` stands for a Java `null` reference. */
  datatype Option<+T> = None | Some(value: T)

  /** The exceptions the modelled helpers can throw. */
  datatype Exception = NullPointerException(message: string)

  /** A call that either returns a value or throws. */
  datatype Result<+T> = Success(value: T) | Failure(error: Exception)
}
