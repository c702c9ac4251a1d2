/** Wrappers used for the Java code's null values and exceptions. */
module Results {

  /** A value that may be absent (a Java field left null). */
  datatype Option<+T> = None | Some(value: T)

  /** A return value, or the exception that replaced it. */
  datatype Result<+T, +E> = Success(value: T) | Failure(error: E)

  /** A void call that completed, or the exception it threw. */
  datatype Outcome<+E> = Pass | Fail(error: E)
}
