/** Optional values and error-carrying results, standing in for Java's
    null references and thrown exceptions. */
module Wrappers {

  /** A value that may be absent (a Java reference that may be null). */
  datatype Option<+T> = None | Some(value: T)

  /** Either a value or the error a Java method would have thrown instead. */
  datatype Result<+T, +E> = Ok(value: T) | Err(error: E)

  /** The outcome of a Java `void` method: it returned, or it threw. */
  datatype Outcome<+E> = Pass | Fail(error: E)
}
