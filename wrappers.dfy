/** Small failure-carrying datatypes shared by the modules of this project. */
module Wrappers {

  /** A value that may be absent; `None` also stands for a Java `null` reference. */
  datatype Option<+T> = None | Some(value: T)

  /** The outcome of a Java method that returns a value or throws. */
  datatype Result<+T, +E> = Success(value: T) | Failure(error: E)

  /** The outcome of a `void` Java method: it returns normally or throws. */
  datatype Outcome<+E> = Pass | Fail(error: E)
}
