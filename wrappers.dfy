/** Optional values and results with an error, as used throughout the model. */
module Wrappers {

  /** A value that may be missing (JavaScript `null`, Python `None`). */
  datatype Option<+T> = None | Some(value: T)

  /** The outcome of an operation that can fail with an error the caller sees. */
  datatype Result<+R, +E> = Success(value: R) | Failure(error: E)

  /** Truthiness of an optional string in Python and JavaScript alike:
      present and not empty. */
  predicate Truthy(a: Option<string>) {
    a.Some? && a.value != ""
  }
}
