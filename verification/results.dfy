/** Optional values and success-or-failure results, the shapes every operation
    of the model returns. */
module Results {

  /** A value that may be absent: JavaScript's `undefined` is `None`. */
  datatype Option<+T> = None | Some(value: T)

  /** The settled state of a promise: fulfilled with a value or rejected with
      an error value. */
  datatype Result<+T, +E> = Ok(value: T) | Error(error: E)
}
