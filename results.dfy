/** Optional values and error-carrying results, as the Go code's `(value, error)` pairs. */
module Results {

  datatype Option<+T> = None | Some(value: T)

  /** A value, or the text of the error that prevented it. */
  datatype Result<+T> = Success(value: T) | Failure(error: string)
}
