/** Outcome types shared by the quote engine. */
module Results {

  /** A value that may be absent: the source's `false` returns and failed fetches. */
  datatype Option<+T> = None | Some(value: T)

  /** Either a computed value or the error that ended the request. */
  datatype Result<+T, +E> = Success(value: T) | Failure(error: E)
}
