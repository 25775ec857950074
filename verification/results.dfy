/** Optional values and success/failure results.
    `None` stands for a Go nil pointer or nil slice; `Failure` for a non-nil
    Go `error` return, in which case the accompanying value is not used. */
module Results {

  datatype Option<+T> = None | Some(value: T)

  datatype Result<+T, +E> = Success(value: T) | Failure(error: E)
}
