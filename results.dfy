/** Optional values and results with an error, used where the script either
    looks up a key that may be missing or aborts the run with an exception. */
module Results {

  datatype Option<+T> = None | Some(value: T)

  datatype Result<+R, +E> = Success(value: R) | Failure(error: E)
}
