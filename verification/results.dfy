/** Failure-carrying values used where the application shows an error
    message instead of changing its tables. */
module Results {

  datatype Option<+T> = None | Some(value: T)

  datatype Result<+R, +E> = Success(value: R) | Failure(error: E)
}
