/** Option and Result: the model's form of Go's (value, ok) and (value, error) returns. */
module Results {
  datatype Option<+T> = None | Some(value: T)

  datatype Result<+T, +E> = Success(value: T) | Failure(error: E)
}
