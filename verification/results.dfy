/** Failure-carrying values shared by the whole model: an optional value and
    a value-or-error result, standing in for Python's `None` and for the
    exceptions the plotting helpers raise. */
module Results {

  datatype Option<+T> = None | Some(value: T)

  datatype Result<+T, +E> = Success(value: T) | Failure(error: E)
}
