/** The optional and fallible results used across the model: a Python `None`
    or a raised exception becomes `None` or `Failure` here. */
module Common {

  datatype Option<+T> = None | Some(value: T)

  datatype Result<+T, +E> = Success(value: T) | Failure(error: E)
}
