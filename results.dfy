/** Values and outcomes shared by the whole model: Python's optional values and
    the exceptions the test helpers can raise. */
module Results {

  datatype Option<T> = None | Some(value: T)

  /** The Python exceptions the modelled helpers can raise: a subscript past the end of a
      list, `int()` of a string that is not an integer, and a local variable read before any
      assignment bound it. Python raises `UnboundLocalError` for the last, a subclass of
      `NameError`, which this model reports as `NameError`. */
  datatype Exception = IndexError | ValueError | NameError

  /** The outcome of a Python call: a returned value, or the exception it raised. */
  datatype Result<T> = Ok(value: T) | Err(error: Exception)
}
