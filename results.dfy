/** Values that stand for Python's None-or-value and for raised exceptions. */
module Results {

  datatype Option<+T> = None | Some(value: T)

  /** The outcome of a step that may raise: `Err` carries the exception's message, `str(e)`. */
  datatype Result<+T> = Ok(value: T) | Err(error: string)
}
