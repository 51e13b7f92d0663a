/** Outcomes of operations that can fail or find nothing. */
module Results {

  datatype Option<T> = None | Some(value: T)

  /** Ok with a value, or Err naming what went wrong. */
  datatype Result<T> = Ok(value: T) | Err(message: string)
}
