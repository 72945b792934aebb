/** The two outcome types shared by the model: a value that may be absent (the
    source's `None`) and a value or an error (the source's exceptions). */
module Results {
  datatype Option<+T> = None | Some(value: T)

  datatype Result<+T, +E> = Ok(value: T) | Err(error: E)
}
