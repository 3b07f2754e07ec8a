/** Outcome types shared by the models of the genetic engine, the encoder and the scale table. */
module Results {

  /** A value that may be missing (an absent map key, an unlisted enumerator). */
  datatype Option<+T> = None | Some(value: T)

  /** The result of an operation that can fail, in place of a C++ exception. */
  datatype Result<+T, +E> = Ok(value: T) | Err(error: E)
}
