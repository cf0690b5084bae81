/** Failure-carrying values shared by the other modules. */
module Results {

  /** A value that may be missing: `load_embeddings` answers `False` for a
      missing cache file, which is `None` here. */
  datatype Option<+T> = None | Some(value: T)

  /** The outcome of an operation that can raise: `Err` carries the error
      that the Python code would raise. */
  datatype Result<+T, +E> = Ok(value: T) | Err(error: E)
}
