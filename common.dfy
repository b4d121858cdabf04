/** Optional values, results and the database errors shared by the model. */
module Common {

  /** A value that may be absent: SQL NULL, a missing row, a `None` return. */
  datatype Option<+T> = None | Some(value: T)

  /** The result of an operation that can raise: `Ok` or the error it raises. */
  datatype Result<+R, +E> = Ok(value: R) | Err(error: E)

  /**
   * What the database driver raises: `sqlite3.IntegrityError` for a repeated
   * primary key, `OverflowError` for a Python int outside SQLite's 64-bit
   * INTEGER range bound as a parameter.
   */
  datatype StoreError = IntegrityError | OverflowError
}
