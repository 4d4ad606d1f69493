/** Option and Result values, used for Python's "maybe absent" values and for
    the exceptions the script can raise. */
module Optional {

  /** `None` stands for Python's `None` (an element that was not found, or has no text). */
  datatype Option<+T> = None | Some(value: T)

  /** `Err` stands for an exception that ends the script. */
  datatype Result<+T, +E> = Ok(value: T) | Err(error: E)
}
