/** Option and Result values standing for Python's `None`-or-value returns and raised exceptions. */
module Wrappers {

  datatype Option<+T> = None | Some(value: T)

  /** `Err(e)` stands for an exception `e` raised (and not caught) by the modelled code. */
  datatype Result<+T, +E> = Ok(value: T) | Err(error: E)
}
