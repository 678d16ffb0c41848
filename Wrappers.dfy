/** Optional values (JavaScript's `null`/`undefined`, Python's `None`) and the
    outcome of a call into code outside the model, which may raise. */
module Wrappers {

  datatype Option<+T> = None | Some(value: T)

  /** A foreign call either raised or returned a value. */
  datatype Call<+T> = Threw | Returned(value: T)
}
