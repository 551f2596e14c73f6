/** Small sum types shared by the rest of the model. */
module Wrappers {

  /** Python's `None` or a present value. */
  datatype Option<+T> = None | Some(value: T)

  /** The outcome of one awaited browser call: it returned `value`, or it
      raised an exception whose `str(e)` is `msg`. */
  datatype Attempt<+T> = Ok(value: T) | Raised(msg: string)
}
