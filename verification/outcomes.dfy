/** Failure-carrying datatypes shared by the whole model. The modelled code is
    Python: an operation either returns normally or lets an exception escape,
    and `PyError` names the exception kinds that can escape. */
module Outcomes {

  datatype Option<+T> = None | Some(value: T)

  /** The Python exceptions the modelled code can raise. `AddError` and
      `RemoveError` are the GStreamer binding's errors for adding an element
      that already has a parent, or removing one that is not a child. */
  datatype PyError =
    | IndexError
    | ValueError
    | TypeError
    | KeyError
    | NameError
    | AttributeError
    | OSError
    | AddError
    | RemoveError

  /** Either the value an operation returned or the exception it raised. */
  datatype Result<+T> = Ok(value: T) | Err(error: PyError)
}
