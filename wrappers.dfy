/** Option, Result and Outcome for the places where the Python code returns
    None or raises, and the kinds of Python exceptions the modelled code raises. */
module Wrappers {

  datatype Option<+T> = None | Some(value: T)

  datatype Result<+R, +E> = Success(value: R) | Failure(error: E)

  datatype Outcome<+E> = Pass | Fail(error: E)

  /** The built-in exception classes the modelled code can raise. */
  datatype Error =
    | KeyError     // a missing dict key, or `set.remove` of an absent member
    | TypeError    // iterating or testing membership in None, or a value of the wrong type
    | ValueError   // raised explicitly by the agents on an empty completion
    | IndexError   // a list index past the end
}
