/** Option and outcome datatypes used across the model. */
module Wrappers {

  /** An explicit optional value, used where the JavaScript returns `null` or leaves `undefined`. */
  datatype Option<+T> = None | Some(value: T)

  /** The outcome of a setup call: it returns normally, or it throws the given error. */
  datatype Outcome<+E> = Pass | Fail(error: E)
}
