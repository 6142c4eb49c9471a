/** The optional-value datatype the rest of the model uses for "parsed or not". */
module Wrappers {

  /** `None` plays the part of JavaScript's `NaN` result of a failed parse. */
  datatype Option<+T> = None | Some(value: T)
}
