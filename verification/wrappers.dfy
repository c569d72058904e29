/** The optional value the other modules use where the source has `null`. */
module Wrappers {

  /** Some value, or none: the model's stand-in for a JavaScript `null`. */
  datatype Option<+T> = None | Some(value: T)
}
