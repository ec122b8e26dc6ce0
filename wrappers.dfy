/** An optional value, for inputs the calculator may not have. */
module Wrappers {

  /** An optional value: a distance that could not be looked up is `None`. */
  datatype Option<+T> = None | Some(value: T)
}
