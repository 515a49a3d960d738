/** Option: the outcome of a JavaScript value that may be null or undefined. */
module Wrappers {

  /** `None` stands for JavaScript's null or undefined. */
  datatype Option<+T> = None | Some(value: T)
}
