/** The optional value used for PHP's nullable fields and arguments. */
module Wrappers {

  /** `None` plays the role of PHP's `null`. */
  datatype Option<+T> = None | Some(value: T)
}
