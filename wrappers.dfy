/** The optional value used for a verdict's error reason (`null` in the source). */
module Wrappers {

  datatype Option<+T> = None | Some(value: T)
}
