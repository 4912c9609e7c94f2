/** The optional-value type used where the Java code uses `null` or `Optional`. */
module Wrappers {

  datatype Option<+T> = None | Some(value: T)
}
