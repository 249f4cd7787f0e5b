/** The nullable-reference idiom of the source (`string?`, `T?`) as a value. */
module Wrappers {

  datatype Option<+T> = None | Some(value: T)
}
