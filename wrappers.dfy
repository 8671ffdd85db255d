/** A nullable value: Kotlin's `T?`. */
module Wrappers {

  datatype Option<+T> = None | Some(value: T)
}
