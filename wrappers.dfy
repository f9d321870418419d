/** A small optional-value type, used where the Go code keeps a nil-able reference (`*MetaData`). */
module Wrappers {

  datatype Option<+T> = None | Some(value: T)

}
