/** The optional value used wherever the sensor SDK hands back a reference that may be null. */
module Wrappers {
  datatype Option<+T> = None | Some(value: T)
}
