/** The optional value used where a host method receives the bus name only in its two-argument form. */
module Wrappers {

  datatype Option<+T> = None | Some(value: T)
}
