/** Option, the value-or-nothing datatype used for lookups and parses that can fail. */
module Wrappers {

  datatype Option<+T> = None | Some(value: T)
}
