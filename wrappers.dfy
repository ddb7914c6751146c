/** The optional value used for board cells (`null` or a mark) and for stored state that may be missing. */
module Wrappers {

  datatype Option<+T> = None | Some(value: T)
}
