/** The optional value used for the artwork record's missing fields and for partial decoders. */
module Wrappers {

  datatype Option<+T> = None | Some(value: T)
}
