/** The optional values of the source (`undefined` fields, failed lookups). */
module Wrappers {

  datatype Option<+T> = None | Some(value: T)
}
