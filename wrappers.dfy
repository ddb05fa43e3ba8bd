/** The optional value used wherever the source has `T | null` or an optional property. */
module Wrappers {
  datatype Option<+T> = None | Some(value: T)
}
