/** The optional value used for absent histories, missing texts and failed scans. */
module Wrappers {
  datatype Option<T> = None | Some(value: T)
}
