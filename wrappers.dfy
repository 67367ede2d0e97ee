/** The optional value used wherever the widget may or may not call back, or may find nothing. */
module Wrappers {
  datatype Option<T> = None | Some(value: T)
}
