/** The optional value the scripts express as `None` or a value. */
module Wrappers {

  datatype Option<T> = None | Some(value: T)
}
