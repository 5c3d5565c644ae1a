/** The optional value used wherever the accessor returns `None` or a column may be absent. */
module Wrappers {

  datatype Option<T> = None | Some(value: T)
}
