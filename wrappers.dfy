/** An optional value: the model of a Python result that may be `None`. */
module Wrappers {

  datatype Option<T> = None | Some(value: T)
}
