/** The optional result of a lookup: the C++ code returns a null shared pointer where the model returns None. */
module Wrappers {

  datatype Option<+T> = None | Some(value: T)

}
