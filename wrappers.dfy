/** The optional value used for parse results and for the reply's optional message field. */
module Wrappers {

  datatype Option<+T> = None | Some(value: T)
}
