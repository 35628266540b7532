/** The optional value that stands in for a C# reference or nullable value that may be null. */
module Wrappers {

  datatype Option<+T> = None | Some(value: T)
}
