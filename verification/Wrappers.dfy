/** Values that may be absent, and results that may carry an error instead of a value. */
module Wrappers {

  datatype Option<+T> = None | Some(value: T)

  /** `Thrown` stands for a C++ exception leaving the modelled function. */
  datatype Result<+T, +E> = Ok(value: T) | Thrown(error: E)

}
