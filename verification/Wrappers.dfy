/** Values used throughout the model. */
module Wrappers {
  datatype Option<+T> = None | Some(value: T)

  /** A remote request is answered, or its answer is lost before or after it took effect. */
  datatype Fault = Calm | Lost | Applied
}
