/** The optional value and the fallible call result used throughout the model. */
module Wrappers {

  datatype Option<+T> = None | Some(value: T)

  /** What a remote call gives its caller: a value, or an error that says nothing about
      whether the remote side acted. */
  datatype Reply<+T> = Ok(value: T) | Error
}
