/** Optional values and call outcomes shared by the emitter modules. */
module Wrappers {

  /** A value that may be absent (`undefined` in the source). */
  datatype Option<+T> = None | Some(value: T)

  /** The outcome of a call that either returns normally or throws an error with a message. */
  datatype Outcome = Pass | Fail(error: string)
}
