/** Option and Outcome: the two failure-carrying shapes the model needs. */
module Wrappers {

  /** A value that may be absent; in records, None stands for JavaScript's `undefined`. */
  datatype Option<+T> = None | Some(value: T)

  /** The completion of a call that either returns normally or throws an error. */
  datatype Outcome<+E> = Pass | Fail(error: E)
}
