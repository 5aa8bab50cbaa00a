/** Small result wrappers shared by every module of the model. */
module Wrappers {
  datatype Option<T> = None | Some(value: T)

  /** The outcome of an operation that either yields a value or stops the compiler with a panic
      (`panic!`, `unreachable!`, a failed `unwrap` or `expect`, a `todo!()` body). */
  datatype Panicking<T> = Value(value: T) | Panic(reason: string)
}
