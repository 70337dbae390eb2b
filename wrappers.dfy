/**
 * Option (a Java reference that may be null), Result (a value or the typed
 * failure that replaced it) and Try (a value or an exception swallowed by
 * the caller).
 */
module Wrappers {

  datatype Option<+T> = None | Some(value: T)

  datatype Result<+T, +E> = Ok(value: T) | Fail(error: E)

  datatype Try<+T> = Done(value: T) | Threw
}
