/** Option and Result values for the places where the source returns None, exits or raises. */
module Wrappers {

  datatype Option<T> = None | Some(value: T)

  /** `Failure` stands for a `sys.exit(message)` or an exception that is not caught. */
  datatype Result<T> = Success(value: T) | Failure(error: string)

  /** The NameError a script raises when it calls `sys.exit` without having imported `sys`. */
  const SysMissing := "name 'sys' is not defined"
}
