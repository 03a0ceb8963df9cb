/** Stand-ins for C# null references and for thrown exceptions. */
module Wrappers {

  /** A possibly-null reference: `None` plays the part of C# `null`. */
  datatype Option<+T> = None | Some(value: T)

  /** The outcome of a call that returns a value or throws. */
  datatype Result<+R, +E> = Success(value: R) | Failure(error: E)

  /** The outcome of a `void` call that may throw. */
  datatype Outcome<+E> = Pass | Fail(error: E)
}

/** The exceptions the modelled operations throw. */
module Errors {

  datatype Error =
    /** `ArgumentNullException(paramName)`. */
    | ArgumentNull(paramName: string)
    /** The `ArgumentException` that `Dictionary.Add` throws for a key already present. */
    | DuplicateKey
}
