/** Absent values and failing calls, as the service sees them. */
module Wrappers {

  /** A value that may be absent: a Java `null` reference or an empty `Optional`. */
  datatype Option<+T> = None | Some(value: T)

  /** The class of the exception a failing call throws. */
  datatype Thrown =
    | NoSuchElement  // `java.util.NoSuchElementException`
    | Runtime        // a plain `java.lang.RuntimeException`

  /** The outcome of a service call: its value, or the class and the message of
      the exception it throws. */
  datatype Result<+T> = Ok(value: T) | Err(thrown: Thrown, message: string)
}
