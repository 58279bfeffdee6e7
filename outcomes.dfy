/** Optional values, the exceptions the Java code throws, and results that carry them. */
module Outcomes {

  /** A value that may be absent; `None` stands for a Java `null`. */
  datatype Option<+T> = None | Some(value: T)

  /** The runtime exceptions the modelled code raises. */
  datatype Error =
    | IllegalArgument       // java.lang.IllegalArgumentException
    | IllegalState          // java.lang.IllegalStateException
    | IndexOutOfBounds      // java.lang.ArrayIndexOutOfBoundsException
    | NegativeArraySize     // java.lang.NegativeArraySizeException

  /** Either a returned value or a thrown exception. */
  datatype Result<+T> = Ok(value: T) | Err(error: Error)

  /** The result of a `void` method: it returned normally or threw. */
  datatype Outcome = Pass | Fail(error: Error)
}
