/** Optional values and results with an error path, used where the Java code returns null or throws. */
module Wrappers {
  datatype Option<T> = None | Some(value: T)

  /** The exception kinds the modelled Java code can raise. */
  datatype Error =
    | IllegalArgument(msg: string)
    | NullPointer(msg: string)
    | IndexOutOfBounds(msg: string)
    | NoSuchElement(msg: string)
    | DomError(msg: string)
    | AssertionFailed(msg: string)
    /** A plain RuntimeException the code throws itself to wrap a checked exception. */
    | Runtime(msg: string)

  datatype Result<T> = Ok(value: T) | Err(error: Error)
}
