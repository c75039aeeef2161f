/** Optional values and the exceptions the modelled Java code can raise. */
module Results {

  /** A Java reference that may be null. */
  datatype Option<+T> = None | Some(value: T) {
    function GetOr(default: T): T {
      match this
      case Some(v) => v
      case None => default
    }
  }

  /** The Java exceptions the core raises or lets through, with their messages. */
  datatype Error =
    | IOException(message: string)
    | FileNotFoundException(message: string)
    | IllegalArgumentException(message: string)
    | NullPointerException
    | NumberFormatException(input: string)
    | RuntimeException(message: string)
    | JsonSyntaxException(message: string)

  /** A call that either returns a value or throws. */
  datatype Result<+T> = Ok(value: T) | Err(error: Error)
}
