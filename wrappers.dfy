/** Option and Result, the stand-ins for Java's null and for a thrown exception. */
module Wrappers {

  datatype Option<+T> = None | Some(value: T)

  datatype Result<+T, +E> = Success(value: T) | Failure(error: E) {

    /** The successful value, or None when the computation failed. */
    function ToOption(): Option<T>
    {
      match this
      case Success(v) => Some(v)
      case Failure(_) => None
    }
  }
}
