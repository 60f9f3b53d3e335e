/** Optional values and the exceptional outcomes of the tracker's operations. */
module Wrappers {

  /** A Java reference that may be null, or an absent lookup result. */
  datatype Option<+T> = None | Some(value: T)

  /** The Java exceptions that the modelled operations can raise. */
  datatype Failure =
    | TaskOverlapping   // TaskOverlappingException: a scheduled write conflicts with the index
    | NullPointer       // NullPointerException: a null reference is dereferenced
    | NumberFormat      // NumberFormatException: a numeric field does not parse
    | IllegalArgument   // IllegalArgumentException: Enum.valueOf of an unknown name
    | IndexOutOfBounds  // ArrayIndexOutOfBoundsException: too few fields on a line
    | ClassCast         // ClassCastException: a record that is not a subtask is cast to one

  /** Either the value an operation returns, or the exception it throws. */
  datatype Result<+T> = Ok(value: T) | Err(error: Failure)
}
