/** Small value types shared by every module: optional values, results and bytes. */
module Types {

  /** A Go value that may be nil (a nil slice, an absent map entry). */
  datatype Option<+T> = None | Some(value: T)

  /** A Go `(value, error)` pair in which exactly one side is meaningful. */
  datatype Result<+T, +E> = Success(value: T) | Failure(error: E)

  /** One element of a Go `[]byte`. */
  type Byte = b: int | 0 <= b < 256
}
