/** Small datatypes shared by every model in this project. */
module Common {
  /** A value that may be absent: a missing file, an unset field, a nil pointer. */
  datatype Option<+T> = None | Some(value: T)

  /** The outcome of an operation that can return an error. */
  datatype Result<+T> = Ok(value: T) | Err

  type Byte = b: int | 0 <= b < 256

  /** A second, in the nanoseconds clock readings are in. */
  const SECOND: int := 1_000_000_000

  /** What some store of bytes held at an instant; its contents are an abstract value. */
  datatype Sample = Sample(time: int, content: nat)

  function Min(a: int, b: int): int { if a <= b then a else b }

  function Max(a: int, b: int): int { if a >= b then a else b }
}
