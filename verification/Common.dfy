/** Types shared by the models. */
module Common {
  datatype Option<+T> = Some(value: T) | None

  datatype Result<+T, +E> = Ok(value: T) | Err(error: E)

  type Byte = b: int | 0 <= b < 256
}
