/** Small types shared by every module. */
module Common {

  datatype Option<+T> = None | Some(value: T)

  datatype Result<+T, +E> = Ok(value: T) | Err(error: E)

  /** The smaller of two integers. */
  function Min(a: int, b: int): int {
    if a < b then a else b
  }

  /** The larger of two integers. */
  function Max(a: int, b: int): int {
    if a < b then b else a
  }
}
