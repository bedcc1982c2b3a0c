/** Machine-level types shared by the whole model: the width of `usize`,
    the width of a terminal column count, and the usual wrappers. */
module Base {

  /** Number of distinct `usize` values on a 64-bit target. */
  const WORD: nat := 0x1_0000_0000_0000_0000

  /** Column counts reported by the terminal are 16-bit. */
  newtype u16 = x: int | 0 <= x < 0x1_0000

  type byte = bv8

  datatype Option<+T> = None | Some(value: T)

  datatype Result<+T, +E> = Ok(value: T) | Err(error: E)

  function Max(a: int, b: int): int
  {
    if a < b then b else a
  }
}
