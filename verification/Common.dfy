/** Shared result types and machine integers. */
module Common {
  datatype Option<+T> = None | Some(value: T)

  /** A fallible call. The error text of the program is not modelled. */
  datatype Result<+T> = Ok(value: T) | Err

  newtype byte = x: int | 0 <= x < 256

  const U64_SIZE: nat := 0x1_0000_0000_0000_0000
  const U64_MAX: nat := 0xFFFF_FFFF_FFFF_FFFF
}
