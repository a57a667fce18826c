/** Fixed-width integers of the driver. Every arithmetic result on these types is
    checked against its range, so a body that verifies has no wrap-around. */
module MachineWords {
  const SIZE_MAX: int := 0xFFFF_FFFF_FFFF_FFFF
  const SQLLEN_MIN: int := -0x8000_0000_0000_0000
  const SQLLEN_MAX: int := 0x7FFF_FFFF_FFFF_FFFF

  /** `std::size_t`, `std::uintptr_t`, `std::uintmax_t` and `SQLULEN` of a 64-bit build. */
  newtype Size = x: int | 0 <= x <= SIZE_MAX

  /** `SQLLEN` of a 64-bit build. */
  newtype SqlLen = x: int | SQLLEN_MIN <= x <= SQLLEN_MAX

  function Min(a: int, b: int): int {
    if a <= b then a else b
  }

  function Max(a: int, b: int): int {
    if a <= b then b else a
  }
}
