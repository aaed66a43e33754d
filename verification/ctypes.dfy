/** The fixed-width integer types, limits and error numbers the device layer
    uses, for a 64-bit (LP64) Darwin kernel: `size_t` and `u64` are 64 bits
    wide, `ssize_t` is their signed counterpart. */
module CTypes {

  const U32_MAX: int := 0xFFFF_FFFF
  const U64_MAX: int := 0xFFFF_FFFF_FFFF_FFFF
  const SSIZE_MAX: int := 0x7FFF_FFFF_FFFF_FFFF

  type u32 = x: int | 0 <= x <= U32_MAX
  type u64 = x: int | 0 <= x <= U64_MAX
  type byte = x: int | 0 <= x < 256

  /** Error numbers from Darwin's <sys/errno.h>; 0 is success. */
  const EIO: int := 5
  const ENOMEM: int := 12
  const EACCES: int := 13
  const EINVAL: int := 22
  const ERANGE: int := 34

  function Min(a: int, b: int): int {
    if a <= b then a else b
  }
}
