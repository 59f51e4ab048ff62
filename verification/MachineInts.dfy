/** Fixed-width integers. A value of type `u64` or `i64` is in range by
    construction, so using one as an intermediate result is a proof that the
    machine operation does not wrap. */
module MachineInts {

  const U64_MODULUS: int := 0x1_0000_0000_0000_0000
  const U64_MAX: int := U64_MODULUS - 1
  const I64_MAX: int := 0x7FFF_FFFF_FFFF_FFFF
  const I64_MIN: int := -0x8000_0000_0000_0000

  type u64 = x: int | 0 <= x < 0x1_0000_0000_0000_0000
  type i64 = x: int | -0x8000_0000_0000_0000 <= x < 0x8000_0000_0000_0000

  /** Addition and subtraction as the processor performs them. */
  function WrappingAdd(a: u64, b: u64): (r: u64)
  {
    if a + b <= U64_MAX then a + b else a + b - U64_MODULUS
  }

  function WrappingSub(a: u64, b: u64): (r: u64)
  {
    if b <= a then a - b else a - b + U64_MODULUS
  }

  /** A subtraction the caller must have guarded. */
  function Minus(a: u64, b: u64): (r: u64)
    requires b <= a
  {
    a - b
  }
}
