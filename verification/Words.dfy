/** Fixed-width unsigned arithmetic, spelled out over unbounded integers. */
module Words {
  const U64_MAX: nat := 0xFFFF_FFFF_FFFF_FFFF
  const U32_MAX: nat := 0xFFFF_FFFF

  type u64 = x: nat | x <= U64_MAX
  type u32 = x: nat | x <= U32_MAX
  type NonZeroU32 = x: nat | 1 <= x <= U32_MAX witness 1

  /** `u64::try_from(x).unwrap_or(u64::MAX)`. */
  function Saturate(x: nat): u64 {
    if x > U64_MAX then U64_MAX else x
  }

  function SatAdd(a: u64, b: u64): u64 {
    Saturate(a + b)
  }

  function SatSub(a: u64, b: u64): u64 {
    if a < b then 0 else a - b
  }

  /** `saturating_sub` on counts whose width does not matter. */
  function Monus(a: nat, b: nat): nat {
    if a < b then 0 else a - b
  }

  function SatMul(a: u64, b: u64): u64 {
    Saturate(a * b)
  }

  function Max(a: int, b: int): int {
    if a < b then b else a
  }

  function Min(a: int, b: int): int {
    if a < b then a else b
  }
}
