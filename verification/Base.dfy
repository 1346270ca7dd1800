/** Results, machine integers and bytes, shared by the component models. */
module Base {

  datatype Option<+T> = None | Some(value: T)

  datatype Result<+T, +E> = Ok(value: T) | Err(error: E)

  const MIN_I64: int := -0x8000_0000_0000_0000
  const MAX_I64: int := 0x7fff_ffff_ffff_ffff
  const MIN_I32: int := -0x8000_0000
  const MAX_I32: int := 0x7fff_ffff

  type I64 = i: int | MIN_I64 <= i <= MAX_I64
  type U64 = u: int | 0 <= u < 0x1_0000_0000_0000_0000
  type Byte = b: int | 0 <= b < 256

  /** `as u64` on a signed and `as i64` on an unsigned number keep the bits. */
  function AsU64(v: I64): U64 {
    if v < 0 then v + 0x1_0000_0000_0000_0000 else v
  }

  function AsI64(v: U64): I64 {
    if v > MAX_I64 then v - 0x1_0000_0000_0000_0000 else v
  }

  function SaturatingSub(a: nat, b: nat): nat {
    if a < b then 0 else a - b
  }

  function SaturatingSubI64(a: I64, b: I64): I64 {
    if a - b < MIN_I64 then MIN_I64 else if a - b > MAX_I64 then MAX_I64 else a - b
  }
}
