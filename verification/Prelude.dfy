/** Shared result types and the machine bounds the service is written against. */
module Prelude {

  datatype Option<+T> = None | Some(value: T)

  datatype Result<+T, +E> = Ok(value: T) | Err(error: E)

  /** `i64::MAX`: the largest instant, revision or generation SQLite can hold. */
  const MAX_I64: nat := 0x7FFF_FFFF_FFFF_FFFF
  const MAX_U64: nat := 0xFFFF_FFFF_FFFF_FFFF
  const U32_LIMIT: nat := 0x1_0000_0000
  const U64_LIMIT: nat := 0x1_0000_0000_0000_0000

  type Byte = n: nat | n < 256 witness 0
  type Bytes = seq<Byte>

  function Min(a: nat, b: nat): nat { if a <= b then a else b }
}
