/**
 * 64-bit machine integers and the two's-complement casts between them, as
 * the kernel's `u64`/`usize` and `i64`/`isize`/`off_t` values are cast on a
 * 64-bit target. Shared by the file layer and the task time accounting.
 */
module MachineInt {

  const U64_LIMIT: int := 0x1_0000_0000_0000_0000
  const I64_LIMIT: int := 0x8000_0000_0000_0000

  type U64 = x: int | 0 <= x < 0x1_0000_0000_0000_0000
  type I64 = x: int | -0x8000_0000_0000_0000 <= x < 0x8000_0000_0000_0000

  /** `u64 as i64` (and `u64 as isize`): two's-complement reinterpretation. */
  function ToI64(x: U64): (r: I64)
    ensures (r - x) % U64_LIMIT == 0
  {
    if x < I64_LIMIT then x else x - U64_LIMIT
  }

  /** `i64 as u64` (and `i64 as usize`). */
  function ToU64(y: I64): (r: U64)
    ensures (r - y) % U64_LIMIT == 0
  {
    if y >= 0 then y else y + U64_LIMIT
  }

  /** The two casts undo each other. */
  lemma CastsRoundTrip(x: U64, y: I64)
    ensures ToU64(ToI64(x)) == x
    ensures ToI64(ToU64(y)) == y
  {
  }
}
