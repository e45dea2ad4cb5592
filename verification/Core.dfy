/** Shared vocabulary: machine integers, optional values, and classified failures. */
module Core {

  const U64_MAX: int := 0xFFFF_FFFF_FFFF_FFFF

  type u64 = n: int | 0 <= n <= U64_MAX
  type u32 = n: int | 0 <= n <= 0xFFFF_FFFF

  datatype Option<+T> = None | Some(value: T)

  /** The stable error categories that callers can distinguish. Text and context are not modelled. */
  datatype ErrorCategory =
    | InvalidInput
    | Conflict
    | NotFound
    | ResourceExhausted
    | CorruptData
    | PermissionDenied
    | Internal

  datatype Result<+T> = Ok(value: T) | Err(error: ErrorCategory) {
    predicate IsFailure() {
      Err?
    }

    function PropagateFailure<U>(): Result<U>
      requires Err?
    {
      Err(error)
    }

    function Extract(): T
      requires Ok?
    {
      value
    }
  }

  function Min(a: int, b: int): int {
    if a < b then a else b
  }

  function SaturatingAdd(a: u64, b: u64): u64 {
    if a + b > U64_MAX then U64_MAX else a + b
  }

  function SaturatingSub(a: u64, b: u64): u64 {
    if a < b then 0 else a - b
  }

  function CheckedAdd(a: u64, b: u64): Option<u64> {
    if a + b > U64_MAX then None else Some(a + b)
  }
}
