// Vocabulary shared by the models: optional values, trade sides and the
// fixed-width integer limits at which the program saturates.
module Domain {

  datatype Option<+T> = None | Some(value: T)

  datatype Result<+T, +E> = Ok(value: T) | Err(error: E) {
    predicate IsFailure() {
      Err?
    }

    function PropagateFailure<U>(): Result<U, E>
      requires Err?
    {
      Err(error)
    }

    function Extract(): T
      requires Ok?
    {
      value
    }
  }

  datatype TradeSide = Buy | Sell

  /** The two lanes of the A/B comparison. */
  datatype Variant = Control | QuantV1

  const U64_MAX: nat := 0xFFFF_FFFF_FFFF_FFFF
  const I64_MAX: int := 0x7FFF_FFFF_FFFF_FFFF
  const I64_MIN: int := -0x8000_0000_0000_0000

  function One(b: bool): nat {
    if b then 1 else 0
  }

  function Min(a: int, b: int): int {
    if a < b then a else b
  }

  function Max(a: int, b: int): int {
    if a < b then b else a
  }

  /** `u64::saturating_add(1)`. */
  function SatIncrement(n: nat): nat {
    if n < U64_MAX then n + 1 else n
  }

  /** `u64::saturating_sub`. */
  function SatSub(a: nat, b: nat): nat {
    if a < b then 0 else a - b
  }

  /** `i64::saturating_add` and `i64::saturating_sub` clamp their exact result. */
  function ClampI64(n: int): int {
    Max(I64_MIN, Min(I64_MAX, n))
  }
}
