/** Machine integer widths and the panic outcomes of the firmware.

    Rust's fixed-width integers become subset types of `int`; a Rust panic
    (out-of-bounds index, `unwrap` on `None`/`Err`, an arithmetic overflow
    in a debug build) becomes an `Err` carrying the kind of fault, so that
    the model states when the original code would halt instead of ruling
    those inputs out with a precondition. */
module Prelude {

  const U8_LIMIT: int := 0x100
  const U16_LIMIT: int := 0x1_0000
  const U32_LIMIT: int := 0x1_0000_0000

  type u8 = x: int | 0 <= x < U8_LIMIT
  type u16 = x: int | 0 <= x < U16_LIMIT
  type u32 = x: int | 0 <= x < U32_LIMIT
  type i32 = x: int | -0x8000_0000 <= x < 0x8000_0000

  /** The ways the modelled code can panic. */
  datatype Fault =
    | IndexOutOfBounds   // `slice[i]` with `i >= len`
    | UnwrapOnNone       // `Option::unwrap` of `None`
    | UnwrapOnErr        // `Result::unwrap` of `Err`
    | ArithmeticOverflow // `+=` past the top of an unsigned type

  datatype Option<+T> = None | Some(value: T)

  datatype Result<+T> = Ok(value: T) | Err(fault: Fault)

  /** Outcome of an operation that returns nothing but may panic. */
  datatype Outcome = Done | Panic(fault: Fault)
}
