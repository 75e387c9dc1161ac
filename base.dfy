/** Small shared vocabulary: optional values, fallible results and the
    fixed-width integer types that the Rust source uses. */
module Base {

  datatype Option<+T> = None | Some(value: T)

  /** A fallible result: a backend call or a command that either yields a
      value or fails (the source's `Result<_, anyhow::Error>`; the error
      payload itself is never inspected, so it is not modelled). */
  datatype Result<+T> = Ok(value: T) | Err

  /** Rust's `u32` and `i32`. */
  type u32 = x: int | 0 <= x < 0x1_0000_0000
  type i32 = x: int | -0x8000_0000 <= x < 0x8000_0000
}
