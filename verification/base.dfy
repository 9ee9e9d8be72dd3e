/** Vocabulary shared by every part of the binding model: the C integer widths the
    binding converts between, the opaque error captured from the native library,
    `Result`/`Option`, and the two ways a Rust call can end (returning or panicking). */
module Base {

  type uint8 = x: int | 0 <= x < 0x100
  type int8 = x: int | -0x80 <= x < 0x80
  type int32 = x: int | -0x8000_0000 <= x < 0x8000_0000
  type uint32 = x: int | 0 <= x < 0x1_0000_0000
  type int64 = x: int | -0x8000_0000_0000_0000 <= x < 0x8000_0000_0000_0000
  type uint64 = x: int | 0 <= x < 0x1_0000_0000_0000_0000

  /** `x as u32` in Rust: keep the low 32 bits. */
  function AsUInt32(x: int): (r: uint32)
    ensures (r - x) % 0x1_0000_0000 == 0
    ensures 0 <= x < 0x1_0000_0000 ==> r == x
  {
    x % 0x1_0000_0000
  }

  /** `x as i32` in Rust: keep the low 32 bits, read as two's complement. */
  function AsInt32(x: int): (r: int32)
    ensures (r - x) % 0x1_0000_0000 == 0
    ensures -0x8000_0000 <= x < 0x8000_0000 ==> r == x
  {
    var m := x % 0x1_0000_0000;
    if m < 0x8000_0000 then m else m - 0x1_0000_0000
  }

  /** `x as u64` in Rust: keep the low 64 bits (a negative `i32` is sign-extended). */
  function AsUInt64(x: int): (r: uint64)
    ensures (r - x) % 0x1_0000_0000_0000_0000 == 0
    ensures 0 <= x < 0x1_0000_0000_0000_0000 ==> r == x
  {
    x % 0x1_0000_0000_0000_0000
  }

  datatype Option<+T> = None | Some(value: T)

  /** What `virGetLastError` reports after a failed native call. The binding only copies
      it; the model treats it as an opaque value supplied with the failing call. */
  datatype ErrorValue = ErrorValue(code: int32, domain: int32, message: string, level: uint32)

  datatype Result<+T> = Ok(value: T) | Err(error: ErrorValue)

  /** A Rust call either returns or panics (`unwrap` on `None`, an explicit `panic!`,
      an out-of-bounds index). Nothing of the state survives a panic. */
  datatype Outcome<+T> = Returned(value: T) | Panicked
}
