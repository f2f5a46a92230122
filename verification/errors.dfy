/** The failures the Rust engine can report (rust_implementation/src/errors.rs),
    and the panics that end the Rust process instead of returning an error. */
module Errors {

  /** The `LC3Error` variants the engine and the program loader return. The
      variants only the console front end produces, and `Io` and `Unknown`, are
      not part of this model. */
  datatype Lc3Error =
    | CpuNotRunning
    | RtiNotSupported
    | UnusedOpCode
    | UnsupportedTrapCode(trapCode: int)
    | UnrecognizedOpCode(opCode: int)
    | BadProgramHeader
    | BadProgramInstructions

  /** Why a Rust call panicked: an index outside a vector, an `i32` addition that
      overflows (a debug build checks every one), or `unwrap` on a missing value
      or an error. */
  datatype PanicKind = IndexOutOfBounds | ArithmeticOverflow | UnwrapFailed

  /** What a Rust call that returns `Failable<T>` does: it returns `Ok`, returns
      `Err`, or panics. */
  datatype Failable<+T> = Ok(value: T) | Err(error: Lc3Error) | Panic(kind: PanicKind)
}
