/**
 * The error type of the driver and the `Result` it uses.  Besides the two
 * variants declared in src/error.rs this carries the ones the command path
 * and the MTCR port raise, and `Panic` for the places where the driver
 * unwraps or indexes out of range instead of returning an error.
 */
module Errors {
  import opened Bytes
  import Types

  datatype Error =
    | IoError
    | Bar0
    /** Non-zero completion code of the command queue entry (status >> 1). */
    | CmdIf(code: nat)
    /** Non-Ok firmware status in the output header. */
    | Command(status: Types.CommandErrorStatus, syndrome: u32)
    /** A reply too short or malformed for its decoder. */
    | Deku
    | InvalidAddressSpace
    | CapabilityNotFound
    /** The driver would abort: `unwrap` of `None`, a sub-region out of range, an overflow. */
    | Panic

  datatype Result<+T> = Ok(value: T) | Err(error: Error)
}
