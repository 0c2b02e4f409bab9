/** Shared vocabulary of the crate root: identifiers and the crate-wide error type. */
module Core {

  /** A `uuid::Uuid`: only equality matters to the model. Fresh identifiers
      (`Uuid::new_v4`) are passed in by the caller. */
  datatype Uuid = Uuid(bits: nat)

  /** Rust's fixed-width unsigned integers, as ranges of `int`. */
  type u8 = x: int | 0 <= x < 0x100
  type u16 = x: int | 0 <= x < 0x1_0000
  type u32 = x: int | 0 <= x < 0x1_0000_0000
  type u64 = x: int | 0 <= x < 0x1_0000_0000_0000_0000

  /** Rust's `i32`. */
  type i32 = x: int | -0x8000_0000 <= x < 0x8000_0000

  /** `TilleRSError` from the crate root. */
  datatype TilleRSError =
    | PermissionDenied(message: string)
    | WindowNotFound(windowId: nat)
    | WorkspaceNotFound(workspace: string)
    | ConfigurationError(message: string)
    | MacOSAPIError(message: string)
    | ValidationError(message: string)
}
