/** Types shared by the whole model: bytes, the Swift integer ranges used for
    offsets, and the closed error taxonomy that replaces the thrown NSErrors. */
module Common {

  /** One byte of file content. */
  newtype byte = b: int | 0 <= b < 0x100

  /** One past the largest UInt64. */
  const U64_LIMIT: int := 0x1_0000_0000_0000_0000
  /** Int.max on a 64-bit platform. */
  const INT_MAX: int := 0x7FFF_FFFF_FFFF_FFFF
  /** Int.min on a 64-bit platform. */
  const INT_MIN: int := -0x8000_0000_0000_0000

  /** Swift's UInt64, the type of file offsets. */
  type u64 = x: int | 0 <= x < U64_LIMIT

  /** Swift's Int on a 64-bit platform. */
  type Int64 = x: int | INT_MIN <= x <= INT_MAX

  /** Why an operation failed. The source throws an NSError whose only content
      is a message; the model keeps the kind of failure instead. */
  datatype Error =
    | NotFound       // the file does not exist where it must
    | IOFailure      // the host refused to create, open, write or truncate
    | InvalidRange   // a read whose end offset precedes its start offset
    | DecodeFailure  // the bytes read are not text in the requested encoding

  datatype Result<+T> = Ok(value: T) | Err(error: Error)

  datatype Option<+T> = None | Some(value: T)

  function Min(a: int, b: int): int { if a <= b then a else b }

  function Max(a: int, b: int): int { if a <= b then b else a }
}
