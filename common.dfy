/**
  * Types shared by every part of the libsigscan model: bytes, optional values,
  * the error results that stand for the C functions' -1 returns, and the
  * integer limits the C code checks its size arguments against.
  */
module Common {

  /** An unsigned 8-bit value (uint8_t). */
  type byte = b: int | 0 <= b < 256

  /** SSIZE_MAX on a 64-bit platform: the largest size any function accepts. */
  const SSIZE_MAX: int := 0x7FFF_FFFF_FFFF_FFFF

  /** INT64_MAX: the largest data size a scan state accepts. */
  const INT64_MAX: int := 0x7FFF_FFFF_FFFF_FFFF

  /** The number of values of a 64-bit integer. */
  const UINT64_RANGE: nat := 0x1_0000_0000_0000_0000

  /** The 64-bit unsigned integer (uint64_t) a value converts to. */
  function Unsigned64(x: int): (u: nat)
    ensures u < UINT64_RANGE
    ensures 0 <= x < UINT64_RANGE ==> u == x
  {
    x % UINT64_RANGE
  }

  /**
    * The 64-bit signed integer (off64_t) a value converts to, wrapping
    * modulo 2^64: a value already in range is kept, and the result has the
    * same 64-bit pattern as the value.
    */
  function Signed64(x: int): (s: int)
    ensures -INT64_MAX - 1 <= s <= INT64_MAX
    ensures -INT64_MAX - 1 <= x <= INT64_MAX ==> s == x
    ensures Unsigned64(s) == Unsigned64(x)
  {
    var u := Unsigned64(x);
    if u <= INT64_MAX then u else u - UINT64_RANGE
  }

  /** The libyal allocation ceiling used to bound identifier lengths (128 MiB). */
  const MEMORY_MAXIMUM_ALLOCATION_SIZE: int := 128 * 1024 * 1024

  /** A pointer that may be NULL, or a lookup that may find nothing. */
  datatype Option<T> = None | Some(value: T)

  /** The libcerror categories the modelled functions report. */
  datatype Error =
    | InvalidValue          // a NULL argument or a missing member value
    | ValueZeroOrLess       // a size of 0 where a positive size is needed
    | ValueExceedsMaximum   // a size above SSIZE_MAX (or another ceiling)
    | ValueTooSmall         // a caller buffer smaller than the stored value
    | ValueTooLarge         // a string with more characters than a value can take
    | ValueOutOfBounds      // an offset or index outside its range
    | UnsupportedValue      // an unknown mode, type or flag
    | ValueAlreadySet       // a set-once value or occupied slot
    | ValueMissing          // a required value that is not set
    | OperationFailed       // a called function reported failure

  /**
    * The pattern offsets modes (LIBSIGSCAN_PATTERN_OFFSET_MODE_*): offsets
    * bound to the start of the data, bound to its end, or unbound. Any other
    * mode value the C functions are given is `UnknownMode`, which they reject.
    */
  datatype OffsetMode = BoundToStart | BoundToEnd | Unbound | UnknownMode

  /** The outcome of a C function returning 1 on success or -1 on error. */
  datatype Result<T> = Ok(value: T) | Err(error: Error)

  /** The outcome of a C function that only reports success (1) or error (-1). */
  datatype Status = Success | Failure(error: Error)

  /**
    * The number of bytes stored for a string argument of length `length`:
    * one more than the length unless its last byte is already the NUL
    * terminator.
    */
  function TerminatedSize(s: seq<byte>, length: nat): (size: nat)
    requires 0 < length <= |s|
    ensures size == length || size == length + 1
    ensures size == length <==> s[length - 1] == 0
  {
    if s[length - 1] != 0 then length + 1 else length
  }
}
