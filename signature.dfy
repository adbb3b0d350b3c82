/**
  * A signature: an identifier, a pattern offset, the pattern bytes and the
  * anchor flags that say whether the offset counts from the start or from
  * the end of the data (libsigscan_signature.c).
  */
module Signatures {
  import opened Common

  /** The signature is anchored at `pattern_offset` bytes from the start of the data. */
  const FLAG_OFFSET_RELATIVE_FROM_START: bv32 := 0x0000_0001
  /** The signature is anchored at `pattern_offset` bytes before the end of the data. */
  const FLAG_OFFSET_RELATIVE_FROM_END: bv32 := 0x0000_0002
  /** The anchor bits of a flags value. */
  const SIGNATURE_FLAGS_MASK: bv32 := FLAG_OFFSET_RELATIVE_FROM_START | FLAG_OFFSET_RELATIVE_FROM_END

  /** The checks `set` makes before it touches the signature. */
  predicate SetArgumentsValid(
    identifier: Option<seq<byte>>, identifierLength: nat,
    pattern: Option<seq<byte>>, patternSize: nat, flags: bv32)
  {
    && identifier.Some? && 0 < identifierLength <= SSIZE_MAX
    && pattern.Some? && 0 < patternSize <= SSIZE_MAX
    && flags & !SIGNATURE_FLAGS_MASK == 0
  }

  class Signature {
    /** The stored identifier, terminator included; empty while not set. */
    var identifier: seq<byte>
    /** The pattern offset; -1 until `Set` stores one. */
    var patternOffset: int
    /** The stored pattern; empty while not set. */
    var pattern: seq<byte>
    /** The anchor flags. */
    var flags: bv32

    /** A freshly initialized signature: nothing set and a pattern offset of -1. */
    constructor ()
      ensures identifier == [] && pattern == [] && flags == 0
      ensures patternOffset == -1
    {
      identifier := [];
      pattern := [];
      flags := 0;
      patternOffset := -1;
    }

    /** The identifier size, terminator included (`get_identifier_size`). */
    function IdentifierSize(): nat
      reads this
    {
      |identifier|
    }

    /**
      * Sets the signature values. `identifier` and `pattern` are the
      * caller's buffers (None for a NULL pointer). Every argument is checked
      * before anything changes; on success the identifier holds
      * `identifierLength` bytes plus, when the last of them is not NUL, the
      * caller's byte that follows them.
      */
    method Set(
      identifier: Option<seq<byte>>, identifierLength: nat, patternOffset: int,
      pattern: Option<seq<byte>>, patternSize: nat, flags: bv32)
      returns (status: Status)
      requires identifier.Some? ==> identifierLength <= |identifier.value|
      requires identifier.Some? && 0 < identifierLength <= SSIZE_MAX
               && identifier.value[identifierLength - 1] != 0
               ==> identifierLength < |identifier.value|
      requires pattern.Some? ==> patternSize <= |pattern.value|
      modifies this
      ensures status.Success? <==>
              SetArgumentsValid(identifier, identifierLength, pattern, patternSize, flags)
      ensures identifier.None? ==> status == Failure(InvalidValue)
      ensures identifier.Some? && !(0 < identifierLength <= SSIZE_MAX) ==>
              status == Failure(ValueExceedsMaximum)
      ensures identifier.Some? && 0 < identifierLength <= SSIZE_MAX && pattern.None? ==>
              status == Failure(InvalidValue)
      ensures identifier.Some? && 0 < identifierLength <= SSIZE_MAX && pattern.Some? && !(0 < patternSize <= SSIZE_MAX)
              ==> status == Failure(ValueExceedsMaximum)
      ensures identifier.Some? && 0 < identifierLength <= SSIZE_MAX && pattern.Some? && 0 < patternSize <= SSIZE_MAX
              && flags & !SIGNATURE_FLAGS_MASK != 0
              ==> status == Failure(UnsupportedValue)
      ensures status.Failure? ==> unchanged(this)
      ensures status.Success? ==>
              && this.identifier ==
                 identifier.value[..TerminatedSize(identifier.value, identifierLength)]
              && this.patternOffset == patternOffset
              && this.pattern == pattern.value[..patternSize]
              && this.flags == flags
    {
      if identifier.None? {
        return Failure(InvalidValue);
      }
      if identifierLength == 0 || identifierLength > SSIZE_MAX {
        return Failure(ValueExceedsMaximum);
      }
      if pattern.None? {
        return Failure(InvalidValue);
      }
      if patternSize == 0 || patternSize > SSIZE_MAX {
        return Failure(ValueExceedsMaximum);
      }
      if flags & !SIGNATURE_FLAGS_MASK != 0 {
        return Failure(UnsupportedValue);
      }
      var size := identifierLength;
      if identifier.value[identifierLength - 1] != 0 {
        size := size + 1;
      }
      this.identifier := identifier.value[..size];
      this.patternOffset := patternOffset;
      this.pattern := pattern.value[..patternSize];
      this.flags := flags;
      status := Success;
    }

    /**
      * Copies the identifier into a caller buffer of `bufferSize` bytes and
      * returns the bytes written (`get_identifier`).
      */
    method GetIdentifier(bufferSize: nat) returns (r: Result<seq<byte>>)
      ensures bufferSize > SSIZE_MAX ==> r == Err(ValueExceedsMaximum)
      ensures bufferSize <= SSIZE_MAX && bufferSize < IdentifierSize() ==> r == Err(ValueTooSmall)
      ensures r.Ok? <==> IdentifierSize() <= bufferSize <= SSIZE_MAX
      ensures r.Ok? ==> r.value == identifier && |r.value| <= bufferSize
    {
      if bufferSize > SSIZE_MAX {
        return Err(ValueExceedsMaximum);
      }
      if bufferSize < |identifier| {
        return Err(ValueTooSmall);
      }
      r := Ok(identifier);
    }
  }

  /**
    * Clones a signature by reference: the destination must not be set yet,
    * and then it aliases the source, a NULL source included.
    */
  function Clone(destination: Signature?, source: Signature?): (r: Result<Signature?>)
    ensures r.Err? <==> destination != null
    ensures r.Ok? ==> r.value == source
  {
    if destination != null then Err(ValueAlreadySet) else Ok(source)
  }

  /**
    * Frees a clone: only the caller's reference is cleared, the signature
    * itself is left untouched because the clone does not own it.
    */
  method FreeClone(clone: Signature?) returns (cleared: Signature?)
    ensures cleared == null
    ensures clone != null ==> unchanged(clone)
  {
    cleared := null;
  }
}
