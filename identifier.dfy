/**
  * A set-once identifier string (libsigscan_identifier.c).
  */
module Identifiers {
  import opened Common

  class Identifier {
    /** The stored string, terminator included; empty while the string is NULL. */
    var str: seq<byte>

    /** A new identifier holds no string. */
    constructor ()
      ensures str == []
    {
      str := [];
    }

    /** The string size, terminator included (`get_string_size`). */
    function StringSize(): nat
      reads this
    {
      |str|
    }

    /**
      * Sets the string from the caller's buffer (None for NULL). Fails when a
      * string is already set, so only the first successful call has effect;
      * the stored size is the length plus one unless the last byte is NUL.
      */
    method Set(s: Option<seq<byte>>, length: nat) returns (status: Status)
      requires s.Some? ==> length <= |s.value|
      requires s.Some? && 0 < length <= MEMORY_MAXIMUM_ALLOCATION_SIZE && s.value[length - 1] != 0
               ==> length < |s.value|
      modifies this
      ensures old(str) != [] ==> status == Failure(ValueAlreadySet)
      ensures old(str) == [] && s.None? ==> status == Failure(InvalidValue)
      ensures status.Success? <==>
              old(str) == [] && s.Some? && 0 < length <= MEMORY_MAXIMUM_ALLOCATION_SIZE
      ensures status.Failure? ==> str == old(str)
      ensures status.Success? ==> str == s.value[..TerminatedSize(s.value, length)] && str != []
    {
      if str != [] {
        return Failure(ValueAlreadySet);
      }
      if s.None? {
        return Failure(InvalidValue);
      }
      if length == 0 || length > MEMORY_MAXIMUM_ALLOCATION_SIZE {
        return Failure(ValueOutOfBounds);
      }
      var size := length;
      if s.value[length - 1] != 0 {
        size := size + 1;
      }
      str := s.value[..size];
      status := Success;
    }

    /**
      * Copies the string into a caller buffer of `bufferSize` bytes and
      * returns exactly the `StringSize()` bytes written (`get_string`).
      */
    method GetString(bufferSize: nat) returns (r: Result<seq<byte>>)
      ensures bufferSize > SSIZE_MAX ==> r == Err(ValueExceedsMaximum)
      ensures bufferSize <= SSIZE_MAX && bufferSize < StringSize() ==> r == Err(ValueTooSmall)
      ensures r.Ok? <==> StringSize() <= bufferSize <= SSIZE_MAX
      ensures r.Ok? ==> r.value == str && |r.value| == StringSize()
    {
      if bufferSize > SSIZE_MAX {
        return Err(ValueExceedsMaximum);
      }
      if bufferSize < |str| {
        return Err(ValueTooSmall);
      }
      r := Ok(str);
    }
  }
}
