/**
  * The signatures that have one particular byte value at a pattern offset
  * (libsigscan_signature_group.c).
  */
module SignatureGroups {
  import opened Common
  import opened SortedLists
  import opened Signatures

  class SignatureGroup {
    /** The byte value shared by the signatures of the group; fixed at initialization. */
    const byteValue: byte
    /** The signatures, in the order they were appended. */
    var signatures: seq<Signature>

    /** A new group for `byteValue` without signatures. */
    constructor (byteValue: byte)
      ensures this.byteValue == byteValue && signatures == []
    {
      this.byteValue := byteValue;
      signatures := [];
    }

    /** The number of signatures (`get_number_of_signatures`). */
    function NumberOfSignatures(): nat
      reads this
    {
      |signatures|
    }

    /**
      * Appends a signature (`append_signature`): NULL is rejected and leaves
      * the group as it was; otherwise the signature is the new last element.
      */
    method AppendSignature(signature: Signature?) returns (status: Status)
      modifies this
      ensures signature == null ==> status == Failure(InvalidValue) && signatures == old(signatures)
      ensures signature != null ==> status == Success && signatures == old(signatures) + [signature]
    {
      if signature == null {
        return Failure(InvalidValue);
      }
      signatures := signatures + [signature];
      status := Success;
    }

    /**
      * The signature at `index` (`get_signature_by_index`); an index outside
      * the list is an error.
      */
    function GetSignatureByIndex(index: int): (r: Result<Signature>)
      reads this
      ensures r.Ok? <==> 0 <= index < NumberOfSignatures()
      ensures r.Ok? ==> r.value == signatures[index]
    {
      if 0 <= index < |signatures| then Ok(signatures[index]) else Err(ValueOutOfBounds)
    }
  }

  /** Three-way comparison of two signature groups by byte value (`compare`). */
  function Compare(first: SignatureGroup, second: SignatureGroup): (r: Ordering)
    ensures r == Less <==> first.byteValue < second.byteValue
    ensures r == Equal <==> first.byteValue == second.byteValue
    ensures r == Greater <==> first.byteValue > second.byteValue
  {
    ThreeWay(first.byteValue, second.byteValue)
  }

  /** The key the groups are ordered by: the byte value. */
  function ByteValueKey(group: SignatureGroup): int
  {
    group.byteValue
  }
}
