/**
  * The signatures that share one pattern offset, grouped by the byte value
  * they have at that offset (libsigscan_byte_value_group.c). The signature
  * groups are kept in ascending byte-value order.
  */
module ByteValueGroups {
  import opened Common
  import opened SortedLists
  import opened Signatures
  import opened SignatureGroups

  /** The signatures filed under `byteValue`; empty when there is no such group. */
  ghost function SignaturesOf(groups: seq<SignatureGroup>, byteValue: int): seq<Signature>
    reads groups
  {
    match Lookup(groups, ByteValueKey, byteValue)
    case None => []
    case Some(g) => g.signatures
  }

  class ByteValueGroup {
    /** The pattern offset the byte values are taken at; fixed at initialization. */
    const patternOffset: int
    /** The signature groups (`signature_groups_list`). */
    var signatureGroups: seq<SignatureGroup>

    /** The signature groups are ascending by byte value, so there is at most one per byte value. */
    predicate Valid()
      reads this
    {
      StrictlyAscending(KeysOf(signatureGroups, ByteValueKey))
    }

    /** A new group at `patternOffset` without signature groups. */
    constructor (patternOffset: int)
      ensures this.patternOffset == patternOffset && signatureGroups == []
      ensures Valid() && NumberOfSignatureGroups() == 0
    {
      this.patternOffset := patternOffset;
      signatureGroups := [];
    }

    /** The number of signature groups (`get_number_of_signature_groups`). */
    function NumberOfSignatureGroups(): nat
      reads this
    {
      |signatureGroups|
    }

    /**
      * Retrieves the signature group of `byteValue` (`get_signature_group`),
      * walking the list and stopping at the first larger byte value.
      */
    method GetSignatureGroup(byteValue: byte) returns (r: Option<SignatureGroup>)
      ensures r == Lookup(signatureGroups, ByteValueKey, byteValue)
    {
      r := FindItem(signatureGroups, ByteValueKey, byteValue);
    }

    /**
      * Files `signature` under `byteValue` (`insert_signature`): a signature
      * group is created, by a unique insert, only for a new byte value, and
      * the signature is appended to it. A NULL signature is rejected by the
      * append, after a new group has already been inserted.
      */
    method InsertSignature(byteValue: byte, signature: Signature?) returns (status: Status)
      requires Valid()
      modifies this, signatureGroups
      ensures Valid()
      ensures forall b :: b in KeysOf(signatureGroups, ByteValueKey) <==> b in old(KeysOf(signatureGroups, ByteValueKey)) || b == byteValue
      ensures NumberOfSignatureGroups() ==
                old(NumberOfSignatureGroups()) + (if byteValue in old(KeysOf(signatureGroups, ByteValueKey)) then 0 else 1)
      ensures signature == null ==> status == Failure(InvalidValue)
      ensures signature == null ==> SignaturesOf(signatureGroups, byteValue) == old(SignaturesOf(signatureGroups, byteValue))
      ensures signature != null ==> status == Success
      ensures signature != null ==> SignaturesOf(signatureGroups, byteValue) == old(SignaturesOf(signatureGroups, byteValue)) + [signature]
      ensures forall b :: b != byteValue ==> SignaturesOf(signatureGroups, b) == old(SignaturesOf(signatureGroups, b))
      ensures forall g :: g in signatureGroups ==> g in old(signatureGroups) || fresh(g)
    {
      var found := GetSignatureGroup(byteValue);
      if found.Some? {
        var group := found.value;
        status := group.AppendSignature(signature);
        forall b | b != byteValue
          ensures SignaturesOf(signatureGroups, b) == old(SignaturesOf(signatureGroups, b))
        {
          if Lookup(signatureGroups, ByteValueKey, b).Some? {
            assert Lookup(signatureGroups, ByteValueKey, b).value != group;
          }
        }
      } else {
        var group := new SignatureGroup(byteValue);
        var inserted := InsertItem(signatureGroups, ByteValueKey, group);
        signatureGroups := inserted.value;
        status := group.AppendSignature(signature);
      }
    }

    /**
      * The signature group at `index` (`get_signature_group_by_index`); an
      * index outside the list, -1 included, is an error.
      */
    function GetSignatureGroupByIndex(index: int): (r: Result<SignatureGroup>)
      reads this
      ensures r.Ok? <==> 0 <= index < NumberOfSignatureGroups()
      ensures r.Ok? ==> r.value == signatureGroups[index]
      ensures r.Err? ==> r.error == ValueOutOfBounds
    {
      if 0 <= index < |signatureGroups| then Ok(signatureGroups[index]) else Err(ValueOutOfBounds)
    }
  }

  /** Three-way comparison of two byte value groups by pattern offset (`compare`). */
  function Compare(first: ByteValueGroup, second: ByteValueGroup): (r: Ordering)
    ensures r == Less <==> first.patternOffset < second.patternOffset
    ensures r == Equal <==> first.patternOffset == second.patternOffset
    ensures r == Greater <==> first.patternOffset > second.patternOffset
  {
    ThreeWay(first.patternOffset, second.patternOffset)
  }

  /** The key the groups are ordered by: the pattern offset. */
  function PatternOffsetKey(group: ByteValueGroup): int
  {
    group.patternOffset
  }
}
