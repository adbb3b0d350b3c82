/**
  * The signature table the scan tree is built from
  * (libsigscan_signature_table.c): for every pattern offset a byte value
  * group, kept in ascending offset order, which files the signatures by the
  * byte value they have at that offset; and the list of the signatures the
  * table was filled with.
  */
module SignatureTables {
  import opened Common
  import opened SortedLists
  import opened Signatures
  import opened SignatureGroups
  import opened ByteValueGroups
  import opened OffsetsList

  /** Whether `fill` takes a signature with `flags` in `mode`: a bound mode takes the signatures anchored that way, the unbound mode takes all. */
  function Included(flags: bv32, mode: OffsetMode): bool
  {
    match mode
    case BoundToStart => flags & SIGNATURE_FLAGS_MASK == FLAG_OFFSET_RELATIVE_FROM_START
    case BoundToEnd => flags & SIGNATURE_FLAGS_MASK == FLAG_OFFSET_RELATIVE_FROM_END
    case Unbound => true
    case UnknownMode => false
  }

  /**
    * The table offset of the first pattern byte: the pattern offset when
    * bound to the start, the range size less the pattern offset when bound
    * to the end, 0 when unbound. The difference is taken in 64-bit unsigned
    * arithmetic and stored in an off64_t, so it wraps modulo 2^64.
    */
  function BaseOffset(patternOffset: int, mode: OffsetMode, rangeSize: int): int
  {
    match mode
    case BoundToStart => patternOffset
    case BoundToEnd => Signed64(rangeSize - patternOffset)
    case _ => 0
  }

  /**
    * Whether one of the first `count` bytes of `pattern`, laid out from
    * `base`, files its signature under (`offset`, `byteValue`): the byte at
    * `offset` is `byteValue` and `offset` is not in the ignore list.
    */
  predicate FiledBy(pattern: seq<byte>, base: int, count: nat, ignore: seq<int>, offset: int, byteValue: int)
    requires count <= |pattern|
  {
    base <= offset < base + count && pattern[offset - base] == byteValue && Search(ignore, offset).None?
  }

  /**
    * What `fill` files of one signature, with the given flags, pattern offset
    * and pattern, under (`offset`, `byteValue`): the signature itself when
    * the mode takes it and one of its pattern bytes lands there, else nothing.
    */
  function Contribution(signature: Signature, flags: bv32, patternOffset: int, pattern: seq<byte>,
                        mode: OffsetMode, rangeSize: int, ignore: seq<int>, offset: int, byteValue: int): seq<Signature>
  {
    if Included(flags, mode) && FiledBy(pattern, BaseOffset(patternOffset, mode, rangeSize), |pattern|, ignore, offset, byteValue)
    then [signature] else []
  }

  /** What `fill` reads of one signature: its flags, pattern offset and pattern. */
  datatype SignatureView = SignatureView(signature: Signature, flags: bv32, patternOffset: int, pattern: seq<byte>)

  /** The views of the signatures of `list`, None for a NULL entry. */
  ghost function Views(list: seq<Signature?>): (r: seq<Option<SignatureView>>)
    reads list
    ensures |r| == |list|
    ensures forall i :: 0 <= i < |list| && list[i] == null ==> r[i] == None
    ensures forall i :: 0 <= i < |list| && list[i] != null ==>
              r[i] == Some(SignatureView(list[i], list[i].flags, list[i].patternOffset, list[i].pattern))
  {
    seq(|list|, i requires 0 <= i < |list| reads list =>
      if list[i] == null then None else Some(SignatureView(list[i], list[i].flags, list[i].patternOffset, list[i].pattern)))
  }

  /** The signatures of `views` that `fill` files under (`offset`, `byteValue`), in list order. */
  function Filed(views: seq<Option<SignatureView>>, mode: OffsetMode, rangeSize: int, ignore: seq<int>, offset: int, byteValue: int): seq<Signature>
  {
    if views == [] then []
    else
      Filed(views[..|views| - 1], mode, rangeSize, ignore, offset, byteValue)
      + match views[|views| - 1]
        case None => []
        case Some(v) => Contribution(v.signature, v.flags, v.patternOffset, v.pattern, mode, rangeSize, ignore, offset, byteValue)
  }

  /** The signatures of `views` that `fill` takes in `mode`, in list order. */
  function IncludedSignatures(views: seq<Option<SignatureView>>, mode: OffsetMode): seq<Signature>
  {
    if views == [] then []
    else
      IncludedSignatures(views[..|views| - 1], mode)
      + match views[|views| - 1]
        case Some(v) => if Included(v.flags, mode) then [v.signature] else []
        case None => []
  }

  /** The signatures `entries` files under (`offset`, `byteValue`); empty when there are none. */
  function EntryOf(entries: map<(int, int), seq<Signature>>, offset: int, byteValue: int): seq<Signature>
  {
    if (offset, byteValue) in entries then entries[(offset, byteValue)] else []
  }

  /** Every entry of `entries` is the entry of `start` followed by what `views` file under it. */
  ghost predicate EntriesFilled(entries: map<(int, int), seq<Signature>>, start: map<(int, int), seq<Signature>>,
                             views: seq<Option<SignatureView>>, mode: OffsetMode, rangeSize: int, ignore: seq<int>)
  {
    forall o, b :: EntryOf(entries, o, b) == EntryOf(start, o, b) + Filed(views, mode, rangeSize, ignore, o, b)
  }

  /** Filing one more signature view appends its contribution to every entry. */
  lemma FiledNext(views: seq<Option<SignatureView>>, j: nat, mode: OffsetMode, rangeSize: int, ignore: seq<int>)
    requires j < |views| && views[j].Some?
    ensures forall o, b :: Filed(views[..j + 1], mode, rangeSize, ignore, o, b) ==
              Filed(views[..j], mode, rangeSize, ignore, o, b)
              + Contribution(views[j].value.signature, views[j].value.flags, views[j].value.patternOffset, views[j].value.pattern, mode, rangeSize, ignore, o, b)
    ensures IncludedSignatures(views[..j + 1], mode) ==
              IncludedSignatures(views[..j], mode) + if Included(views[j].value.flags, mode) then [views[j].value.signature] else []
  {
    assert views[..j + 1][..j] == views[..j];
  }

  /**
    * Filling from `first` and then from `second` files what one fill from
    * their concatenation does: every entry, and the signatures taken, are
    * those of `first` followed by those of `second`.
    */
  lemma {:induction false} FiledAppend(first: seq<Option<SignatureView>>, second: seq<Option<SignatureView>>,
                                       mode: OffsetMode, rangeSize: int, ignore: seq<int>)
    ensures forall o, b :: Filed(first + second, mode, rangeSize, ignore, o, b) ==
              Filed(first, mode, rangeSize, ignore, o, b) + Filed(second, mode, rangeSize, ignore, o, b)
    ensures IncludedSignatures(first + second, mode) == IncludedSignatures(first, mode) + IncludedSignatures(second, mode)
  {
    if second != [] {
      var last := |second| - 1;
      FiledAppend(first, second[..last], mode, rangeSize, ignore);
      assert (first + second)[..|first + second| - 1] == first + second[..last];
    } else {
      assert first + second == first;
    }
  }

  /**
    * One fill of a table from the concatenation of two signature lists
    * files and takes what a fill from `first` followed by a fill from
    * `second` does, and fails on a NULL signature exactly when one of the
    * two would.
    */
  lemma FillConcatenation(first: seq<Signature?>, second: seq<Signature?>, mode: OffsetMode, rangeSize: int, ignore: seq<int>)
    ensures forall o, b :: Filed(Views(first + second), mode, rangeSize, ignore, o, b) ==
              Filed(Views(first), mode, rangeSize, ignore, o, b) + Filed(Views(second), mode, rangeSize, ignore, o, b)
    ensures IncludedSignatures(Views(first + second), mode) ==
              IncludedSignatures(Views(first), mode) + IncludedSignatures(Views(second), mode)
    ensures null in first + second <==> null in first || null in second
  {
    assert Views(first + second) == Views(first) + Views(second);
    FiledAppend(Views(first), Views(second), mode, rangeSize, ignore);
  }

  /** Regrouping a concatenation of three signature lists. */
  lemma AppendAssociative(a: seq<Signature>, b: seq<Signature>, c: seq<Signature>)
    ensures (a + b) + c == a + (b + c)
  {
  }

  class SignatureTable {
    /** The byte value groups (`byte_value_groups_list`). */
    var byteValueGroups: seq<ByteValueGroup>
    /** The signatures the table was filled with (`signatures_list`). */
    var signatures: seq<Signature>
    /** The signature groups the byte value groups hold: the footprint of the groups. */
    ghost var Repr: set<SignatureGroup>
    /** The signatures filed under each (pattern offset, byte value), as the groups hold them. */
    ghost var entries: map<(int, int), seq<Signature>>

    /**
      * At most one byte value group per pattern offset (the list is
      * ascending), each of them valid, their signature groups in `Repr`, and
      * no signature group shared by two byte value groups.
      */
    ghost predicate Structured()
      reads this`byteValueGroups, this`Repr, byteValueGroups
    {
      && StrictlyAscending(KeysOf(byteValueGroups, PatternOffsetKey))
      && (forall g :: g in byteValueGroups ==> g.Valid())
      && (forall g, s :: g in byteValueGroups && s in g.signatureGroups ==> s in Repr)
      && (forall g, h, s :: g in byteValueGroups && h in byteValueGroups && s in g.signatureGroups && s in h.signatureGroups ==> g == h)
    }

    /**
      * The signatures the groups file under `byteValue` at `offset`: those of
      * the signature group of `byteValue` in the byte value group of `offset`,
      * none when either is missing.
      */
    ghost function Stored(offset: int, byteValue: int): seq<Signature>
      requires Structured()
      reads this`byteValueGroups, this`Repr, byteValueGroups, Repr
    {
      match Lookup(byteValueGroups, PatternOffsetKey, offset)
      case None => []
      case Some(g) => SignaturesOf(g.signatureGroups, byteValue)
    }

    /** The groups are well formed and `entries` is what they hold. */
    ghost predicate Valid()
      reads this`byteValueGroups, this`Repr, this`entries, byteValueGroups, Repr
    {
      Structured() && forall o, b {:trigger Stored(o, b)} :: Entries(o, b) == Stored(o, b)
    }

    /** The signatures filed under `byteValue` at `offset`; empty when there are none. */
    ghost function Entries(offset: int, byteValue: int): seq<Signature>
      reads this`entries
    {
      EntryOf(entries, offset, byteValue)
    }

    /** A new table without byte value groups and signatures. */
    constructor ()
      ensures byteValueGroups == [] && signatures == [] && Repr == {}
      ensures Valid() && forall offset, byteValue :: Entries(offset, byteValue) == []
    {
      byteValueGroups := [];
      signatures := [];
      Repr := {};
      entries := map[];
    }

    /** The number of byte value groups (`get_number_of_byte_value_groups`). */
    function NumberOfByteValueGroups(): nat
      reads this
    {
      |byteValueGroups|
    }

    /**
      * The byte value group at `index` (`get_byte_value_group_by_index`);
      * an index outside the list is an error.
      */
    function GetByteValueGroupByIndex(index: int): (r: Result<ByteValueGroup>)
      reads this
      ensures r.Ok? <==> 0 <= index < NumberOfByteValueGroups()
      ensures r.Ok? ==> r.value == byteValueGroups[index]
      ensures r.Err? ==> r.error == ValueOutOfBounds
    {
      if 0 <= index < |byteValueGroups| then Ok(byteValueGroups[index]) else Err(ValueOutOfBounds)
    }

    /**
      * Retrieves the byte value group of `offset`
      * (`get_byte_value_group_by_offset`), walking the list and stopping at
      * the first larger offset.
      */
    method GetByteValueGroupByOffset(offset: int) returns (r: Option<ByteValueGroup>)
      ensures r == Lookup(byteValueGroups, PatternOffsetKey, offset)
    {
      r := FindItem(byteValueGroups, PatternOffsetKey, offset);
    }

    /** The number of signatures (`get_number_of_signatures`). */
    function NumberOfSignatures(): nat
      reads this
    {
      |signatures|
    }

    /**
      * A clone of the signatures list (`get_signatures_list_clone`); the
      * signatures are cloned by reference, so the clone holds the same
      * signatures in the same order.
      */
    method GetSignaturesListClone() returns (r: seq<Signature?>)
      ensures |r| == NumberOfSignatures()
      ensures forall i :: 0 <= i < |r| ==> r[i] == signatures[i]
    {
      r := [];
      var i := 0;
      while i < |signatures|
        invariant 0 <= i <= |signatures|
        invariant r == signatures[..i]
      {
        var clone := Clone(null, signatures[i]);
        r := r + [clone.value];
        i := i + 1;
      }
    }

    /**
      * Files `signature` under `byteValue` at `offset` (`insert_signature`):
      * a byte value group is created, by a unique insert, only for a new
      * offset, and the signature is handed to it. A NULL signature is
      * rejected, leaving every entry as it was.
      */
    method InsertSignature(offset: int, byteValue: byte, signature: Signature?) returns (status: Status)
      requires Valid()
      modifies this, byteValueGroups, Repr
      ensures InsertedSignature(offset, byteValue, signature, status)
      ensures forall g :: g in byteValueGroups ==> g in old(byteValueGroups) || fresh(g)
    {
      var found := GetByteValueGroupByOffset(offset);
      if found.Some? {
        assert offset in KeysOf(byteValueGroups, PatternOffsetKey);
        status := InsertIntoGroup(found.value, byteValue, signature);
      } else {
        status := InsertIntoNewGroup(offset, byteValue, signature);
      }
    }

    /**
      * The state change of `InsertSignature`: the table stays valid, has a
      * byte value group for `offset`, and files a non-NULL signature last
      * under (`offset`, `byteValue`), every other entry unchanged.
      */
    twostate predicate InsertedSignature(offset: int, byteValue: byte, signature: Signature?, status: Status)
      reads this, byteValueGroups, Repr
    {
      && EntryAppended(offset, byteValue, signature, status)
      && (forall o :: o in KeysOf(byteValueGroups, PatternOffsetKey) <==> o in old(KeysOf(byteValueGroups, PatternOffsetKey)) || o == offset)
    }

    /** The entries part of `InsertedSignature`. */
    twostate predicate EntryAppended(offset: int, byteValue: byte, signature: Signature?, status: Status)
      reads this, byteValueGroups, Repr
    {
      && Valid() && signatures == old(signatures) && fresh(Repr - old(Repr))
      && (signature == null ==> status == Failure(InvalidValue) && entries == old(entries))
      && (signature != null ==> status == Success)
      && (signature != null ==> entries == old(entries)[(offset, byteValue as int) := old(Entries(offset, byteValue)) + [signature]])
    }

    /** The `insert_signature` path for an offset that has a byte value group. */
    method InsertIntoGroup(group: ByteValueGroup, byteValue: byte, signature: Signature?) returns (status: Status)
      requires Valid() && Lookup(byteValueGroups, PatternOffsetKey, group.patternOffset) == Some(group)
      modifies this`Repr, this`entries, group, group.signatureGroups
      ensures EntryAppended(group.patternOffset, byteValue, signature, status)
    {
      if signature != null {
        entries := entries[(group.patternOffset, byteValue as int) := Entries(group.patternOffset, byteValue) + [signature]];
      }
      forall o, b | o != group.patternOffset || b != byteValue
        ensures Entries(o, b) == Stored(o, b)
      {
        assert Entries(o, b) == old(Entries(o, b)) == old(Stored(o, b));
      }
      status := StoreInGroup(group, byteValue, signature);
    }

    /**
      * Hands `signature` to the byte value group of its offset, once
      * `entries` already files it there: the groups then hold what `entries`
      * files.
      */
    method StoreInGroup(group: ByteValueGroup, byteValue: byte, signature: Signature?) returns (status: Status)
      requires Structured() && Lookup(byteValueGroups, PatternOffsetKey, group.patternOffset) == Some(group)
      requires forall o, b :: (o != group.patternOffset || b != byteValue) ==> Entries(o, b) == Stored(o, b)
      requires Entries(group.patternOffset, byteValue) == Stored(group.patternOffset, byteValue) + if signature != null then [signature] else []
      modifies this`Repr, group, group.signatureGroups
      ensures Valid() && fresh(Repr - old(Repr))
      ensures signature == null ==> status == Failure(InvalidValue)
      ensures signature != null ==> status == Success
    {
      status := HandToGroup(group, byteValue, signature);
      assert Valid() by {
        forall o, b
          ensures Stored(o, b) == Entries(o, b)
        {
          if o == group.patternOffset {
            assert Stored(o, b) == SignaturesOf(group.signatureGroups, b);
            assert old(Stored(o, b)) == old(SignaturesOf(group.signatureGroups, b));
          } else {
            assert old(Stored(o, b)) == match old(Lookup(byteValueGroups, PatternOffsetKey, o))
              case None => []
              case Some(g) => old(SignaturesOf(g.signatureGroups, b));
            match Lookup(byteValueGroups, PatternOffsetKey, o) {
              case None =>
              case Some(g) =>
                assert g != group && g.signatureGroups == old(g.signatureGroups);
            }
          }
        }
      }
    }

    /**
      * Hands `signature` to a byte value group of the table, which files it
      * under `byteValue` and leaves its other byte values as they were.
      */
    method HandToGroup(group: ByteValueGroup, byteValue: byte, signature: Signature?) returns (status: Status)
      requires Structured() && group in byteValueGroups
      modifies this`Repr, group, group.signatureGroups
      ensures Structured() && fresh(Repr - old(Repr))
      ensures signature == null ==> status == Failure(InvalidValue)
      ensures signature == null ==> SignaturesOf(group.signatureGroups, byteValue) == old(SignaturesOf(group.signatureGroups, byteValue))
      ensures signature != null ==> status == Success
      ensures signature != null ==> SignaturesOf(group.signatureGroups, byteValue) == old(SignaturesOf(group.signatureGroups, byteValue)) + [signature]
      ensures forall b :: b != byteValue ==> SignaturesOf(group.signatureGroups, b) == old(SignaturesOf(group.signatureGroups, b))
      ensures forall g, b :: g in byteValueGroups && g != group ==> SignaturesOf(g.signatureGroups, b) == old(SignaturesOf(g.signatureGroups, b))
    {
      ghost var groupsBefore := group.signatureGroups;
      status := group.InsertSignature(byteValue, signature);
      Repr := Repr + set s | s in group.signatureGroups;
      assert Structured() by {
        forall g | g in byteValueGroups && g != group
          ensures g.signatureGroups == old(g.signatureGroups) && g.Valid()
        {
        }
        forall g, s | g in byteValueGroups && g != group && s in g.signatureGroups
          ensures s !in group.signatureGroups
        {
          assert s in old(g.signatureGroups) && s !in groupsBefore;
        }
      }
      forall g, b | g in byteValueGroups && g != group
        ensures SignaturesOf(g.signatureGroups, b) == old(SignaturesOf(g.signatureGroups, b))
      {
        match Lookup(g.signatureGroups, ByteValueKey, b) {
          case None =>
          case Some(s) =>
            assert s in old(g.signatureGroups) && s !in groupsBefore;
        }
      }
    }

    /** The `insert_signature` path for an offset without a byte value group. */
    method InsertIntoNewGroup(offset: int, byteValue: byte, signature: Signature?) returns (status: Status)
      requires Valid() && Lookup(byteValueGroups, PatternOffsetKey, offset) == None
      modifies this`byteValueGroups, this`Repr, this`entries
      ensures InsertedSignature(offset, byteValue, signature, status)
      ensures forall g :: g in byteValueGroups ==> g in old(byteValueGroups) || fresh(g)
    {
      var group := AddByteValueGroup(offset);
      assert Valid() by {
        forall o, b
          ensures Entries(o, b) == Stored(o, b)
        {
          if o != offset {
            assert Stored(o, b) == old(Stored(o, b));
          } else {
            assert Stored(o, b) == [] == old(Stored(o, b));
          }
        }
      }
      status := InsertIntoGroup(group, byteValue, signature);
    }

    /**
      * The first half of `insert_signature` for a new offset: a new, empty
      * byte value group is added by a unique insert, which changes the lookup
      * of no other offset.
      */
    method AddByteValueGroup(offset: int) returns (group: ByteValueGroup)
      requires Structured() && Lookup(byteValueGroups, PatternOffsetKey, offset) == None
      modifies this`byteValueGroups
      ensures Structured() && fresh(group) && group.signatureGroups == []
      ensures Lookup(byteValueGroups, PatternOffsetKey, offset) == Some(group)
      ensures forall o :: o in KeysOf(byteValueGroups, PatternOffsetKey) <==> o in old(KeysOf(byteValueGroups, PatternOffsetKey)) || o == offset
      ensures forall o :: o != offset ==> Lookup(byteValueGroups, PatternOffsetKey, o) == old(Lookup(byteValueGroups, PatternOffsetKey, o))
      ensures forall g :: g in byteValueGroups ==> g in old(byteValueGroups) || g == group
    {
      group := new ByteValueGroup(offset);
      var inserted := InsertItem(byteValueGroups, PatternOffsetKey, group);
      byteValueGroups := inserted.value;
    }

    /**
      * One step of the pattern loop of `fill`: the byte at `index` is filed
      * under its offset `base + index` unless that offset is in the ignore
      * list.
      */
    method FileByte(signature: Signature, pattern: seq<byte>, base: int, index: nat, ignore: seq<int>)
      requires Valid() && index < |pattern|
      modifies this, byteValueGroups, Repr
      ensures Valid() && signatures == old(signatures) && fresh(Repr - old(Repr))
      ensures forall o, b :: Entries(o, b) ==
                old(Entries(o, b)) + if o == base + index && b == pattern[index] && Search(ignore, o).None? then [signature] else []
      ensures forall g :: g in byteValueGroups ==> g in old(byteValueGroups) || fresh(g)
    {
      var ignored := HasOffset(ignore, base + index);
      if !ignored {
        var status := InsertSignature(base + index, pattern[index], signature);
      }
    }

    /**
      * The pattern loop of `fill` for one signature: every pattern byte whose
      * offset, counted from `base`, is not in the ignore list is filed under
      * that offset and byte value.
      */
    method FileSignature(signature: Signature, pattern: seq<byte>, base: int, ignore: seq<int>)
      requires Valid()
      modifies this, byteValueGroups, Repr
      ensures Valid() && signatures == old(signatures) && fresh(Repr - old(Repr))
      ensures forall o, b :: Entries(o, b) ==
                old(Entries(o, b)) + if FiledBy(pattern, base, |pattern|, ignore, o, b) then [signature] else []
      ensures forall g :: g in byteValueGroups ==> g in old(byteValueGroups) || fresh(g)
    {
      var i := 0;
      while i < |pattern|
        invariant 0 <= i <= |pattern|
        invariant Valid() && signatures == old(signatures) && fresh(Repr - old(Repr))
        invariant forall o, b :: Entries(o, b) ==
                    old(Entries(o, b)) + if FiledBy(pattern, base, i, ignore, o, b) then [signature] else []
        invariant forall g :: g in byteValueGroups ==> g in old(byteValueGroups) || fresh(g)
      {
        assert forall o: object :: o == this || o in byteValueGroups || o in Repr ==> o == this || o in old(byteValueGroups) || o in old(Repr) || fresh(o);
        FileByte(signature, pattern, base, i, ignore);
        forall o, b
          ensures Entries(o, b) ==
                    old(Entries(o, b)) + if FiledBy(pattern, base, i + 1, ignore, o, b) then [signature] else []
        {
          if o == base + i {
            assert !FiledBy(pattern, base, i, ignore, o, b);
          } else {
            assert FiledBy(pattern, base, i + 1, ignore, o, b) == FiledBy(pattern, base, i, ignore, o, b);
          }
        }
        i := i + 1;
      }
    }

    /**
      * The body of the signature loop of `fill`, given the signature's flags,
      * pattern offset and pattern: a signature the mode takes is filed from
      * its base offset and appended to the signatures; any other one leaves
      * the table as it is.
      */
    method FillSignature(signature: Signature, flags: bv32, patternOffset: int, pattern: seq<byte>,
                         ignore: seq<int>, mode: OffsetMode, rangeSize: int)
      requires Valid()
      modifies this, byteValueGroups, Repr
      ensures Valid() && fresh(Repr - old(Repr))
      ensures signatures == old(signatures) + if Included(flags, mode) then [signature] else []
      ensures forall o, b :: Entries(o, b) ==
                old(Entries(o, b)) + Contribution(signature, flags, patternOffset, pattern, mode, rangeSize, ignore, o, b)
      ensures forall g :: g in byteValueGroups ==> g in old(byteValueGroups) || fresh(g)
    {
      if Included(flags, mode) {
        var base := BaseOffset(patternOffset, mode, rangeSize);
        FileSignature(signature, pattern, base, ignore);
        signatures := signatures + [signature];
      }
    }

    /**
      * Fills the table (`fill`) from `list`: in a bound mode only the
      * signatures anchored that way are taken, in the unbound mode all of
      * them; each one taken has its pattern bytes filed from its base offset,
      * skipping the ignored offsets, and is appended to the signatures. An
      * unknown mode, and a NULL signature in the list, are errors.
      */
    method Fill(list: seq<Signature?>, ignore: seq<int>, mode: OffsetMode, rangeSize: int) returns (status: Status)
      requires Valid()
      modifies this, byteValueGroups, Repr
      ensures Valid()
      ensures status.Success? <==> mode != UnknownMode && null !in list
      ensures mode == UnknownMode ==> status == Failure(UnsupportedValue) && signatures == old(signatures)
      ensures mode != UnknownMode && null in list ==> status == Failure(ValueMissing)
      ensures status.Success? ==> signatures == old(signatures) + IncludedSignatures(old(Views(list)), mode)
      ensures status.Success? ==> forall o, b :: Entries(o, b) == old(Entries(o, b)) + Filed(old(Views(list)), mode, rangeSize, ignore, o, b)
    {
      if mode == UnknownMode {
        return Failure(UnsupportedValue);
      }
      status := FillList(list, Views(list), ignore, mode, rangeSize);
    }

    /** The signature loop of `fill`, over the signatures of `list` as `views` shows them. */
    method FillList(list: seq<Signature?>, ghost views: seq<Option<SignatureView>>, ignore: seq<int>, mode: OffsetMode, rangeSize: int) returns (status: Status)
      requires Valid() && views == Views(list)
      modifies this, byteValueGroups, Repr
      ensures Valid()
      ensures status.Success? <==> null !in list
      ensures !status.Success? ==> status == Failure(ValueMissing)
      ensures status.Success? ==> signatures == old(signatures) + IncludedSignatures(views, mode)
      ensures status.Success? ==> forall o, b :: Entries(o, b) == old(Entries(o, b)) + Filed(views, mode, rangeSize, ignore, o, b)
    {
      ghost var start, startSignatures := entries, signatures;
      var j := 0;
      while j < |list|
        invariant 0 <= j <= |list| && null !in list[..j]
        invariant Valid()
        invariant signatures == startSignatures + IncludedSignatures(views[..j], mode)
        invariant EntriesFilled(entries, start, views[..j], mode, rangeSize, ignore)
        invariant forall o: object :: o == this || o in byteValueGroups || o in Repr ==> o == this || o in old(byteValueGroups) || o in old(Repr) || fresh(o)
        invariant views == Views(list)
      {
        if list[j] == null {
          assert list[j] in list;
          return Failure(ValueMissing);
        }
        FillNext(list, views, j, start, startSignatures, ignore, mode, rangeSize);
        j := j + 1;
      }
      assert views[..j] == views;
      assert EntriesFilled(entries, start, views, mode, rangeSize, ignore);
      status := Success;
    }

    /**
      * One turn of the signature loop of `fill`, for the signature at `j`:
      * reads its flags, pattern offset and pattern, and files it, so that the
      * table holds what it held at the start of the loop plus the first
      * `j + 1` signatures.
      */
    method FillNext(list: seq<Signature?>, ghost views: seq<Option<SignatureView>>, j: nat,
                    ghost start: map<(int, int), seq<Signature>>, ghost startSignatures: seq<Signature>,
                    ignore: seq<int>, mode: OffsetMode, rangeSize: int)
      requires Valid() && j < |list| && list[j] != null && views == Views(list)
      requires signatures == startSignatures + IncludedSignatures(views[..j], mode)
      requires EntriesFilled(entries, start, views[..j], mode, rangeSize, ignore)
      modifies this, byteValueGroups, Repr
      ensures Valid() && fresh(Repr - old(Repr))
      ensures signatures == startSignatures + IncludedSignatures(views[..j + 1], mode)
      ensures EntriesFilled(entries, start, views[..j + 1], mode, rangeSize, ignore)
      ensures forall g :: g in byteValueGroups ==> g in old(byteValueGroups) || fresh(g)
      ensures views == Views(list)
    {
      var signature := list[j];
      var flags, patternOffset, pattern := signature.flags, signature.patternOffset, signature.pattern;
      FillSignature(signature, flags, patternOffset, pattern, ignore, mode, rangeSize);
      FiledNext(views, j, mode, rangeSize, ignore);
      forall o, b
        ensures EntryOf(entries, o, b) == EntryOf(start, o, b) + Filed(views[..j + 1], mode, rangeSize, ignore, o, b)
      {
        AppendAssociative(EntryOf(start, o, b), Filed(views[..j], mode, rangeSize, ignore, o, b),
                          Contribution(signature, flags, patternOffset, pattern, mode, rangeSize, ignore, o, b));
      }
    }
  }
}
