/**
  * A scan tree node: the pattern offset it tests, one scan object slot per
  * byte value, a default scan object, and the walk that matches a buffer
  * against the tree below a node (libsigscan_scan_tree_node.c).
  */
module ScanTreeNodes {
  import opened Common
  import opened Signatures
  import opened ScanObjects

  /** The number of byte-value slots of a node. */
  const BYTE_VALUE_SLOTS: nat := 256

  /**
    * The unsigned comparison `(size64_t) offset >= limit` for a signed
    * offset: a negative offset converts to a value above every size.
    */
  predicate AtOrBeyond(offset: int, limit: int)
  {
    offset < 0 || offset >= limit
  }

  /** The unsigned comparison `(size64_t) offset > limit` for a signed offset. */
  predicate Beyond(offset: int, limit: int)
  {
    offset < 0 || offset > limit
  }

  class ScanTreeNode {
    /** The offset of the byte this node tests. */
    const patternOffset: int
    /** The height the node was built at: every sub-tree node is lower. */
    ghost const level: nat
    /** The scan object per byte value (an embedded 256-entry table). */
    var scanObjectsTable: seq<Option<ScanObject>>
    /** The scan object taken for a byte value without one of its own. */
    var defaultScanObject: Option<ScanObject>

    /** The table has its fixed 256 slots. */
    predicate Sized()
      reads this
    {
      |scanObjectsTable| == BYTE_VALUE_SLOTS
    }

    /**
      * Every object the node holds is well formed: a signature leaf, or a
      * node from `nodes` built below this one.
      */
    ghost predicate Valid(nodes: set<ScanTreeNode>)
      reads this
    {
      && Sized()
      && (forall b | 0 <= b < BYTE_VALUE_SLOTS ::
            scanObjectsTable[b].Some? ==> WellFormed(scanObjectsTable[b].value, level, nodes))
      && (defaultScanObject.Some? ==> WellFormed(defaultScanObject.value, level, nodes))
    }

    /** A new node: the given offset, every slot empty and no default (`initialize`). */
    constructor (patternOffset: int, ghost level: nat)
      ensures this.patternOffset == patternOffset && this.level == level
      ensures scanObjectsTable == seq(BYTE_VALUE_SLOTS, _ => None)
      ensures defaultScanObject == None
    {
      this.patternOffset := patternOffset;
      this.level := level;
      scanObjectsTable := seq(BYTE_VALUE_SLOTS, _ => None);
      defaultScanObject := None;
    }

    /**
      * Puts `scanObject` (None for NULL) in the slot of `byteValue`; an
      * occupied slot or a NULL object is refused and nothing changes.
      */
    method SetByteValue(byteValue: byte, scanObject: Option<ScanObject>) returns (status: Status)
      requires Sized()
      modifies this
      ensures Sized()
      ensures status.Success? <==> old(scanObjectsTable[byteValue]).None? && scanObject.Some?
      ensures old(scanObjectsTable[byteValue]).Some? ==> status == Failure(ValueAlreadySet)
      ensures old(scanObjectsTable[byteValue]).None? && scanObject.None? ==> status == Failure(InvalidValue)
      ensures scanObjectsTable ==
              if status.Success? then old(scanObjectsTable)[byteValue := scanObject]
              else old(scanObjectsTable)
      ensures defaultScanObject == old(defaultScanObject)
    {
      if scanObjectsTable[byteValue].Some? {
        return Failure(ValueAlreadySet);
      }
      if scanObject.None? {
        return Failure(InvalidValue);
      }
      scanObjectsTable := scanObjectsTable[byteValue := scanObject];
      status := Success;
    }

    /**
      * Sets the default scan object; a default already set or a NULL
      * object is refused and nothing changes.
      */
    method SetDefaultValue(scanObject: Option<ScanObject>) returns (status: Status)
      modifies this
      ensures status.Success? <==> old(defaultScanObject).None? && scanObject.Some?
      ensures old(defaultScanObject).Some? ==> status == Failure(ValueAlreadySet)
      ensures old(defaultScanObject).None? && scanObject.None? ==> status == Failure(InvalidValue)
      ensures defaultScanObject == if status.Success? then scanObject else old(defaultScanObject)
      ensures scanObjectsTable == old(scanObjectsTable)
    {
      if defaultScanObject.Some? {
        return Failure(ValueAlreadySet);
      }
      if scanObject.None? {
        return Failure(InvalidValue);
      }
      defaultScanObject := scanObject;
      status := Success;
    }

    /**
      * The scan object for `byteValue`: its own slot when set, else the
      * default; None (the C function's 0) when neither is set.
      */
    function GetScanObject(byteValue: byte): (r: Option<ScanObject>)
      requires Sized()
      reads this
      ensures r.Some? <==> scanObjectsTable[byteValue].Some? || defaultScanObject.Some?
      ensures scanObjectsTable[byteValue].Some? ==> r == scanObjectsTable[byteValue]
      ensures scanObjectsTable[byteValue].None? ==> r == defaultScanObject
    {
      if scanObjectsTable[byteValue].Some? then scanObjectsTable[byteValue] else defaultScanObject
    }
  }

  /**
    * A scan object is well formed below `level`: either a signature leaf, or
    * a node from `nodes` at a lower level.
    */
  ghost predicate WellFormed(o: ScanObject, level: nat, nodes: set<ScanTreeNode>)
  {
    || (o.objectType == SCAN_OBJECT_TYPE_SIGNATURE && o.value is Signature)
    || (o.objectType == SCAN_OBJECT_TYPE_SCAN_TREE_NODE && o.value is ScanTreeNode
        && o.value as ScanTreeNode in nodes && (o.value as ScanTreeNode).level < level)
  }

  /** `nodes` is closed: every node in it is valid over `nodes`. */
  ghost predicate Tree(nodes: set<ScanTreeNode>)
    reads nodes
  {
    forall n | n in nodes :: n.Valid(nodes)
  }

  /**
    * The offset of the data a signature is anchored at: its own offset when
    * bound to the start, counted back from `dataSize` when bound to the end,
    * and 0 (the walk's initial value) when unbound.
    */
  function AnchorOffset(mode: OffsetMode, signaturePatternOffset: int, dataSize: int): int
  {
    match mode
    case BoundToStart => signaturePatternOffset
    case BoundToEnd => dataSize - signaturePatternOffset
    case _ => 0
  }

  /**
    * The outcome at a signature leaf for `pattern` anchored at
    * `anchorOffset`: Ok(true) for a match, Ok(false) for no match, an error
    * when the pattern lies inside the data but past the buffer.
    */
  function LeafMatch(
    pattern: seq<byte>, anchorOffset: int, dataOffset: int, dataSize: int,
    buffer: seq<byte>, bufferOffset: nat): (r: Result<bool>)
    ensures r == Ok(true) ==>
            var scanOffset := bufferOffset + (anchorOffset - dataOffset);
            && 0 <= scanOffset && scanOffset + |pattern| <= dataSize - dataOffset
            && scanOffset + |pattern| <= |buffer|
            && buffer[scanOffset..scanOffset + |pattern|] == pattern
            && scanOffset + dataOffset == anchorOffset
    ensures r.Err? ==> r.error == ValueOutOfBounds
  {
    var scanOffset := bufferOffset + (anchorOffset - dataOffset);
    var remaining := dataSize - dataOffset;
    if |pattern| > remaining || Beyond(scanOffset, remaining - |pattern|) then
      Ok(false)
    else if |pattern| > |buffer| || Beyond(scanOffset, |buffer| - |pattern|) then
      Err(ValueOutOfBounds)
    else if buffer[scanOffset..scanOffset + |pattern|] != pattern then
      Ok(false)
    else
      Ok(scanOffset + dataOffset == anchorOffset)
  }

  /**
    * The object the walk takes at `node`: the default when the tested offset
    * lies past the remaining data, the lookup of the buffer byte there when
    * it lies inside the buffer, and an error otherwise.
    */
  function Selected(node: ScanTreeNode, remaining: int, buffer: seq<byte>, bufferOffset: nat)
    : (r: Result<Option<ScanObject>>)
    requires node.Sized()
    reads node
    ensures AtOrBeyond(bufferOffset + node.patternOffset, remaining) ==> r == Ok(node.defaultScanObject)
    ensures (!AtOrBeyond(bufferOffset + node.patternOffset, remaining)
             && bufferOffset + node.patternOffset >= |buffer|) ==> r == Err(ValueOutOfBounds)
  {
    var scanOffset := bufferOffset + node.patternOffset;
    if AtOrBeyond(scanOffset, remaining) then Ok(node.defaultScanObject)
    else if scanOffset >= |buffer| then Err(ValueOutOfBounds)
    else Ok(node.GetScanObject(buffer[scanOffset]))
  }

  /**
    * The walk from `node`: Ok(Some(o)) with the matching signature object,
    * Ok(None) when nothing matches, or an error.
    */
  ghost function Walk(
    nodes: set<ScanTreeNode>, node: ScanTreeNode,
    mode: OffsetMode, dataOffset: int, dataSize: int, buffer: seq<byte>, bufferOffset: nat)
    : Result<Option<ScanObject>>
    requires Tree(nodes) && node in nodes
    reads *
    decreases node.level
  {
    if bufferOffset >= |buffer| then Err(ValueOutOfBounds)
    else
      match Selected(node, dataSize - dataOffset, buffer, bufferOffset)
      case Err(e) => Err(e)
      case Ok(None) => Ok(None)
      case Ok(Some(o)) =>
        assert WellFormed(o, node.level, nodes);
        if o.objectType == SCAN_OBJECT_TYPE_SCAN_TREE_NODE then
          Walk(nodes, o.value as ScanTreeNode, mode, dataOffset, dataSize, buffer, bufferOffset)
        else
          var signature := o.value as Signature;
          match LeafMatch(signature.pattern, AnchorOffset(mode, signature.patternOffset, dataSize),
                          dataOffset, dataSize, buffer, bufferOffset)
          case Err(e) => Err(e)
          case Ok(matched) => if matched then Ok(Some(o)) else Ok(None)
  }

  /** The whole scan: the argument checks, then the walk. */
  ghost function Scan(
    nodes: set<ScanTreeNode>, node: ScanTreeNode,
    mode: OffsetMode, dataOffset: int, dataSize: nat, buffer: seq<byte>, bufferOffset: nat)
    : Result<Option<ScanObject>>
    requires Tree(nodes) && node in nodes
    reads *
  {
    if mode == UnknownMode then Err(UnsupportedValue)
    else if dataOffset < 0 || dataOffset >= dataSize then Err(ValueOutOfBounds)
    else if |buffer| > SSIZE_MAX then Err(ValueExceedsMaximum)
    else Walk(nodes, node, mode, dataOffset, dataSize, buffer, bufferOffset)
  }

  /**
    * A match the walk reports is a signature leaf whose pattern lies inside
    * the remaining data and equals the buffer bytes at the anchored offset;
    * since that offset is `bufferOffset + anchor - dataOffset`, the final
    * comparison holds only for a buffer offset of 0.
    */
  lemma {:induction false} WalkSound(
    nodes: set<ScanTreeNode>, node: ScanTreeNode,
    mode: OffsetMode, dataOffset: int, dataSize: int, buffer: seq<byte>, bufferOffset: nat)
    requires Tree(nodes) && node in nodes
    requires Walk(nodes, node, mode, dataOffset, dataSize, buffer, bufferOffset).Ok?
    requires Walk(nodes, node, mode, dataOffset, dataSize, buffer, bufferOffset).value.Some?
    ensures var o := Walk(nodes, node, mode, dataOffset, dataSize, buffer, bufferOffset).value.value;
            && o.objectType == SCAN_OBJECT_TYPE_SIGNATURE && o.value is Signature
            && var signature := o.value as Signature;
            && var scanOffset := bufferOffset + (AnchorOffset(mode, signature.patternOffset, dataSize) - dataOffset);
            && 0 <= scanOffset && scanOffset + |signature.pattern| <= dataSize - dataOffset
            && scanOffset + |signature.pattern| <= |buffer|
            && buffer[scanOffset..scanOffset + |signature.pattern|] == signature.pattern
            && bufferOffset == 0
    decreases node.level
  {
    var o := Selected(node, dataSize - dataOffset, buffer, bufferOffset).value.value;
    assert WellFormed(o, node.level, nodes);
    if o.objectType == SCAN_OBJECT_TYPE_SCAN_TREE_NODE {
      WalkSound(nodes, o.value as ScanTreeNode, mode, dataOffset, dataSize, buffer, bufferOffset);
    }
  }

  /**
    * Scans `buffer` from `node` (`scan_buffer`): the checks on the mode, the
    * data offset and the buffer size, then the walk down the tree, one node
    * per iteration.
    */
  method ScanBuffer(
    ghost nodes: set<ScanTreeNode>, node: ScanTreeNode,
    mode: OffsetMode, dataOffset: int, dataSize: nat, buffer: seq<byte>, bufferOffset: nat)
    returns (r: Result<Option<ScanObject>>)
    requires Tree(nodes) && node in nodes
    ensures r == Scan(nodes, node, mode, dataOffset, dataSize, buffer, bufferOffset)
    ensures mode == UnknownMode ==> r == Err(UnsupportedValue)
    ensures mode != UnknownMode && (dataOffset < 0 || dataOffset >= dataSize) ==> r == Err(ValueOutOfBounds)
    ensures r.Ok? && r.value.Some? ==> r.value.value.objectType == SCAN_OBJECT_TYPE_SIGNATURE && bufferOffset == 0
  {
    if mode == UnknownMode {
      return Err(UnsupportedValue);
    }
    if dataOffset < 0 || dataOffset >= dataSize {
      return Err(ValueOutOfBounds);
    }
    if |buffer| > SSIZE_MAX {
      return Err(ValueExceedsMaximum);
    }
    var remaining := dataSize - dataOffset;
    var current := node;
    while true
      invariant current in nodes
      invariant Walk(nodes, current, mode, dataOffset, dataSize, buffer, bufferOffset)
             == Walk(nodes, node, mode, dataOffset, dataSize, buffer, bufferOffset)
      decreases current.level
    {
      if bufferOffset >= |buffer| {
        return Err(ValueOutOfBounds);
      }
      var selected := Selected(current, remaining, buffer, bufferOffset);
      if selected.Err? {
        return Err(selected.error);
      }
      if selected.value.None? {
        return Ok(None);
      }
      var o := selected.value.value;
      assert WellFormed(o, current.level, nodes);
      if o.objectType == SCAN_OBJECT_TYPE_SCAN_TREE_NODE {
        current := o.value as ScanTreeNode;
      } else {
        var signature := o.value as Signature;
        var matched := LeafMatch(signature.pattern, AnchorOffset(mode, signature.patternOffset, dataSize),
                                 dataOffset, dataSize, buffer, bufferOffset);
        if matched.Err? {
          return Err(matched.error);
        }
        if matched.value {
          WalkSound(nodes, node, mode, dataOffset, dataSize, buffer, bufferOffset);
          return Ok(Some(o));
        }
        return Ok(None);
      }
    }
  }
}
