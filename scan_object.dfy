/**
  * A scan object: the tagged value a scan tree node keeps in its byte-value
  * slots and its default slot. The tag says whether the value is a sub-tree
  * node or a signature leaf (libsigscan_scan_object.c).
  */
module ScanObjects {
  import opened Common

  /** LIBSIGSCAN_SCAN_OBJECT_TYPE_SCAN_TREE_NODE */
  const SCAN_OBJECT_TYPE_SCAN_TREE_NODE: byte := 1
  /** LIBSIGSCAN_SCAN_OBJECT_TYPE_SIGNATURE */
  const SCAN_OBJECT_TYPE_SIGNATURE: byte := 2

  /** The two types `initialize` accepts. */
  predicate SupportedType(objectType: byte)
  {
    objectType == SCAN_OBJECT_TYPE_SCAN_TREE_NODE || objectType == SCAN_OBJECT_TYPE_SIGNATURE
  }

  /** The type tag and the (non-NULL) value it tags. */
  datatype ScanObject = ScanObject(objectType: byte, value: object)

  /**
    * Creates a scan object. `destination` is what the caller's pointer
    * already holds; `value` is None for a NULL pointer.
    */
  function Initialize(destination: Option<ScanObject>, objectType: byte, value: Option<object>)
    : (r: Result<ScanObject>)
    ensures r.Ok? <==> destination.None? && SupportedType(objectType) && value.Some?
    ensures destination.Some? ==> r == Err(ValueAlreadySet)
    ensures destination.None? && !SupportedType(objectType) ==> r == Err(UnsupportedValue)
    ensures destination.None? && SupportedType(objectType) && value.None? ==> r == Err(InvalidValue)
    ensures r.Ok? ==> SupportedType(r.value.objectType)
  {
    if destination.Some? then Err(ValueAlreadySet)
    else if !SupportedType(objectType) then Err(UnsupportedValue)
    else if value.None? then Err(InvalidValue)
    else Ok(ScanObject(objectType, value.value))
  }

  /** The stored type (`get_type`). */
  function GetType(scanObject: ScanObject): byte
  {
    scanObject.objectType
  }

  /** The stored value (`get_value`). */
  function GetValue(scanObject: ScanObject): object
  {
    scanObject.value
  }

  /** The getters give back exactly what a successful `initialize` stored. */
  lemma InitializeThenGet(objectType: byte, value: object)
    requires SupportedType(objectType)
    ensures Initialize(None, objectType, Some(value)).Ok?
    ensures GetType(Initialize(None, objectType, Some(value)).value) == objectType
    ensures GetValue(Initialize(None, objectType, Some(value)).value) == value
  {
  }

  /**
    * The value `free` hands on to the tree node release: the value of a
    * tree node object, and nothing for a signature, whose storage belongs to
    * the scanner's signature list.
    */
  function Released(scanObject: Option<ScanObject>): (released: Option<object>)
    ensures released.Some? <==>
            scanObject.Some? && scanObject.value.objectType == SCAN_OBJECT_TYPE_SCAN_TREE_NODE
    ensures released.Some? ==> released.value == scanObject.value.value
    ensures scanObject.Some? && scanObject.value.objectType == SCAN_OBJECT_TYPE_SIGNATURE ==>
            released.None?
  {
    match scanObject
    case Some(o) =>
      if o.objectType == SCAN_OBJECT_TYPE_SCAN_TREE_NODE then Some(o.value) else None
    case None => None
  }
}
