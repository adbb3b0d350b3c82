/**
  * The "ignore" list of pattern offsets that the scan tree builder has
  * already used (libsigscan_offsets_list.c): an ascending list of offsets
  * with a lookup that stops early and a unique insert.
  */
module OffsetsList {
  import opened Common
  import opened SortedLists

  /**
    * Clones an offset value (`offset_clone`): fails when the destination is
    * already set; a NULL source gives a NULL destination; otherwise the
    * destination holds an equal value.
    */
  function OffsetClone(destination: Option<int>, source: Option<int>): (r: Result<Option<int>>)
    ensures r.Err? <==> destination.Some?
    ensures r.Ok? ==> r.value == source
  {
    if destination.Some? then Err(ValueAlreadySet)
    else if source.None? then Ok(None)
    else Ok(Some(source.value))
  }

  /** Three-way comparison of two offsets (`offset_list_compare`). */
  function OffsetListCompare(first: int, second: int): (r: Ordering)
    ensures r == Less <==> first < second
    ensures r == Equal <==> first == second
    ensures r == Greater <==> first > second
  {
    if first < second then Less
    else if first > second then Greater
    else Equal
  }

  /**
    * Determines whether the list holds `offset` (`has_offset`), walking
    * from the front and stopping at the first larger offset. On an
    * ascending list that is exactly membership.
    */
  method HasOffset(list: seq<int>, offset: int) returns (found: bool)
    ensures found <==> Search(list, offset).Some?
    ensures found ==> offset in list
    ensures StrictlyAscending(list) ==> (found <==> offset in list)
  {
    var index := FindKey(list, offset);
    found := index.Some?;
    if StrictlyAscending(list) {
      SearchFindsPresent(list, offset);
    }
  }

  /**
    * Inserts an offset (`insert_offset`) with a unique, comparator-ordered
    * insert; an offset already present is not inserted, which the caller
    * sees as an error.
    */
  function InsertOffset(list: seq<int>, offset: int): (r: Result<seq<int>>)
    ensures StrictlyAscending(list) ==> (r.Ok? <==> offset !in list)
    ensures StrictlyAscending(list) && r.Ok? ==>
              StrictlyAscending(r.value) && multiset(r.value) == multiset(list) + multiset{offset}
  {
    InsertKeepsAscending(list, offset);
    match InsertPosition(list, offset)
    case None => Err(OperationFailed)
    case Some(k) => Ok(InsertAt(list, k, offset))
  }
}
