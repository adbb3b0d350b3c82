/**
  * The pattern offsets that were given one particular weight
  * (libsigscan_offset_group.c), as a value: appending an offset yields the
  * updated group, which its owner stores in place of the old one.
  */
module OffsetGroups {
  import opened Common
  import opened SortedLists

  /** A weight and the offsets filed under it, in the order they were appended. */
  datatype OffsetGroup = OffsetGroup(weight: int, offsets: seq<int>)

  /** A new group for `weight` without offsets (`initialize`). */
  function Initialize(weight: int): (g: OffsetGroup)
    ensures GetWeight(g) == weight && NumberOfOffsets(g) == 0
    ensures forall index :: GetOffsetByIndex(g, index) == Err(ValueOutOfBounds)
  {
    OffsetGroup(weight, [])
  }

  /** The weight of the group (`get_weight`). */
  function GetWeight(g: OffsetGroup): int
  {
    g.weight
  }

  /** The number of offsets (`get_number_of_offsets`). */
  function NumberOfOffsets(g: OffsetGroup): nat
  {
    |g.offsets|
  }

  /**
    * The offset at `index` (`get_offset_by_index`); an index outside the
    * array, -1 included, is an error.
    */
  function GetOffsetByIndex(g: OffsetGroup, index: int): (r: Result<int>)
    ensures r.Ok? <==> 0 <= index < NumberOfOffsets(g)
    ensures r.Ok? ==> r.value == g.offsets[index]
    ensures r.Err? ==> r.error == ValueOutOfBounds
  {
    if 0 <= index < |g.offsets| then Ok(g.offsets[index]) else Err(ValueOutOfBounds)
  }

  /**
    * Appends an offset (`append_offset`): the weight stays, the count grows
    * by one, the new offset is at the last index and every earlier index
    * holds what it held.
    */
  function AppendOffset(g: OffsetGroup, offset: int): (r: OffsetGroup)
    ensures GetWeight(r) == GetWeight(g)
    ensures NumberOfOffsets(r) == NumberOfOffsets(g) + 1
    ensures GetOffsetByIndex(r, NumberOfOffsets(r) - 1) == Ok(offset)
    ensures forall index :: index != NumberOfOffsets(g) ==> GetOffsetByIndex(r, index) == GetOffsetByIndex(g, index)
  {
    OffsetGroup(g.weight, g.offsets + [offset])
  }

  /** Three-way comparison of two offset groups by weight (`compare`). */
  function Compare(first: OffsetGroup, second: OffsetGroup): (r: Ordering)
    ensures r == Less <==> first.weight < second.weight
    ensures r == Equal <==> first.weight == second.weight
    ensures r == Greater <==> first.weight > second.weight
  {
    ThreeWay(first.weight, second.weight)
  }

  /** The key the groups are ordered by: the weight. */
  function WeightKey(group: OffsetGroup): int
  {
    group.weight
  }
}
