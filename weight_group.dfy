/**
  * The accumulated weight of one pattern offset (libsigscan_weight_group.c),
  * as a value: adding or setting a weight yields the updated group, which
  * its owner stores in place of the old one.
  */
module WeightGroups {
  import opened SortedLists

  /** A pattern offset and the weight accumulated for it. */
  datatype WeightGroup = WeightGroup(patternOffset: int, weight: int)

  /** A new group for `patternOffset` with weight 0 (`initialize`). */
  function Initialize(patternOffset: int): (g: WeightGroup)
    ensures g.patternOffset == patternOffset && GetWeight(g) == 0
  {
    WeightGroup(patternOffset, 0)
  }

  /** The current weight (`get_weight`). */
  function GetWeight(g: WeightGroup): int
  {
    g.weight
  }

  /** Adds `w` to the weight (`add_weight`); the pattern offset stays. */
  function AddWeight(g: WeightGroup, w: int): (r: WeightGroup)
    ensures r.patternOffset == g.patternOffset && GetWeight(r) == GetWeight(g) + w
  {
    WeightGroup(g.patternOffset, g.weight + w)
  }

  /** Replaces the weight by `w` (`set_weight`): `GetWeight` then returns `w`; the pattern offset stays. */
  function SetWeight(g: WeightGroup, w: int): (r: WeightGroup)
    ensures r.patternOffset == g.patternOffset && GetWeight(r) == w
  {
    WeightGroup(g.patternOffset, w)
  }

  /** Three-way comparison of two weight groups by pattern offset (`compare`). */
  function Compare(first: WeightGroup, second: WeightGroup): (r: Ordering)
    ensures r == Less <==> first.patternOffset < second.patternOffset
    ensures r == Equal <==> first.patternOffset == second.patternOffset
    ensures r == Greater <==> first.patternOffset > second.patternOffset
  {
    ThreeWay(first.patternOffset, second.patternOffset)
  }

  /** The key the groups are ordered by: the pattern offset. */
  function OffsetKey(group: WeightGroup): int
  {
    group.patternOffset
  }
}
