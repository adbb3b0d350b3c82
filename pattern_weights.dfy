/**
  * The weights the scan tree builder gives pattern offsets
  * (libsigscan_pattern_weights.c): offset groups keyed by weight, kept in
  * ascending weight order, and weight groups keyed by pattern offset, kept
  * in ascending offset order.
  */
module Weighting {
  import opened Common
  import opened SortedLists
  import opened OffsetGroups
  import opened WeightGroups

  /** The offsets filed under `weight`; empty when there is no such group. */
  function OffsetsOf(groups: seq<OffsetGroup>, weight: int): seq<int>
  {
    match Lookup(groups, WeightKey, weight)
    case None => []
    case Some(g) => g.offsets
  }

  /** The accumulated weight of `offset`; None when it has no weight group. */
  function WeightOf(groups: seq<WeightGroup>, offset: int): Option<int>
  {
    match Lookup(groups, OffsetKey, offset)
    case None => None
    case Some(g) => Some(g.weight)
  }

  /** The weight a weight map records for `offset`; None when it records none. */
  function Recorded(weights: map<int, int>, offset: int): Option<int>
  {
    if offset in weights then Some(weights[offset]) else None
  }

  /** The offsets a filing map records under `weight`; empty when it records none. */
  function FiledAt(filed: map<int, seq<int>>, weight: int): seq<int>
  {
    if weight in filed then filed[weight] else []
  }

  /** The weight a weight map records for `offset`, 0 when it records none. */
  function RecordedOrZero(weights: map<int, int>, offset: int): int
  {
    if offset in weights then weights[offset] else 0
  }

  class PatternWeights {
    /** The offsets per weight (`offset_groups_list`). */
    var offsetGroups: seq<OffsetGroup>
    /** The weight per offset (`weight_groups_list`). */
    var weightGroups: seq<WeightGroup>
    /** The weight of every offset that has a weight group. */
    ghost var weights: map<int, int>
    /** The offsets filed under every weight that has an offset group. */
    ghost var filed: map<int, seq<int>>

    /**
      * Both lists are ascending by their keys, so there is at most one
      * group per weight and one per offset.
      */
    ghost predicate Ordered()
      reads this
    {
      StrictlyAscending(KeysOf(offsetGroups, WeightKey)) && StrictlyAscending(KeysOf(weightGroups, OffsetKey))
    }

    /**
      * The lists are ordered, the weight groups hold exactly the weights
      * `weights` records, and the offset groups exist for exactly the
      * weights `filed` records and hold the offsets it records.
      */
    ghost predicate Valid()
      reads this
    {
      && Ordered()
      && (forall o {:trigger WeightOf(weightGroups, o)} :: WeightOf(weightGroups, o) == Recorded(weights, o))
      && (forall w {:trigger OffsetsOf(offsetGroups, w)} :: OffsetsOf(offsetGroups, w) == FiledAt(filed, w))
      && (forall w :: w in KeysOf(offsetGroups, WeightKey) <==> w in filed)
    }

    /** A new structure has both lists empty and no largest weight. */
    constructor ()
      ensures offsetGroups == [] && weightGroups == [] && weights == map[] && filed == map[]
      ensures Valid() && LargestWeight() == None
    {
      offsetGroups := [];
      weightGroups := [];
      weights := map[];
      filed := map[];
    }

    /**
      * The weight of the last offset group (`get_largest_weight`), which on
      * an ascending list is the largest weight; None ("not available") when
      * there is no offset group.
      */
    function LargestWeight(): (r: Option<int>)
      reads this
      ensures r.None? <==> offsetGroups == []
      ensures r.Some? ==> r.value in KeysOf(offsetGroups, WeightKey)
      ensures r.Some? && StrictlyAscending(KeysOf(offsetGroups, WeightKey)) ==>
                forall w :: w in KeysOf(offsetGroups, WeightKey) ==> w <= r.value
    {
      if offsetGroups == [] then None
      else
        var keys := KeysOf(offsetGroups, WeightKey);
        assert keys[|keys| - 1] == offsetGroups[|offsetGroups| - 1].weight;
        Some(offsetGroups[|offsetGroups| - 1].weight)
    }

    /** Retrieves the offset group of `weight` (`get_offset_group`). */
    method GetOffsetGroup(weight: int) returns (r: Option<OffsetGroup>)
      ensures r == Lookup(offsetGroups, WeightKey, weight)
    {
      r := FindItem(offsetGroups, WeightKey, weight);
    }

    /** Retrieves the weight group of `offset` (`get_weight_group`). */
    method GetWeightGroup(offset: int) returns (r: Option<WeightGroup>)
      ensures r == Lookup(weightGroups, OffsetKey, offset)
    {
      r := FindItem(weightGroups, OffsetKey, offset);
    }

    /**
      * Files `offset` under `weight` (`insert_offset`): a group is created,
      * by a unique insert, only for a new weight; the offset is appended to
      * that group and every other weight keeps its offsets.
      */
    method InsertOffset(offset: int, weight: int)
      requires Valid()
      modifies this
      ensures Valid() && weightGroups == old(weightGroups) && weights == old(weights)
      ensures filed == old(filed)[weight := FiledAt(old(filed), weight) + [offset]]
      ensures forall w :: w in KeysOf(offsetGroups, WeightKey) <==> w in old(KeysOf(offsetGroups, WeightKey)) || w == weight
      ensures OffsetsOf(offsetGroups, weight) == old(OffsetsOf(offsetGroups, weight)) + [offset]
      ensures forall w :: w != weight ==> OffsetsOf(offsetGroups, w) == old(OffsetsOf(offsetGroups, w))
    {
      AppendToGroup(offset, weight);
      filed := filed[weight := FiledAt(filed, weight) + [offset]];
      forall w
        ensures OffsetsOf(offsetGroups, w) == FiledAt(filed, w)
      {
        if w != weight {
          assert OffsetsOf(offsetGroups, w) == old(OffsetsOf(offsetGroups, w));
        }
      }
    }

    /** The list work of `insert_offset`: the offset groups after `offset` is appended under `weight`. */
    method AppendToGroup(offset: int, weight: int)
      requires Ordered()
      modifies this`offsetGroups
      ensures Ordered()
      ensures forall w :: w in KeysOf(offsetGroups, WeightKey) <==> w in old(KeysOf(offsetGroups, WeightKey)) || w == weight
      ensures OffsetsOf(offsetGroups, weight) == old(OffsetsOf(offsetGroups, weight)) + [offset]
      ensures forall w :: w != weight ==> OffsetsOf(offsetGroups, w) == old(OffsetsOf(offsetGroups, w))
    {
      var index := FindKey(KeysOf(offsetGroups, WeightKey), weight);
      if index.Some? {
        var group := AppendOffset(offsetGroups[index.value], offset);
        LookupAfterReplace(offsetGroups, WeightKey, index.value, group);
        offsetGroups := offsetGroups[index.value := group];
      } else {
        assert Lookup(offsetGroups, WeightKey, weight) == None;
        var group := OffsetGroups.Initialize(weight);
        var inserted := InsertItem(offsetGroups, WeightKey, AppendOffset(group, offset));
        offsetGroups := inserted.value;
      }
    }

    /**
      * The weight group of `offset` (`get_weight_group`) as `insert_add_weight`
      * and `insert_set_weight` find it: the index of the existing group, or
      * the index of a new one with weight 0, inserted by a unique insert.
      */
    method FindOrInsertWeightGroup(offset: int) returns (index: nat)
      requires Valid()
      modifies this
      ensures Valid() && offsetGroups == old(offsetGroups) && filed == old(filed)
      ensures weights == old(weights)[offset := old(RecordedOrZero(weights, offset))]
      ensures Search(KeysOf(weightGroups, OffsetKey), offset) == Some(index)
      ensures weightGroups[index].weight == RecordedOrZero(weights, offset)
    {
      var found := FindKey(KeysOf(weightGroups, OffsetKey), offset);
      if found.Some? {
        index := found.value;
        assert WeightOf(weightGroups, offset) == Some(weightGroups[index].weight);
        assert weights == weights[offset := RecordedOrZero(weights, offset)];
      } else {
        assert WeightOf(weightGroups, offset) == None;
        weights := weights[offset := 0];
        var inserted := InsertItem(weightGroups, OffsetKey, WeightGroups.Initialize(offset));
        weightGroups := inserted.value;
        index := Search(KeysOf(weightGroups, OffsetKey), offset).value;
        forall o
          ensures WeightOf(weightGroups, o) == Recorded(weights, o)
        {
          if o != offset {
            assert Lookup(weightGroups, OffsetKey, o) == Lookup(old(weightGroups), OffsetKey, o);
            assert WeightOf(old(weightGroups), o) == old(WeightOf(weightGroups, o));
          }
        }
      }
    }

    /**
      * Adds `weight` to the weight group of `offset` (`insert_add_weight`),
      * creating it with weight 0 when the offset is new; every other offset
      * keeps its weight.
      */
    method InsertAddWeight(offset: int, weight: int)
      requires Valid()
      modifies this
      ensures Valid() && offsetGroups == old(offsetGroups) && filed == old(filed)
      ensures weights == old(weights)[offset := old(RecordedOrZero(weights, offset)) + weight]
    {
      var index := FindOrInsertWeightGroup(offset);
      StoreWeight(index, WeightGroups.AddWeight(weightGroups[index], weight));
    }

    /**
      * Sets the weight of `offset` (`insert_set_weight`), creating its weight
      * group when the offset is new; every other offset keeps its weight.
      */
    method InsertSetWeight(offset: int, weight: int)
      requires Valid()
      modifies this
      ensures Valid() && offsetGroups == old(offsetGroups) && filed == old(filed)
      ensures weights == old(weights)[offset := weight]
    {
      var index := FindOrInsertWeightGroup(offset);
      StoreWeight(index, WeightGroups.SetWeight(weightGroups[index], weight));
    }

    /** Stores an updated weight group where the lookup of its offset found the old one. */
    method StoreWeight(index: nat, group: WeightGroup)
      requires Valid() && Search(KeysOf(weightGroups, OffsetKey), group.patternOffset) == Some(index)
      modifies this
      ensures Valid() && offsetGroups == old(offsetGroups) && filed == old(filed)
      ensures weights == old(weights)[group.patternOffset := group.weight]
    {
      LookupAfterReplace(weightGroups, OffsetKey, index, group);
      weightGroups := weightGroups[index := group];
      weights := weights[group.patternOffset := group.weight];
      forall o
        ensures WeightOf(weightGroups, o) == Recorded(weights, o)
      {
        if o != group.patternOffset {
          assert WeightOf(weightGroups, o) == old(WeightOf(weightGroups, o));
        }
      }
    }

    /**
      * Adds a weight for `offset` (`add_weight`): the offset is filed under
      * the weight given, not under the accumulated total, and the weight is
      * added to the offset's weight group.
      */
    method AddWeight(offset: int, weight: int)
      requires Valid()
      modifies this
      ensures Valid()
      ensures OffsetsOf(offsetGroups, weight) == old(OffsetsOf(offsetGroups, weight)) + [offset]
      ensures forall w :: w != weight ==> OffsetsOf(offsetGroups, w) == old(OffsetsOf(offsetGroups, w))
      ensures filed == old(filed)[weight := FiledAt(old(filed), weight) + [offset]]
      ensures weights == old(weights)[offset := old(RecordedOrZero(weights, offset)) + weight]
    {
      InsertOffset(offset, weight);
      InsertAddWeight(offset, weight);
    }

    /**
      * Sets the weight of `offset` (`set_weight`): the offset is filed under
      * the weight and its weight group's value is overwritten.
      */
    method SetWeight(offset: int, weight: int)
      requires Valid()
      modifies this
      ensures Valid()
      ensures OffsetsOf(offsetGroups, weight) == old(OffsetsOf(offsetGroups, weight)) + [offset]
      ensures forall w :: w != weight ==> OffsetsOf(offsetGroups, w) == old(OffsetsOf(offsetGroups, w))
      ensures filed == old(filed)[weight := FiledAt(old(filed), weight) + [offset]]
      ensures weights == old(weights)[offset := weight]
    {
      InsertOffset(offset, weight);
      InsertSetWeight(offset, weight);
    }
  }
}
