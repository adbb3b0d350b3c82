/**
  * Building a scan tree (libsigscan_scan_tree.c): the pattern weights of a
  * signature table, the signatures a node does not cover, the recursive
  * node build, the pattern range list and the whole build.
  */
module ScanTrees {
  import opened Common
  import opened SortedLists
  import opened Signatures
  import opened SignaturesList
  import opened OffsetsList
  import opened SignatureGroups
  import opened ByteValueGroups
  import opened SignatureTables
  import opened WeightGroups
  import opened Weighting
  import opened ScanObjects
  import opened ScanTreeNodes
  import opened ScanTreeSelection
  import opened SkipTables

  /** The sizes of a byte value group's signature groups, in order. */
  ghost function Sizes(groups: seq<SignatureGroup>): seq<int>
    reads groups
  {
    seq(|groups|, k requires 0 <= k < |groups| reads groups => |groups[k].signatures|)
  }

  /** What the weights read from one byte value group: its offset and the sizes of its signature groups. */
  datatype Shape = Shape(patternOffset: int, sizes: seq<int>)

  /** The signature groups of all of `groups`. */
  ghost function SignatureGroupsOf(groups: seq<ByteValueGroup>): set<SignatureGroup>
    reads groups
  {
    set g, s | g in groups && s in g.signatureGroups :: s
  }

  /** The shapes of `groups`, in order. */
  ghost function Shapes(groups: seq<ByteValueGroup>): seq<Shape>
    reads groups, SignatureGroupsOf(groups)
  {
    seq(|groups|, k requires 0 <= k < |groups| reads groups, SignatureGroupsOf(groups) =>
                    assert forall s :: s in groups[k].signatureGroups ==> s in SignatureGroupsOf(groups);
                    Shape(groups[k].patternOffset, Sizes(groups[k].signatureGroups)))
  }

  /** The similarity weight of one byte value group: the sizes of its signature groups of more than one signature. */
  function GroupSimilarity(sizes: seq<int>): int
  {
    if sizes == [] then 0
    else
      var last := sizes[|sizes| - 1];
      GroupSimilarity(sizes[..|sizes| - 1]) + if last > 1 then last else 0
  }

  /** The similarity weight the groups of `shapes` add to `offset`. */
  function SimilarityTotal(shapes: seq<Shape>, offset: int): int
  {
    if shapes == [] then 0
    else
      var last := shapes[|shapes| - 1];
      SimilarityTotal(shapes[..|shapes| - 1], offset)
      + if last.patternOffset == offset then GroupSimilarity(last.sizes) else 0
  }

  /**
    * The occurrence weight the groups of `shapes` set for `offset`: the
    * number of signature groups of the last group at `offset` with more than
    * one; None when no group sets it.
    */
  function OccurrenceSet(shapes: seq<Shape>, offset: int): Option<int>
  {
    if shapes == [] then None
    else
      var last := shapes[|shapes| - 1];
      if last.patternOffset == offset && |last.sizes| > 1 then Some(|last.sizes|)
      else OccurrenceSet(shapes[..|shapes| - 1], offset)
  }

  /**
    * The weight map after the similarity weights of one byte value group
    * are added at `offset`: one `add_weight` per signature group of more
    * than one signature, in order.
    */
  function AddSizes(weights: map<int, int>, offset: int, sizes: seq<int>): map<int, int>
  {
    if sizes == [] then weights
    else
      var prior := AddSizes(weights, offset, sizes[..|sizes| - 1]);
      var last := sizes[|sizes| - 1];
      if last > 1 then prior[offset := RecordedOrZero(prior, offset) + last] else prior
  }

  /** The similarity weight map after every group of `shapes` has added its weights. */
  function SimilarityWeights(weights: map<int, int>, shapes: seq<Shape>): map<int, int>
  {
    if shapes == [] then weights
    else
      var last := shapes[|shapes| - 1];
      AddSizes(SimilarityWeights(weights, shapes[..|shapes| - 1]), last.patternOffset, last.sizes)
  }

  /** The occurrence weight map after every group of `shapes` of more than one signature group has set its weight. */
  function OccurrenceWeights(weights: map<int, int>, shapes: seq<Shape>): map<int, int>
  {
    if shapes == [] then weights
    else
      var prior := OccurrenceWeights(weights, shapes[..|shapes| - 1]);
      var last := shapes[|shapes| - 1];
      if |last.sizes| > 1 then prior[last.patternOffset := |last.sizes|] else prior
  }

  /**
    * The filing map after the similarity weights of one byte value group
    * are added at `offset`: each `add_weight` files the offset under the
    * size it adds, not under the accumulated weight.
    */
  function FileSizes(filed: map<int, seq<int>>, offset: int, sizes: seq<int>): map<int, seq<int>>
  {
    if sizes == [] then filed
    else
      var prior := FileSizes(filed, offset, sizes[..|sizes| - 1]);
      var last := sizes[|sizes| - 1];
      if last > 1 then prior[last := FiledAt(prior, last) + [offset]] else prior
  }

  /** The similarity filing map after every group of `shapes` has added its weights. */
  function SimilarityFiled(filed: map<int, seq<int>>, shapes: seq<Shape>): map<int, seq<int>>
  {
    if shapes == [] then filed
    else
      var last := shapes[|shapes| - 1];
      FileSizes(SimilarityFiled(filed, shapes[..|shapes| - 1]), last.patternOffset, last.sizes)
  }

  /**
    * The occurrence filing map after every group of `shapes` of more than
    * one signature group has set its weight: its offset is filed under its
    * number of signature groups.
    */
  function OccurrenceFiled(filed: map<int, seq<int>>, shapes: seq<Shape>): map<int, seq<int>>
  {
    if shapes == [] then filed
    else
      var prior := OccurrenceFiled(filed, shapes[..|shapes| - 1]);
      var last := shapes[|shapes| - 1];
      if |last.sizes| > 1 then prior[|last.sizes| := FiledAt(prior, |last.sizes|) + [last.patternOffset]] else prior
  }

  /**
    * Adding one group's weights raises the weight of its offset by its
    * similarity and leaves every other weight as it was; the offset gains
    * a weight exactly when one of its signature groups has more than one
    * signature.
    */
  lemma {:induction false} AddSizesTotal(weights: map<int, int>, offset: int, sizes: seq<int>, o: int)
    ensures RecordedOrZero(AddSizes(weights, offset, sizes), o) ==
            RecordedOrZero(weights, o) + if o == offset then GroupSimilarity(sizes) else 0
    ensures o in AddSizes(weights, offset, sizes) <==>
            o in weights || (o == offset && exists k :: 0 <= k < |sizes| && sizes[k] > 1)
  {
    if sizes != [] {
      var prefix := sizes[..|sizes| - 1];
      AddSizesTotal(weights, offset, prefix, o);
      if o == offset && (exists k :: 0 <= k < |prefix| && prefix[k] > 1) {
        var k :| 0 <= k < |prefix| && prefix[k] > 1;
        assert sizes[k] > 1;
      }
      if o == offset && (exists k :: 0 <= k < |sizes| && sizes[k] > 1) && sizes[|sizes| - 1] <= 1 {
        var k :| 0 <= k < |sizes| && sizes[k] > 1;
        assert prefix[k] > 1;
      }
    }
  }

  /** The similarity weights `fill_pattern_weights` leaves: each offset's weight grows by its similarity total. */
  lemma {:induction false} SimilarityWeightsTotal(weights: map<int, int>, shapes: seq<Shape>, o: int)
    ensures RecordedOrZero(SimilarityWeights(weights, shapes), o) == RecordedOrZero(weights, o) + SimilarityTotal(shapes, o)
  {
    if shapes != [] {
      var last := shapes[|shapes| - 1];
      SimilarityWeightsTotal(weights, shapes[..|shapes| - 1], o);
      AddSizesTotal(SimilarityWeights(weights, shapes[..|shapes| - 1]), last.patternOffset, last.sizes, o);
    }
  }

  /**
    * The occurrence weights `fill_pattern_weights` leaves: the weight the
    * last group of more than one signature group at the offset set, and the
    * earlier weight where no group set one.
    */
  lemma {:induction false} OccurrenceWeightsSet(weights: map<int, int>, shapes: seq<Shape>, o: int)
    ensures Recorded(OccurrenceWeights(weights, shapes), o) ==
            match OccurrenceSet(shapes, o)
            case Some(count) => Some(count)
            case None => Recorded(weights, o)
  {
    if shapes != [] {
      OccurrenceWeightsSet(weights, shapes[..|shapes| - 1], o);
    }
  }

  /**
    * The offsets one byte value group at `offset` files under similarity
    * weight `w`: its offset once for each of its signature groups of
    * exactly `w` signatures, when `w` is above 1.
    */
  function GroupFiledAt(offset: int, sizes: seq<int>, w: int): seq<int>
  {
    if sizes == [] then []
    else GroupFiledAt(offset, sizes[..|sizes| - 1], w) + if sizes[|sizes| - 1] == w && w > 1 then [offset] else []
  }

  /** The offsets `fill_pattern_weights` files under similarity weight `w`, group by group. */
  function SimilarityOffsets(shapes: seq<Shape>, w: int): seq<int>
  {
    if shapes == [] then []
    else
      var last := shapes[|shapes| - 1];
      SimilarityOffsets(shapes[..|shapes| - 1], w) + GroupFiledAt(last.patternOffset, last.sizes, w)
  }

  /**
    * The offsets `fill_pattern_weights` files under occurrence weight `w`:
    * those of the groups of exactly `w` signature groups, when `w` is above 1.
    */
  function OccurrenceOffsets(shapes: seq<Shape>, w: int): seq<int>
  {
    if shapes == [] then []
    else
      var last := shapes[|shapes| - 1];
      OccurrenceOffsets(shapes[..|shapes| - 1], w) + if |last.sizes| == w && w > 1 then [last.patternOffset] else []
  }

  /** The largest size above 1 in `sizes`, or 0 when there is none. */
  function MaxSize(sizes: seq<int>): int
  {
    if sizes == [] then 0
    else
      var prior := MaxSize(sizes[..|sizes| - 1]);
      var last := sizes[|sizes| - 1];
      if last > 1 && last > prior then last else prior
  }

  /** The largest similarity weight filed: the largest signature group size above 1, or 0. */
  function MaxSimilarity(shapes: seq<Shape>): int
  {
    if shapes == [] then 0
    else
      var prior := MaxSimilarity(shapes[..|shapes| - 1]);
      var last := MaxSize(shapes[|shapes| - 1].sizes);
      if last > prior then last else prior
  }

  /** The largest occurrence weight filed: the largest number of signature groups above 1, or 0. */
  function MaxOccurrence(shapes: seq<Shape>): int
  {
    if shapes == [] then 0
    else
      var prior := MaxOccurrence(shapes[..|shapes| - 1]);
      var last := |shapes[|shapes| - 1].sizes|;
      if last > 1 && last > prior then last else prior
  }

  /** One group's similarity filing, weight by weight: its offsets are appended, and a weight is filed exactly when they are some. */
  lemma {:induction false} FileSizesAt(filed: map<int, seq<int>>, offset: int, sizes: seq<int>, w: int)
    ensures FiledAt(FileSizes(filed, offset, sizes), w) == FiledAt(filed, w) + GroupFiledAt(offset, sizes, w)
    ensures w in FileSizes(filed, offset, sizes) <==> w in filed || GroupFiledAt(offset, sizes, w) != []
  {
    if sizes != [] {
      var prefix := sizes[..|sizes| - 1];
      var last := sizes[|sizes| - 1];
      var prior := FileSizes(filed, offset, prefix);
      var added: seq<int> := if last == w && w > 1 then [offset] else [];
      FileSizesAt(filed, offset, prefix, w);
      assert GroupFiledAt(offset, sizes, w) == GroupFiledAt(offset, prefix, w) + added;
      if last > 1 && last == w {
        assert FiledAt(FileSizes(filed, offset, sizes), w) == FiledAt(prior, w) + [offset];
      } else {
        assert FiledAt(FileSizes(filed, offset, sizes), w) == FiledAt(prior, w);
      }
      assert FiledAt(filed, w) + GroupFiledAt(offset, prefix, w) + added
             == FiledAt(filed, w) + (GroupFiledAt(offset, prefix, w) + added);
    }
  }

  /**
    * The similarity filing `fill_pattern_weights` leaves: the offsets under
    * each weight grow by `SimilarityOffsets`, and a weight is filed exactly
    * when it was or some offset is filed under it.
    */
  lemma {:induction false} SimilarityFiledAt(filed: map<int, seq<int>>, shapes: seq<Shape>, w: int)
    ensures FiledAt(SimilarityFiled(filed, shapes), w) == FiledAt(filed, w) + SimilarityOffsets(shapes, w)
    ensures w in SimilarityFiled(filed, shapes) <==> w in filed || SimilarityOffsets(shapes, w) != []
  {
    if shapes != [] {
      var prefix := shapes[..|shapes| - 1];
      var last := shapes[|shapes| - 1];
      var prior := SimilarityFiled(filed, prefix);
      var group := GroupFiledAt(last.patternOffset, last.sizes, w);
      assert SimilarityFiled(filed, shapes) == FileSizes(prior, last.patternOffset, last.sizes);
      assert FiledAt(SimilarityFiled(filed, shapes), w) == FiledAt(filed, w) + SimilarityOffsets(shapes, w) by {
        SimilarityFiledAt(filed, prefix, w);
        FileSizesAt(prior, last.patternOffset, last.sizes, w);
        assert SimilarityOffsets(shapes, w) == SimilarityOffsets(prefix, w) + group;
        assert FiledAt(filed, w) + SimilarityOffsets(prefix, w) + group == FiledAt(filed, w) + (SimilarityOffsets(prefix, w) + group);
      }
      assert w in SimilarityFiled(filed, shapes) <==> w in filed || SimilarityOffsets(shapes, w) != [] by {
        SimilarityFiledAt(filed, prefix, w);
        FileSizesAt(prior, last.patternOffset, last.sizes, w);
        assert SimilarityOffsets(shapes, w) == SimilarityOffsets(prefix, w) + group;
      }
    }
  }

  /** The occurrence filing `fill_pattern_weights` leaves, weight by weight. */
  lemma {:induction false} OccurrenceFiledAt(filed: map<int, seq<int>>, shapes: seq<Shape>, w: int)
    ensures FiledAt(OccurrenceFiled(filed, shapes), w) == FiledAt(filed, w) + OccurrenceOffsets(shapes, w)
    ensures w in OccurrenceFiled(filed, shapes) <==> w in filed || OccurrenceOffsets(shapes, w) != []
  {
    if shapes != [] {
      OccurrenceFiledAt(filed, shapes[..|shapes| - 1], w);
    }
  }

  /** Offsets are filed exactly under the sizes above 1, so `MaxSize` is the largest weight one group files under. */
  lemma {:induction false} GroupFiledMax(offset: int, sizes: seq<int>, w: int)
    ensures GroupFiledAt(offset, sizes, w) != [] ==> 1 < w <= MaxSize(sizes)
    ensures MaxSize(sizes) == 0 || (MaxSize(sizes) > 1 && GroupFiledAt(offset, sizes, MaxSize(sizes)) != [])
  {
    if sizes != [] {
      var prefix := sizes[..|sizes| - 1];
      GroupFiledMax(offset, prefix, w);
      GroupFiledMax(offset, prefix, MaxSize(prefix));
    }
  }

  /** `MaxSimilarity` is the largest weight any offset is filed under, and 0 when none is. */
  lemma {:induction false} SimilarityFiledMax(shapes: seq<Shape>, w: int)
    ensures SimilarityOffsets(shapes, w) != [] ==> 1 < w <= MaxSimilarity(shapes)
    ensures MaxSimilarity(shapes) == 0 ||
            (MaxSimilarity(shapes) > 1 && SimilarityOffsets(shapes, MaxSimilarity(shapes)) != [])
  {
    if shapes != [] {
      var prefix := shapes[..|shapes| - 1];
      var last := shapes[|shapes| - 1];
      SimilarityFiledMax(prefix, w);
      SimilarityFiledMax(prefix, MaxSimilarity(prefix));
      GroupFiledMax(last.patternOffset, last.sizes, w);
      GroupFiledMax(last.patternOffset, last.sizes, MaxSimilarity(shapes));
    }
  }

  /** `MaxOccurrence` is the largest weight any offset is filed under, and 0 when none is. */
  lemma {:induction false} OccurrenceFiledMax(shapes: seq<Shape>, w: int)
    ensures OccurrenceOffsets(shapes, w) != [] ==> 1 < w <= MaxOccurrence(shapes)
    ensures MaxOccurrence(shapes) == 0 ||
            (MaxOccurrence(shapes) > 1 && OccurrenceOffsets(shapes, MaxOccurrence(shapes)) != [])
  {
    if shapes != [] {
      var prefix := shapes[..|shapes| - 1];
      OccurrenceFiledMax(prefix, w);
      OccurrenceFiledMax(prefix, MaxOccurrence(prefix));
    }
  }

  /**
    * The most significant offset of a table of `count` signatures whose
    * byte value groups have `shapes`, under the weights
    * `fill_pattern_weights` files into new pattern weights and no
    * byte-value weights. A table without groups has none. Otherwise the
    * fallback is the offset of the first group:
    * - one signature: the fallback;
    * - two signatures, or no signature group of more than one signature:
    *   the only offset of the largest number of signature groups, and the
    *   fallback when several offsets share it or none has more than one;
    * - more signatures: the only offset filed under the largest signature
    *   group size; when several are, the first of them of the largest
    *   occurrence weight as the selector's loop sees it.
    */
  function Significant(count: nat, shapes: seq<Shape>): Result<Selection>
  {
    if count == 0 then Ok(Selection(false, 0))
    else
      var fallback := if shapes == [] then Err(ValueOutOfBounds) else Ok(Selection(true, shapes[0].patternOffset));
      var frequent := OccurrenceOffsets(shapes, MaxOccurrence(shapes));
      var byOccurrence := if |frequent| == 1 then Ok(Selection(true, frequent[0])) else fallback;
      var similar := SimilarityOffsets(shapes, MaxSimilarity(shapes));
      if count == 1 then fallback
      else if count == 2 || similar == [] then byOccurrence
      else if |similar| == 1 then Ok(Selection(true, similar[0]))
      else Ok(Selection(true, similar[FirstMaxIndex(StickyRecorded(similar, OccurrenceWeights(map[], shapes)))]))
  }

  /** Every offset one group files is the group's own offset. */
  lemma {:induction false} GroupFiledListed(offset: int, sizes: seq<int>, w: int)
    ensures forall x :: x in GroupFiledAt(offset, sizes, w) ==> x == offset
  {
    if sizes != [] {
      GroupFiledListed(offset, sizes[..|sizes| - 1], w);
    }
  }

  /** Every offset filed under a similarity or occurrence weight is the offset of one of the groups. */
  lemma {:induction false} FiledListed(shapes: seq<Shape>, w: int, x: int)
    requires x in SimilarityOffsets(shapes, w) || x in OccurrenceOffsets(shapes, w)
    ensures exists k :: 0 <= k < |shapes| && shapes[k].patternOffset == x
  {
    var prefix := shapes[..|shapes| - 1];
    var last := shapes[|shapes| - 1];
    GroupFiledListed(last.patternOffset, last.sizes, w);
    if x in SimilarityOffsets(prefix, w) || x in OccurrenceOffsets(prefix, w) {
      FiledListed(prefix, w, x);
      var k :| 0 <= k < |prefix| && prefix[k].patternOffset == x;
      assert shapes[k] == prefix[k];
    } else {
      assert shapes[|shapes| - 1].patternOffset == x;
    }
  }

  /** An offset `Significant` finds is the pattern offset of one of the table's byte value groups. */
  lemma SignificantListed(count: nat, shapes: seq<Shape>)
    ensures var r := Significant(count, shapes);
            r.Ok? && r.value.found ==> exists k :: 0 <= k < |shapes| && shapes[k].patternOffset == r.value.offset
  {
    var r := Significant(count, shapes);
    if r.Ok? && r.value.found && shapes != [] && r.value.offset != shapes[0].patternOffset {
      var similar := MaxSimilarity(shapes);
      FiledListed(shapes, if r.value.offset in SimilarityOffsets(shapes, similar) then similar else MaxOccurrence(shapes),
                  r.value.offset);
    }
  }

  /** New pattern weights filled from `shapes` give the largest offsets `Significant` reads. */
  lemma LargestOffsetsFilled(shapes: seq<Shape>, similarity: PatternWeights, occurrence: PatternWeights)
    requires similarity.Valid() && occurrence.Valid()
    requires similarity.filed == SimilarityFiled(map[], shapes) && occurrence.filed == OccurrenceFiled(map[], shapes)
    ensures LargestOffsets(similarity) == Ok(SimilarityOffsets(shapes, MaxSimilarity(shapes)))
    ensures LargestOffsets(occurrence) == Ok(OccurrenceOffsets(shapes, MaxOccurrence(shapes)))
  {
    var similar := MaxSimilarity(shapes);
    var frequent := MaxOccurrence(shapes);
    SimilarityFiledMax(shapes, similar);
    OccurrenceFiledMax(shapes, frequent);
    SimilarityFiledAt(map[], shapes, similar);
    OccurrenceFiledAt(map[], shapes, frequent);
    forall w | w in similarity.filed
      ensures 0 < w <= similar
    {
      SimilarityFiledAt(map[], shapes, w);
      SimilarityFiledMax(shapes, w);
    }
    forall w | w in occurrence.filed
      ensures 0 < w <= frequent
    {
      OccurrenceFiledAt(map[], shapes, w);
      OccurrenceFiledMax(shapes, w);
    }
    assert similarity.filed != map[] ==> similar in similarity.filed;
    assert occurrence.filed != map[] ==> frequent in occurrence.filed;
    LargestOffsetsFiled(similarity, similar);
    LargestOffsetsFiled(occurrence, frequent);
    assert FiledAt(map[], similar) + SimilarityOffsets(shapes, similar) == SimilarityOffsets(shapes, similar);
    assert FiledAt(map[], frequent) + OccurrenceOffsets(shapes, frequent) == OccurrenceOffsets(shapes, frequent);
  }

  /**
    * The selectors, run on new pattern weights filled from a table's shapes
    * and on no byte-value weights, choose what `Significant` says.
    */
  lemma SignificantOfFilled(
    count: nat, groups: seq<ByteValueGroup>, shapes: seq<Shape>,
    similarity: PatternWeights, occurrence: PatternWeights, byteValue: PatternWeights)
    requires similarity.Valid() && occurrence.Valid() && NoWeights(byteValue)
    requires |shapes| == |groups| && (groups != [] ==> shapes[0].patternOffset == groups[0].patternOffset)
    requires similarity.filed == SimilarityFiled(map[], shapes) && occurrence.filed == OccurrenceFiled(map[], shapes)
    requires occurrence.weights == OccurrenceWeights(map[], shapes)
    ensures MostSignificant(count, groups, similarity, occurrence, byteValue) == Significant(count, shapes)
  {
    LargestOffsetsFilled(shapes, similarity, occurrence);
    if count > 0 && groups != [] {
      MostSignificantWithoutByteValues(count, groups, similarity, occurrence, byteValue);
      var similar := SimilarityOffsets(shapes, MaxSimilarity(shapes));
      if count > 2 && |similar| > 1 {
        var r := MostSignificant(count, groups, similarity, occurrence, byteValue);
        var weights := StickyWeights(similar, occurrence.weightGroups);
        StickyWeightsRecorded(similar, occurrence.weightGroups, occurrence.weights);
        var k :| FirstMaxAt(weights, k) && r.value.offset == similar[k];
        FirstMaxUnique(weights, k, FirstMaxIndex(weights));
      }
    }
  }

  /** Taking one more shape into the folds applies that shape's update to what the shorter prefix gave. */
  lemma WeightsStep(similarity: map<int, int>, occurrence: map<int, int>,
                    similarityFiled: map<int, seq<int>>, occurrenceFiled: map<int, seq<int>>, shapes: seq<Shape>, i: nat)
    requires i < |shapes|
    ensures SimilarityFiled(similarityFiled, shapes[..i + 1]) ==
            FileSizes(SimilarityFiled(similarityFiled, shapes[..i]), shapes[i].patternOffset, shapes[i].sizes)
    ensures OccurrenceFiled(occurrenceFiled, shapes[..i + 1]) ==
            var prior := OccurrenceFiled(occurrenceFiled, shapes[..i]);
            var count := |shapes[i].sizes|;
            if count > 1 then prior[count := FiledAt(prior, count) + [shapes[i].patternOffset]] else prior
    ensures SimilarityWeights(similarity, shapes[..i + 1]) ==
            AddSizes(SimilarityWeights(similarity, shapes[..i]), shapes[i].patternOffset, shapes[i].sizes)
    ensures OccurrenceWeights(occurrence, shapes[..i + 1]) ==
            if |shapes[i].sizes| > 1 then OccurrenceWeights(occurrence, shapes[..i])[shapes[i].patternOffset := |shapes[i].sizes|]
            else OccurrenceWeights(occurrence, shapes[..i])
  {
    assert shapes[..i + 1][..i] == shapes[..i];
  }

  /** Taking one more size into the fold adds that size's weight to what the shorter prefix gave. */
  lemma AddSizesStep(weights: map<int, int>, filed: map<int, seq<int>>, offset: int, sizes: seq<int>, i: nat)
    requires i < |sizes|
    ensures FileSizes(filed, offset, sizes[..i + 1]) ==
            var prior := FileSizes(filed, offset, sizes[..i]);
            if sizes[i] > 1 then prior[sizes[i] := FiledAt(prior, sizes[i]) + [offset]] else prior
    ensures AddSizes(weights, offset, sizes[..i + 1]) ==
            var prior := AddSizes(weights, offset, sizes[..i]);
            if sizes[i] > 1 then prior[offset := RecordedOrZero(prior, offset) + sizes[i]] else prior
  {
    assert sizes[..i + 1][..i] == sizes[..i];
  }

  /**
    * Adds the similarity weights of one byte value group: for every
    * signature group of more than one signature, its size at the group's
    * offset (the inner loop of `fill_pattern_weights`).
    */
  method AddSimilarityWeights(group: ByteValueGroup, similarity: PatternWeights, ghost sizes: seq<int>)
    requires similarity.Valid() && sizes == Sizes(group.signatureGroups)
    modifies similarity
    ensures similarity.Valid()
    ensures similarity.weights == AddSizes(old(similarity.weights), group.patternOffset, sizes)
    ensures similarity.filed == FileSizes(old(similarity.filed), group.patternOffset, sizes)
  {
    var i := 0;
    while i < group.NumberOfSignatureGroups()
      invariant 0 <= i <= |sizes|
      invariant similarity.Valid()
      invariant similarity.weights == AddSizes(old(similarity.weights), group.patternOffset, sizes[..i])
      invariant similarity.filed == FileSizes(old(similarity.filed), group.patternOffset, sizes[..i])
    {
      var signatureGroup := group.GetSignatureGroupByIndex(i).value;
      var count := signatureGroup.NumberOfSignatures();
      AddNextSize(group.patternOffset, count, similarity, sizes, i, old(similarity.weights), old(similarity.filed));
      i := i + 1;
    }
    assert sizes[..i] == sizes;
  }

  /** One turn of the inner loop of `fill_pattern_weights`: the signature group at `i`, of `count` signatures. */
  method AddNextSize(offset: int, count: int, similarity: PatternWeights, ghost sizes: seq<int>, ghost i: nat,
                     ghost weights: map<int, int>, ghost filed: map<int, seq<int>>)
    requires similarity.Valid() && i < |sizes| && sizes[i] == count
    requires similarity.weights == AddSizes(weights, offset, sizes[..i])
    requires similarity.filed == FileSizes(filed, offset, sizes[..i])
    modifies similarity
    ensures similarity.Valid()
    ensures similarity.weights == AddSizes(weights, offset, sizes[..i + 1])
    ensures similarity.filed == FileSizes(filed, offset, sizes[..i + 1])
  {
    AddSizesStep(weights, filed, offset, sizes, i);
    if count > 1 {
      similarity.AddWeight(offset, count);
    }
  }

  /**
    * The weights one byte value group gives its offset: the occurrence
    * weight is set to its number of signature groups when above 1, and the
    * similarity weights of its signature groups are added.
    */
  method FillGroupWeights(group: ByteValueGroup, similarity: PatternWeights, occurrence: PatternWeights, ghost shape: Shape)
    requires similarity.Valid() && occurrence.Valid() && similarity != occurrence
    requires shape == Shape(group.patternOffset, Sizes(group.signatureGroups))
    modifies similarity, occurrence
    ensures similarity.Valid() && occurrence.Valid()
    ensures occurrence.weights ==
              if |shape.sizes| > 1 then old(occurrence.weights)[shape.patternOffset := |shape.sizes|]
              else old(occurrence.weights)
    ensures similarity.weights == AddSizes(old(similarity.weights), shape.patternOffset, shape.sizes)
    ensures occurrence.filed ==
              var count := |shape.sizes|;
              if count > 1 then old(occurrence.filed)[count := FiledAt(old(occurrence.filed), count) + [shape.patternOffset]]
              else old(occurrence.filed)
    ensures similarity.filed == FileSizes(old(similarity.filed), shape.patternOffset, shape.sizes)
  {
    var count := group.NumberOfSignatureGroups();
    if count > 1 {
      occurrence.SetWeight(group.patternOffset, count);
    }
    assert group.signatureGroups == old(group.signatureGroups);
    AddSimilarityWeights(group, similarity, shape.sizes);
  }

  /**
    * Fills the similarity and occurrence weights from a signature table
    * (`fill_pattern_weights`): per byte value group, the occurrence weight
    * of its offset is set to its number of signature groups when above 1,
    * and the similarity weight of its offset grows by the size of each
    * signature group of more than one signature. The byte-value weights are
    * left alone: their test reads `COMMON_BYTE_VALUES` at a byte value
    * that is never assigned and stays 0, whose entry is 1.
    */
  method FillPatternWeights(table: SignatureTable, similarity: PatternWeights, occurrence: PatternWeights)
    returns (ghost shapes: seq<Shape>)
    requires similarity.Valid() && occurrence.Valid() && similarity != occurrence
    modifies similarity, occurrence
    ensures similarity.Valid() && occurrence.Valid()
    ensures shapes == old(Shapes(table.byteValueGroups))
    ensures occurrence.weights == OccurrenceWeights(old(occurrence.weights), shapes)
    ensures similarity.weights == SimilarityWeights(old(similarity.weights), shapes)
    ensures occurrence.filed == OccurrenceFiled(old(occurrence.filed), shapes)
    ensures similarity.filed == SimilarityFiled(old(similarity.filed), shapes)
  {
    assert COMMON_BYTE_VALUES[0] == 1;
    shapes := Shapes(table.byteValueGroups);
    var i := 0;
    while i < table.NumberOfByteValueGroups()
      invariant 0 <= i <= |shapes| && table.byteValueGroups == old(table.byteValueGroups)
      invariant unchanged(table.byteValueGroups) && unchanged(SignatureGroupsOf(table.byteValueGroups))
      invariant similarity.Valid() && occurrence.Valid()
      invariant occurrence.weights == OccurrenceWeights(old(occurrence.weights), shapes[..i])
      invariant similarity.weights == SimilarityWeights(old(similarity.weights), shapes[..i])
      invariant occurrence.filed == OccurrenceFiled(old(occurrence.filed), shapes[..i])
      invariant similarity.filed == SimilarityFiled(old(similarity.filed), shapes[..i])
    {
      assert Sizes(table.byteValueGroups[i].signatureGroups) == old(Sizes(table.byteValueGroups[i].signatureGroups));
      FillNext(table, i, similarity, occurrence, shapes,
               old(similarity.weights), old(occurrence.weights), old(similarity.filed), old(occurrence.filed));
      i := i + 1;
    }
    assert shapes[..i] == shapes;
  }

  /** One turn of the loop of `fill_pattern_weights`: the weights of the byte value group at `i`. */
  method FillNext(
    table: SignatureTable, i: nat, similarity: PatternWeights, occurrence: PatternWeights, ghost shapes: seq<Shape>,
    ghost similarityWeights: map<int, int>, ghost occurrenceWeights: map<int, int>,
    ghost similarityFiled: map<int, seq<int>>, ghost occurrenceFiled: map<int, seq<int>>)
    requires i < |table.byteValueGroups| && i < |shapes|
    requires shapes[i] == Shape(table.byteValueGroups[i].patternOffset, Sizes(table.byteValueGroups[i].signatureGroups))
    requires similarity.Valid() && occurrence.Valid() && similarity != occurrence
    requires occurrence.weights == OccurrenceWeights(occurrenceWeights, shapes[..i])
    requires similarity.weights == SimilarityWeights(similarityWeights, shapes[..i])
    requires occurrence.filed == OccurrenceFiled(occurrenceFiled, shapes[..i])
    requires similarity.filed == SimilarityFiled(similarityFiled, shapes[..i])
    modifies similarity, occurrence
    ensures similarity.Valid() && occurrence.Valid()
    ensures occurrence.weights == OccurrenceWeights(occurrenceWeights, shapes[..i + 1])
    ensures similarity.weights == SimilarityWeights(similarityWeights, shapes[..i + 1])
    ensures occurrence.filed == OccurrenceFiled(occurrenceFiled, shapes[..i + 1])
    ensures similarity.filed == SimilarityFiled(similarityFiled, shapes[..i + 1])
  {
    WeightsStep(similarityWeights, occurrenceWeights, similarityFiled, occurrenceFiled, shapes, i);
    var group := table.GetByteValueGroupByIndex(i).value;
    FillGroupWeights(group, similarity, occurrence, shapes[i]);
  }
}
