/**
  * The choice of the pattern offset a scan tree node tests
  * (libsigscan_scan_tree.c): the common byte values, the three selectors
  * over the similarity, occurrence and byte-value weights, and the most
  * significant offset of a signature table.
  */
module ScanTreeSelection {
  import opened Common
  import opened SortedLists
  import opened OffsetGroups
  import opened WeightGroups
  import opened Weighting
  import opened ByteValueGroups

  /**
    * The byte values that are common in data (`common_byte_values`): 0x00,
    * 0x01, tab, line feed, carriage return, space, the digits, the letters
    * and 0xff.
    */
  predicate CommonByte(b: int)
  {
    || b == 0x00 || b == 0x01 || b == 0x09 || b == 0x0a || b == 0x0d || b == 0x20
    || ('0' as int <= b <= '9' as int)
    || ('A' as int <= b <= 'Z' as int)
    || ('a' as int <= b <= 'z' as int)
    || b == 0xff
  }

  /** The table of common byte values: 1 for a common byte value, 0 otherwise. */
  const COMMON_BYTE_VALUES: seq<byte> := seq(256, b => if CommonByte(b) then 1 else 0)

  /**
    * What a selector reports: `found` is the C function's 1 (versus 0) and
    * `offset` is what the caller's pattern offset holds afterwards.
    */
  datatype Selection = Selection(found: bool, offset: int)

  /**
    * The offsets of the group of the largest weight, or none when there is
    * no positive largest weight; an error when that group cannot be found.
    */
  function LargestOffsets(weights: PatternWeights): (r: Result<seq<int>>)
    reads weights
    ensures weights.Ordered() ==> r.Ok?
    ensures r.Ok? && r.value != [] ==>
            && weights.LargestWeight().Some? && weights.LargestWeight().value > 0
            && r.value == OffsetsOf(weights.offsetGroups, weights.LargestWeight().value)
    ensures weights.offsetGroups == [] ==> r == Ok([])
  {
    match weights.LargestWeight()
    case None => Ok([])
    case Some(largest) =>
      if largest <= 0 then Ok([])
      else
        match Lookup(weights.offsetGroups, WeightKey, largest)
        case None => Err(OperationFailed)
        case Some(group) => Ok(group.offsets)
  }

  /**
    * On pattern weights whose largest filed weight is `largest` (a positive
    * weight, when any is filed), the offsets of the largest weight are those
    * filed under `largest`.
    */
  lemma LargestOffsetsFiled(weights: PatternWeights, largest: int)
    requires weights.Valid()
    requires forall w :: w in weights.filed ==> 0 < w <= largest
    requires weights.filed != map[] ==> largest in weights.filed
    ensures LargestOffsets(weights) == Ok(FiledAt(weights.filed, largest))
  {
    var keys := KeysOf(weights.offsetGroups, WeightKey);
    if weights.offsetGroups == [] {
      assert forall w :: w !in weights.filed;
      assert weights.filed == map[];
    } else {
      assert keys[0] in keys && keys[0] in weights.filed;
      var last := weights.LargestWeight().value;
      assert last in weights.filed && largest in keys;
      assert last == largest && largest > 0;
      assert Lookup(weights.offsetGroups, WeightKey, largest).Some?;
      assert OffsetsOf(weights.offsetGroups, largest) == FiledAt(weights.filed, largest);
    }
  }

  /**
    * The byte-value selector (`get_pattern_offset_by_byte_value_weights`):
    * the first offset of the largest weight; otherwise the offset stays
    * `current`, found only when some weight, none of them positive, exists.
    */
  function ByteValueSelection(weights: PatternWeights, current: int): (r: Result<Selection>)
    reads weights
    ensures weights.Ordered() ==> r.Ok?
    ensures weights.offsetGroups == [] ==> r == Ok(Selection(false, current))
  {
    match LargestOffsets(weights)
    case Err(e) => Err(e)
    case Ok(offsets) =>
      if |offsets| > 0 then Ok(Selection(true, offsets[0]))
      else Ok(Selection(weights.LargestWeight().Some?, current))
  }

  /**
    * The weights a selector loop sees for `offsets`: the weight of each
    * offset's group, or the weight seen last (initially 0) for an offset
    * without a group, since the loop variable is only assigned on a hit.
    */
  function StickyWeights(offsets: seq<int>, groups: seq<WeightGroup>): (weights: seq<int>)
    ensures |weights| == |offsets|
    ensures forall i :: 0 <= i < |offsets| && WeightOf(groups, offsets[i]).Some? ==>
              weights[i] == WeightOf(groups, offsets[i]).value
    decreases |offsets|
  {
    if offsets == [] then []
    else
      var prior := StickyWeights(offsets[..|offsets| - 1], groups);
      var last := if prior == [] then 0 else prior[|prior| - 1];
      prior + [match WeightOf(groups, offsets[|offsets| - 1]) case Some(w) => w case None => last]
  }

  /**
    * The sticky weights of `offsets` read from a weight map instead of a
    * weight group list: the recorded weight, or the one seen last.
    */
  function StickyRecorded(offsets: seq<int>, weights: map<int, int>): (r: seq<int>)
    ensures |r| == |offsets|
    decreases |offsets|
  {
    if offsets == [] then []
    else
      var prior := StickyRecorded(offsets[..|offsets| - 1], weights);
      var last := if prior == [] then 0 else prior[|prior| - 1];
      prior + [match Recorded(weights, offsets[|offsets| - 1]) case Some(w) => w case None => last]
  }

  /** Weight groups holding exactly the weights a map records give the same sticky weights. */
  lemma {:induction false} StickyWeightsRecorded(offsets: seq<int>, groups: seq<WeightGroup>, weights: map<int, int>)
    requires forall o {:trigger WeightOf(groups, o)} :: WeightOf(groups, o) == Recorded(weights, o)
    ensures StickyWeights(offsets, groups) == StickyRecorded(offsets, weights)
    decreases |offsets|
  {
    if offsets != [] {
      StickyWeightsRecorded(offsets[..|offsets| - 1], groups, weights);
      assert WeightOf(groups, offsets[|offsets| - 1]) == Recorded(weights, offsets[|offsets| - 1]);
    }
  }

  /**
    * The state of the occurrence selector's loop: the result of the last
    * lookup, the last weight seen, the largest weight and its offset.
    */
  datatype OccurrenceRun = OccurrenceRun(found: bool, weight: int, largest: int, offset: int)

  /**
    * The occurrence selector's loop over `offsets`: the weight of each
    * offset is looked up in `groups`; the first offset, and later any offset
    * with a larger weight, becomes the selection.
    */
  function OccurrenceLoop(offsets: seq<int>, groups: seq<WeightGroup>, start: OccurrenceRun): OccurrenceRun
    decreases |offsets|
  {
    if offsets == [] then start
    else
      var run := OccurrenceLoop(offsets[..|offsets| - 1], groups, start);
      var offset := offsets[|offsets| - 1];
      var lookup := WeightOf(groups, offset);
      var weight := if lookup.Some? then lookup.value else run.weight;
      if |offsets| == 1 || weight > run.largest then OccurrenceRun(lookup.Some?, weight, weight, offset)
      else OccurrenceRun(lookup.Some?, weight, run.largest, run.offset)
  }

  /** `k` holds the first of the largest of `weights`. */
  predicate FirstMaxAt(weights: seq<int>, k: int)
  {
    && 0 <= k < |weights|
    && (forall i :: 0 <= i < k ==> weights[i] < weights[k])
    && (forall i :: 0 <= i < |weights| ==> weights[i] <= weights[k])
  }

  /** One more weight takes over the first maximum exactly when it is larger than the maximum so far. */
  lemma FirstMaxExtend(weights: seq<int>, k: int, weight: int)
    requires FirstMaxAt(weights, k)
    ensures FirstMaxAt(weights + [weight], if weight > weights[k] then |weights| else k)
  {
    var extended := weights + [weight];
    assert forall i :: 0 <= i < |weights| ==> extended[i] == weights[i];
  }

  /** The index of the first of the largest of `weights`. */
  function FirstMaxIndex(weights: seq<int>): (k: nat)
    requires |weights| > 0
    ensures FirstMaxAt(weights, k)
    decreases |weights|
  {
    if |weights| == 1 then 0
    else
      var prefix := weights[..|weights| - 1];
      var last := weights[|weights| - 1];
      var k := FirstMaxIndex(prefix);
      FirstMaxExtend(prefix, k, last);
      assert prefix + [last] == weights;
      if last > weights[k] then |weights| - 1 else k
  }

  /** The first of the largest weights is at one index only. */
  lemma FirstMaxUnique(weights: seq<int>, k: int, j: int)
    requires FirstMaxAt(weights, k) && FirstMaxAt(weights, j)
    ensures k == j
  {
    assert weights[j] <= weights[k] && weights[k] <= weights[j];
  }

  /**
    * The occurrence loop selects the first offset of largest sticky weight,
    * and reports the result of the lookup of the last offset.
    */
  lemma {:induction false} OccurrenceLoopFirstMax(offsets: seq<int>, groups: seq<WeightGroup>, current: int)
    requires |offsets| > 0
    ensures var run := OccurrenceLoop(offsets, groups, OccurrenceRun(false, 0, 0, current));
            var weights := StickyWeights(offsets, groups);
            && run.found == WeightOf(groups, offsets[|offsets| - 1]).Some?
            && run.weight == weights[|offsets| - 1]
            && exists k :: FirstMaxAt(weights, k) && run.offset == offsets[k] && run.largest == weights[k]
    decreases |offsets|
  {
    var start := OccurrenceRun(false, 0, 0, current);
    var n := |offsets|;
    var prefix := offsets[..n - 1];
    var prior := OccurrenceLoop(prefix, groups, start);
    var priorWeights := StickyWeights(prefix, groups);
    var weights := StickyWeights(offsets, groups);
    var lookup := WeightOf(groups, offsets[n - 1]);
    var weight := if lookup.Some? then lookup.value else prior.weight;
    if n == 1 {
      assert prefix == [];
      assert weights == [if lookup.Some? then lookup.value else 0];
      assert FirstMaxAt(weights, 0);
    } else {
      OccurrenceLoopFirstMax(prefix, groups, current);
      assert weights == priorWeights + [weight];
      var k' :| FirstMaxAt(priorWeights, k') && prior.offset == prefix[k'] && prior.largest == priorWeights[k'];
      FirstMaxExtend(priorWeights, k', weight);
      var k := if weight > prior.largest then n - 1 else k';
      assert offsets[k] == (if k == n - 1 then offsets[n - 1] else prefix[k']);
      assert FirstMaxAt(weights, k) && weights[k] == (if k == n - 1 then weight else priorWeights[k']);
    }
  }

  /**
    * The occurrence selector (`get_pattern_offset_by_occurrence_weights`):
    * no offset of positive largest occurrence weight falls back on the
    * byte-value selector; a single one is selected; among several, the
    * byte-value weights decide, and the result is that of the last lookup.
    */
  function OccurrenceSelection(occurrence: PatternWeights, byteValue: PatternWeights, current: int)
    : (r: Result<Selection>)
    reads occurrence, byteValue
    ensures occurrence.Ordered() && byteValue.Ordered() ==> r.Ok?
  {
    match LargestOffsets(occurrence)
    case Err(e) => Err(e)
    case Ok(offsets) =>
      if |offsets| == 0 then ByteValueSelection(byteValue, current)
      else if |offsets| == 1 then Ok(Selection(true, offsets[0]))
      else
        var run := OccurrenceLoop(offsets, byteValue.weightGroups, OccurrenceRun(false, 0, 0, current));
        Ok(Selection(run.found, run.offset))
  }

  /**
    * The state of the similarity selector's loop: the last occurrence and
    * byte-value weights seen, the largest occurrence weight, the byte-value
    * weight of its offset, and that offset.
    */
  datatype SimilarityRun = SimilarityRun(
    occurrenceWeight: int, byteValueWeight: int,
    largestOccurrence: int, largestByteValue: int, offset: int)

  /**
    * The similarity selector's loop over `offsets`: the offset of largest
    * occurrence weight is selected; at a tie with a positive largest weight,
    * a larger byte-value weight than the selection's clears the largest
    * occurrence weight, so that the tied offset takes over.
    */
  function SimilarityLoop(
    offsets: seq<int>, occurrenceGroups: seq<WeightGroup>, byteValueGroups: seq<WeightGroup>,
    start: SimilarityRun): SimilarityRun
    decreases |offsets|
  {
    if offsets == [] then start
    else
      var run := SimilarityLoop(offsets[..|offsets| - 1], occurrenceGroups, byteValueGroups, start);
      var offset := offsets[|offsets| - 1];
      var occurrenceWeight := match WeightOf(occurrenceGroups, offset)
                              case Some(w) => w case None => run.occurrenceWeight;
      var tie := run.largestOccurrence > 0 && occurrenceWeight == run.largestOccurrence;
      var byteValueWeight := if tie then match WeightOf(byteValueGroups, offset)
                                         case Some(w) => w case None => run.byteValueWeight
                             else run.byteValueWeight;
      var largest := if tie && byteValueWeight > run.largestByteValue then 0 else run.largestOccurrence;
      if |offsets| == 1 || occurrenceWeight > largest then
        var largestByteValue := match WeightOf(byteValueGroups, offset)
                                case Some(w) => w case None => run.largestByteValue;
        SimilarityRun(occurrenceWeight, byteValueWeight, occurrenceWeight, largestByteValue, offset)
      else
        SimilarityRun(occurrenceWeight, byteValueWeight, largest, run.largestByteValue, run.offset)
  }

  /** The similarity loop always selects one of the offsets it is given. */
  lemma {:induction false} SimilarityLoopSelectsListed(
    offsets: seq<int>, occurrenceGroups: seq<WeightGroup>, byteValueGroups: seq<WeightGroup>, current: int)
    requires |offsets| > 0
    ensures SimilarityLoop(offsets, occurrenceGroups, byteValueGroups, SimilarityRun(0, 0, 0, 0, current)).offset
            in offsets
    decreases |offsets|
  {
    var n := |offsets|;
    if n > 1 {
      var prefix := offsets[..n - 1];
      SimilarityLoopSelectsListed(prefix, occurrenceGroups, byteValueGroups, current);
      assert forall x :: x in prefix ==> x in offsets;
    }
  }

  /**
    * Without byte-value weights, the similarity loop never clears its
    * largest occurrence weight and selects what the occurrence loop would
    * select on the occurrence weights.
    */
  lemma {:induction false} SimilarityLoopWithoutByteValues(
    offsets: seq<int>, occurrenceGroups: seq<WeightGroup>, current: int)
    ensures var run := SimilarityLoop(offsets, occurrenceGroups, [], SimilarityRun(0, 0, 0, 0, current));
            var occurrence := OccurrenceLoop(offsets, occurrenceGroups, OccurrenceRun(false, 0, 0, current));
            && run.byteValueWeight == 0 && run.largestByteValue == 0
            && run.occurrenceWeight == occurrence.weight
            && run.largestOccurrence == occurrence.largest && run.offset == occurrence.offset
    decreases |offsets|
  {
    if offsets != [] {
      SimilarityLoopWithoutByteValues(offsets[..|offsets| - 1], occurrenceGroups, current);
      assert forall o :: WeightOf([], o) == None;
    }
  }

  /**
    * The similarity selector (`get_pattern_offset_by_similarity_weights`):
    * no offset of positive largest similarity weight falls back on the
    * occurrence selector; a single one is selected; among several, the
    * occurrence and byte-value weights decide, and the result is found.
    */
  function SimilaritySelection(
    similarity: PatternWeights, occurrence: PatternWeights, byteValue: PatternWeights, current: int)
    : (r: Result<Selection>)
    reads similarity, occurrence, byteValue
    ensures similarity.Ordered() && occurrence.Ordered() && byteValue.Ordered() ==> r.Ok?
  {
    match LargestOffsets(similarity)
    case Err(e) => Err(e)
    case Ok(offsets) =>
      if |offsets| == 0 then OccurrenceSelection(occurrence, byteValue, current)
      else if |offsets| == 1 then Ok(Selection(true, offsets[0]))
      else
        var run := SimilarityLoop(offsets, occurrence.weightGroups, byteValue.weightGroups,
                                  SimilarityRun(0, 0, 0, 0, current));
        Ok(Selection(true, run.offset))
  }

  /**
    * The most significant pattern offset of a table
    * (`get_most_significant_pattern_offset`), starting from offset 0: none
    * for no signatures; otherwise the byte-value, occurrence or similarity
    * selector for one, two or more signatures, and, when that finds
    * nothing, the offset of the first byte value group.
    */
  function MostSignificant(
    numberOfSignatures: nat, groups: seq<ByteValueGroup>,
    similarity: PatternWeights, occurrence: PatternWeights, byteValue: PatternWeights)
    : (r: Result<Selection>)
    reads similarity, occurrence, byteValue
    ensures numberOfSignatures == 0 ==> r == Ok(Selection(false, 0))
    ensures numberOfSignatures > 0 && r.Ok? ==> r.value.found
  {
    if numberOfSignatures == 0 then Ok(Selection(false, 0))
    else
      var selected :=
        if numberOfSignatures == 1 then ByteValueSelection(byteValue, 0)
        else if numberOfSignatures == 2 then OccurrenceSelection(occurrence, byteValue, 0)
        else SimilaritySelection(similarity, occurrence, byteValue, 0);
      match selected
      case Err(e) => Err(e)
      case Ok(s) =>
        if s.found then Ok(s)
        else if groups == [] then Err(ValueOutOfBounds)
        else Ok(Selection(true, groups[0].patternOffset))
  }

  /** The byte-value weights as the tree builder leaves them: empty. */
  predicate NoWeights(weights: PatternWeights)
    reads weights
  {
    weights.offsetGroups == [] && weights.weightGroups == []
  }

  /**
    * With no byte-value weights, the most significant offset of a table of
    * one signature is that of its first byte value group; of two signatures,
    * the only offset of largest occurrence weight, and the first byte value
    * group's offset when several tie (the occurrence selector then reports
    * its last, failed, byte-value lookup); of more signatures, the only
    * offset of largest similarity weight, or among several the first of
    * largest occurrence weight.
    */
  lemma MostSignificantWithoutByteValues(
    numberOfSignatures: nat, groups: seq<ByteValueGroup>,
    similarity: PatternWeights, occurrence: PatternWeights, byteValue: PatternWeights)
    requires similarity.Ordered() && occurrence.Ordered() && NoWeights(byteValue)
    requires numberOfSignatures > 0 && groups != []
    ensures var r := MostSignificant(numberOfSignatures, groups, similarity, occurrence, byteValue);
            var fallback := Ok(Selection(true, groups[0].patternOffset));
            var occurrenceOffsets := LargestOffsets(occurrence).value;
            var similarityOffsets := LargestOffsets(similarity).value;
            && (numberOfSignatures == 1 ==> r == fallback)
            && (numberOfSignatures == 2 ==>
                  r == if |occurrenceOffsets| == 1 then Ok(Selection(true, occurrenceOffsets[0])) else fallback)
            && (numberOfSignatures > 2 && |similarityOffsets| == 1 ==> r == Ok(Selection(true, similarityOffsets[0])))
            && (numberOfSignatures > 2 && similarityOffsets == [] ==>
                  r == if |occurrenceOffsets| == 1 then Ok(Selection(true, occurrenceOffsets[0])) else fallback)
            && (numberOfSignatures > 2 && |similarityOffsets| > 1 ==>
                  var weights := StickyWeights(similarityOffsets, occurrence.weightGroups);
                  && r.Ok? && r.value.found
                  && exists k :: FirstMaxAt(weights, k) && r.value.offset == similarityOffsets[k])
  {
    var occurrenceOffsets := LargestOffsets(occurrence).value;
    var similarityOffsets := LargestOffsets(similarity).value;
    if |occurrenceOffsets| > 1 {
      var run := OccurrenceLoop(occurrenceOffsets, [], OccurrenceRun(false, 0, 0, 0));
      OccurrenceLoopFirstMax(occurrenceOffsets, [], 0);
      assert !run.found;
    }
    if numberOfSignatures > 2 && |similarityOffsets| > 1 {
      SimilarityLoopWithoutByteValues(similarityOffsets, occurrence.weightGroups, 0);
      OccurrenceLoopFirstMax(similarityOffsets, occurrence.weightGroups, 0);
    }
  }
}
