/**
  * The skip table of the Boyer-Moore-Horspool style scan: per byte value the
  * distance from its occurrence in the first `smallest` pattern bytes to the
  * end of that window, plus the smallest and largest pattern sizes
  * (libsigscan_skip_table.c).
  */
module SkipTables {
  import opened Common
  import opened Signatures

  /** The pattern of every list entry, [] for a NULL entry. */
  ghost function Patterns(list: seq<Signature?>): (r: seq<seq<byte>>)
    reads list
    ensures |r| == |list|
    ensures forall i :: 0 <= i < |list| && list[i] != null ==> r[i] == list[i].pattern
  {
    seq(|list|, i requires 0 <= i < |list| reads list => if list[i] == null then [] else list[i].pattern)
  }

  /** One step of the largest-size loop: 0 counts as "not set yet". */
  function Widened(largest: nat, size: nat): nat
  {
    if largest == 0 || largest < size then size else largest
  }

  /** One step of the smallest-size loop: 0 counts as "not set yet". */
  function Narrowed(smallest: nat, size: nat): nat
  {
    if smallest == 0 || smallest > size then size else smallest
  }

  /** The largest pattern size after the first loop has seen `patterns`. */
  function LargestAfter(largest: nat, patterns: seq<seq<byte>>): nat
  {
    if |patterns| == 0 then largest
    else Widened(LargestAfter(largest, patterns[..|patterns| - 1]), |patterns[|patterns| - 1]|)
  }

  /** The smallest pattern size after the first loop has seen `patterns`. */
  function SmallestAfter(smallest: nat, patterns: seq<seq<byte>>): nat
  {
    if |patterns| == 0 then smallest
    else Narrowed(SmallestAfter(smallest, patterns[..|patterns| - 1]), |patterns[|patterns| - 1]|)
  }

  /**
    * Offers `skip` for `byteValue`: it replaces the stored value when that
    * is 0 (not set) or larger.
    */
  function Lowered(skips: seq<nat>, byteValue: byte, skip: nat): (r: seq<nat>)
    requires |skips| == 256
    ensures |r| == 256
  {
    if skips[byteValue] == 0 || skip < skips[byteValue] then skips[byteValue := skip] else skips
  }

  /**
    * The skip values after the first `count` bytes of `pattern` have been
    * offered; byte i offers `smallest - 1 - i`.
    */
  function PatternSkips(skips: seq<nat>, smallest: nat, pattern: seq<byte>, count: nat): (r: seq<nat>)
    requires |skips| == 256 && count <= smallest <= |pattern|
    ensures |r| == 256
  {
    if count == 0 then skips
    else Lowered(PatternSkips(skips, smallest, pattern, count - 1), pattern[count - 1], smallest - count)
  }

  /** Every pattern is at least `smallest` bytes long. */
  predicate CoversWindow(patterns: seq<seq<byte>>, smallest: nat)
  {
    forall k :: 0 <= k < |patterns| ==> smallest <= |patterns[k]|
  }

  /** The skip values after the second loop has seen `patterns`. */
  function SkipsAfter(skips: seq<nat>, smallest: nat, patterns: seq<seq<byte>>): (r: seq<nat>)
    requires |skips| == 256 && CoversWindow(patterns, smallest)
    ensures |r| == 256
  {
    if |patterns| == 0 then skips
    else
      var last := |patterns| - 1;
      PatternSkips(SkipsAfter(skips, smallest, patterns[..last]), smallest, patterns[last], smallest)
  }

  /** The largest of `patterns`' sizes, defined independently of the loop. */
  function MaxSize(patterns: seq<seq<byte>>): nat
    requires |patterns| > 0
  {
    var last := |patterns| - 1;
    if last == 0 then |patterns[0]|
    else if |patterns[last]| > MaxSize(patterns[..last]) then |patterns[last]| else MaxSize(patterns[..last])
  }

  /** The smallest of `patterns`' sizes, defined independently of the loop. */
  function MinSize(patterns: seq<seq<byte>>): nat
    requires |patterns| > 0
  {
    var last := |patterns| - 1;
    if last == 0 then |patterns[0]|
    else if |patterns[last]| < MinSize(patterns[..last]) then |patterns[last]| else MinSize(patterns[..last])
  }

  /** From a fresh table (size 0), the first loop finds the largest size. */
  lemma {:induction false} LargestIsMax(patterns: seq<seq<byte>>)
    requires |patterns| > 0
    ensures LargestAfter(0, patterns) == MaxSize(patterns)
    ensures forall k :: 0 <= k < |patterns| ==> |patterns[k]| <= LargestAfter(0, patterns)
  {
    var last := |patterns| - 1;
    if last > 0 {
      LargestIsMax(patterns[..last]);
      assert forall k :: 0 <= k < last ==> patterns[..last][k] == patterns[k];
    }
  }

  /**
    * From a fresh table, and with no empty pattern (0 would read as "not
    * set yet"), the first loop finds the smallest size.
    */
  lemma {:induction false} SmallestIsMin(patterns: seq<seq<byte>>)
    requires |patterns| > 0
    requires forall k :: 0 <= k < |patterns| ==> |patterns[k]| > 0
    ensures SmallestAfter(0, patterns) == MinSize(patterns)
    ensures forall k :: 0 <= k < |patterns| ==> SmallestAfter(0, patterns) <= |patterns[k]|
    ensures SmallestAfter(0, patterns) > 0
  {
    var last := |patterns| - 1;
    if last > 0 {
      assert forall k :: 0 <= k < last ==> patterns[..last][k] == patterns[k];
      SmallestIsMin(patterns[..last]);
    }
  }

  /** Offering candidates below `smallest` keeps every skip value below it. */
  lemma {:induction false} PatternSkipsBounded(skips: seq<nat>, smallest: nat, pattern: seq<byte>, count: nat)
    requires |skips| == 256 && count <= smallest <= |pattern|
    requires forall b :: 0 <= b < 256 ==> skips[b] < smallest
    ensures forall b :: 0 <= b < 256 ==> PatternSkips(skips, smallest, pattern, count)[b] < smallest
  {
    if count > 0 {
      PatternSkipsBounded(skips, smallest, pattern, count - 1);
    }
  }

  /** Every skip value stays below the smallest pattern size. */
  lemma {:induction false} SkipsBounded(skips: seq<nat>, smallest: nat, patterns: seq<seq<byte>>)
    requires |skips| == 256 && CoversWindow(patterns, smallest)
    requires forall b :: 0 <= b < 256 ==> skips[b] < smallest
    ensures forall b :: 0 <= b < 256 ==> SkipsAfter(skips, smallest, patterns)[b] < smallest
  {
    if |patterns| > 0 {
      var last := |patterns| - 1;
      SkipsBounded(skips, smallest, patterns[..last]);
      PatternSkipsBounded(SkipsAfter(skips, smallest, patterns[..last]), smallest, patterns[last], smallest);
    }
  }

  /**
    * A byte value changes only to a distance at which it occurs: to
    * `smallest - 1 - i` where byte i of the pattern is that value.
    */
  lemma {:induction false} PatternSkipsOrigin(skips: seq<nat>, smallest: nat, pattern: seq<byte>, count: nat, b: byte)
    requires |skips| == 256 && count <= smallest <= |pattern|
    ensures var v := PatternSkips(skips, smallest, pattern, count)[b];
            v == skips[b] || (v < smallest && pattern[smallest - 1 - v] == b)
    ensures (forall i :: 0 <= i < count ==> pattern[i] != b) ==>
            PatternSkips(skips, smallest, pattern, count)[b] == skips[b]
  {
    if count > 0 {
      PatternSkipsOrigin(skips, smallest, pattern, count - 1, b);
    }
  }

  /**
    * After the second loop a byte value holds its old skip value or the
    * distance of one of its occurrences in some pattern's window; a byte
    * value occurring in no window keeps its old value.
    */
  lemma {:induction false} SkipsOrigin(skips: seq<nat>, smallest: nat, patterns: seq<seq<byte>>, b: byte)
    requires |skips| == 256 && CoversWindow(patterns, smallest)
    ensures var v := SkipsAfter(skips, smallest, patterns)[b];
            v == skips[b] || (v < smallest && exists k :: 0 <= k < |patterns| && patterns[k][smallest - 1 - v] == b)
    ensures (forall k, i :: 0 <= k < |patterns| && 0 <= i < smallest ==> patterns[k][i] != b) ==>
            SkipsAfter(skips, smallest, patterns)[b] == skips[b]
  {
    if |patterns| > 0 {
      var last := |patterns| - 1;
      var before := SkipsAfter(skips, smallest, patterns[..last]);
      assert forall k :: 0 <= k < last ==> patterns[..last][k] == patterns[k];
      SkipsOrigin(skips, smallest, patterns[..last], b);
      PatternSkipsOrigin(before, smallest, patterns[last], smallest, b);
    }
  }

  /** The skip values of a new table. */
  const NO_SKIPS: seq<nat> := seq(256, _ => 0)

  class SkipTable {
    /** The largest pattern size seen by `fill`; 0 before. */
    var largestPatternSize: nat
    /** The smallest pattern size seen by `fill`; 0 before. */
    var smallestPatternSize: nat
    /** The skip value per byte value; 0 means "not set". */
    const skipValues: array<nat>

    /** The table has its 256 skip values. */
    predicate Valid()
    {
      skipValues.Length == 256
    }

    /** A new table: every skip value and both sizes 0 (`initialize`). */
    constructor ()
      ensures Valid() && fresh(skipValues)
      ensures skipValues[..] == NO_SKIPS
      ensures largestPatternSize == 0 && smallestPatternSize == 0
    {
      largestPatternSize := 0;
      smallestPatternSize := 0;
      skipValues := new nat[256](_ => 0);
    }

    /**
      * Fills the table from the signatures list (`fill`): first the size
      * bounds, then the skip values. A NULL entry is an error. The C code
      * reads the first `smallest` bytes of every pattern, so no pattern may
      * be shorter than the smallest size the first loop ends with.
      */
    method Fill(list: seq<Signature?>) returns (status: Status)
      requires Valid()
      requires null !in list ==> CoversWindow(Patterns(list), SmallestAfter(smallestPatternSize, Patterns(list)))
      modifies this, skipValues
      ensures Valid()
      ensures status.Success? <==> null !in list
      ensures !status.Success? ==> status == Failure(ValueMissing)
      ensures status.Success? ==>
              && largestPatternSize == LargestAfter(old(largestPatternSize), Patterns(list))
              && smallestPatternSize == SmallestAfter(old(smallestPatternSize), Patterns(list))
              && skipValues[..] == SkipsAfter(old(skipValues[..]), smallestPatternSize, Patterns(list))
    {
      ghost var patterns := Patterns(list);
      status := FillSizes(list, patterns);
      if status.Success? {
        FillSkips(list, patterns);
      }
    }

    /** The first loop of `fill`: the largest and smallest pattern sizes. */
    method FillSizes(list: seq<Signature?>, ghost patterns: seq<seq<byte>>) returns (status: Status)
      requires patterns == Patterns(list)
      modifies this`largestPatternSize, this`smallestPatternSize
      ensures status.Success? <==> null !in list
      ensures !status.Success? ==> status == Failure(ValueMissing)
      ensures status.Success? ==>
              && largestPatternSize == LargestAfter(old(largestPatternSize), patterns)
              && smallestPatternSize == SmallestAfter(old(smallestPatternSize), patterns)
    {
      var j := 0;
      while j < |list|
        invariant 0 <= j <= |list| && null !in list[..j]
        invariant largestPatternSize == LargestAfter(old(largestPatternSize), patterns[..j])
        invariant smallestPatternSize == SmallestAfter(old(smallestPatternSize), patterns[..j])
      {
        var signature := list[j];
        if signature == null {
          assert list[j] in list;
          return Failure(ValueMissing);
        }
        assert patterns[..j + 1][..j] == patterns[..j];
        largestPatternSize := Widened(largestPatternSize, |signature.pattern|);
        smallestPatternSize := Narrowed(smallestPatternSize, |signature.pattern|);
        j := j + 1;
      }
      assert patterns[..j] == patterns;
      assert list[..j] == list;
      status := Success;
    }

    /** The second loop of `fill`: offers every pattern's window to the skip values. */
    method FillSkips(list: seq<Signature?>, ghost patterns: seq<seq<byte>>)
      requires Valid() && null !in list && patterns == Patterns(list)
      requires CoversWindow(patterns, smallestPatternSize)
      modifies skipValues
      ensures skipValues[..] == SkipsAfter(old(skipValues[..]), smallestPatternSize, patterns)
    {
      var j := 0;
      while j < |list|
        invariant 0 <= j <= |list|
        invariant skipValues[..] == SkipsAfter(old(skipValues[..]), smallestPatternSize, patterns[..j])
      {
        assert patterns[..j + 1][..j] == patterns[..j];
        assert list[j] in list;
        LowerPattern(list[j].pattern, skipValues[..]);
        j := j + 1;
      }
      assert patterns[..j] == patterns;
    }

    /** The inner loop of `fill`: offers the first `smallest` bytes of `pattern`. */
    method LowerPattern(pattern: seq<byte>, ghost before: seq<nat>)
      requires Valid() && skipValues[..] == before && smallestPatternSize <= |pattern|
      modifies skipValues
      ensures skipValues[..] == PatternSkips(before, smallestPatternSize, pattern, smallestPatternSize)
    {
      var skipValue := smallestPatternSize;
      var i := 0;
      while i < smallestPatternSize
        invariant 0 <= i <= smallestPatternSize && skipValue == smallestPatternSize - i
        invariant skipValues[..] == PatternSkips(before, smallestPatternSize, pattern, i)
      {
        skipValue := skipValue - 1;
        var byteValue := pattern[i];
        if skipValues[byteValue] == 0 || skipValue < skipValues[byteValue] {
          skipValues[byteValue] := skipValue;
        }
        i := i + 1;
      }
    }

    /**
      * The skip value for `byteValue` (`get_skip_value`): the stored value,
      * or the smallest pattern size when none is stored.
      */
    function GetSkipValue(byteValue: byte): (skip: nat)
      requires Valid()
      reads this, skipValues
      ensures skipValues[byteValue] == 0 ==> skip == smallestPatternSize
      ensures skipValues[byteValue] != 0 ==> skip == skipValues[byteValue]
      ensures 0 < smallestPatternSize && skipValues[byteValue] < smallestPatternSize ==>
              0 < skip <= smallestPatternSize
    {
      if skipValues[byteValue] == 0 then smallestPatternSize else skipValues[byteValue]
    }
  }

  /**
    * A fresh table filled from non-empty patterns: the sizes are the minimum
    * and the maximum, every pattern holds a whole window of the smallest
    * size, and every skip value lies below the smallest size, so that every
    * skip the scan takes is between 1 and the smallest size.
    */
  lemma FreshFill(patterns: seq<seq<byte>>)
    requires |patterns| > 0
    requires forall k :: 0 <= k < |patterns| ==> |patterns[k]| > 0
    ensures SmallestAfter(0, patterns) == MinSize(patterns) && LargestAfter(0, patterns) == MaxSize(patterns)
    ensures CoversWindow(patterns, SmallestAfter(0, patterns))
    ensures forall b :: 0 <= b < 256 ==>
              SkipsAfter(NO_SKIPS, SmallestAfter(0, patterns), patterns)[b] < SmallestAfter(0, patterns)
  {
    SmallestIsMin(patterns);
    LargestIsMax(patterns);
    SkipsBounded(NO_SKIPS, SmallestAfter(0, patterns), patterns);
  }
}
