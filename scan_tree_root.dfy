/**
  * The scan tree itself (libsigscan_scan_tree.c, `initialize`,
  * `fill_range_list`, `get_spanning_range` and `build`): the list of the
  * pattern ranges the signatures cover, the root node, the skip table and
  * the pattern offsets mode the tree was built for.
  */
module ScanTreeRoots {
  import opened Common
  import opened Signatures
  import opened SignatureTables
  import opened ScanTreeNodes
  import opened SkipTables
  import opened NodeBuilder

  /**
    * A range of the pattern range list: a start offset and a size, both
    * 64-bit unsigned values as the list stores them.
    */
  datatype Range = Range(start: nat, size: nat)

  /** The offset just past a range. */
  function End(range: Range): nat
  {
    range.start + range.size
  }

  /** The index of the first NULL signature of `views`; |views| when there is none. */
  function FirstNull(views: seq<Option<SignatureView>>): (k: nat)
    ensures k <= |views|
    ensures forall i :: 0 <= i < k ==> views[i].Some?
    ensures k < |views| ==> views[k].None?
  {
    if views == [] || views[0].None? then 0 else 1 + FirstNull(views[1..])
  }

  /**
    * The range `fill_range_list` inserts for one signature: its pattern
    * offset, converted to a 64-bit unsigned start, and its pattern size,
    * when its flags are taken in `mode`. A negative offset becomes a start
    * near 2^64.
    */
  function RangeOf(view: Option<SignatureView>, mode: OffsetMode): seq<Range>
  {
    match view
    case Some(v) => if Included(v.flags, mode) then [Range(Unsigned64(v.patternOffset), |v.pattern|)] else []
    case None => []
  }

  /** The ranges `fill_range_list` inserts for `views` in `mode`, in list order. */
  function ModeRanges(views: seq<Option<SignatureView>>, mode: OffsetMode): seq<Range>
  {
    if views == [] then [] else ModeRanges(views[..|views| - 1], mode) + RangeOf(views[|views| - 1], mode)
  }

  /** One more signature adds its own range, if any, after those of the ones before it. */
  lemma ModeRangesStep(views: seq<Option<SignatureView>>, j: nat, mode: OffsetMode)
    requires j < |views|
    ensures ModeRanges(views[..j + 1], mode) == ModeRanges(views[..j], mode) + RangeOf(views[j], mode)
  {
    assert views[..j + 1][..j] == views[..j];
  }

  /** The first NULL signature of a list is where a walk over its non-NULL prefix stops. */
  lemma FirstNullAt(list: seq<Signature?>, views: seq<Option<SignatureView>>, j: nat)
    requires views == Views(list) && j <= |list|
    requires forall i :: 0 <= i < j ==> list[i] != null
    requires j < |list| ==> list[j] == null
    ensures FirstNull(views) == j
    ensures null !in list <==> j == |list|
  {
    assert forall i :: 0 <= i < |list| ==> (views[i].None? <==> list[i] == null);
  }

  /**
    * A range is inserted for exactly the signatures the signature table
    * takes in the same mode: as many ranges as included signatures.
    */
  lemma {:induction false} ModeRangesCount(views: seq<Option<SignatureView>>, mode: OffsetMode)
    ensures |ModeRanges(views, mode)| == |IncludedSignatures(views, mode)|
  {
    if views != [] {
      ModeRangesCount(views[..|views| - 1], mode);
    }
  }

  /** In the unbound mode every signature inserts its own range, in list order. */
  lemma {:induction false} UnboundRangesAll(views: seq<Option<SignatureView>>)
    requires forall i :: 0 <= i < |views| ==> views[i].Some?
    ensures |ModeRanges(views, Unbound)| == |views|
    ensures forall i :: 0 <= i < |views| ==>
              ModeRanges(views, Unbound)[i] == Range(Unsigned64(views[i].value.patternOffset), |views[i].value.pattern|)
  {
    if views != [] {
      var last := |views| - 1;
      UnboundRangesAll(views[..last]);
      assert forall i :: 0 <= i < last ==> views[..last][i] == views[i];
    }
  }

  /**
    * Every range start is a 64-bit unsigned value, whatever the signs of the
    * pattern offsets, and so is the start of the spanning range.
    */
  lemma {:induction false} ModeRangesUnsigned(views: seq<Option<SignatureView>>, mode: OffsetMode)
    ensures forall i :: 0 <= i < |ModeRanges(views, mode)| ==> ModeRanges(views, mode)[i].start < UINT64_RANGE
    ensures ModeRanges(views, mode) != [] ==> Span(ModeRanges(views, mode)).value.start < UINT64_RANGE
  {
    if views != [] {
      ModeRangesUnsigned(views[..|views| - 1], mode);
    }
  }

  /**
    * The range spanning `ranges` (`get_spanning_range`): from the smallest
    * start to the largest end, both of which some range attains; none for
    * an empty list.
    */
  function Span(ranges: seq<Range>): (r: Option<Range>)
    ensures r.None? <==> ranges == []
    ensures r.Some? ==> forall i :: 0 <= i < |ranges| ==> r.value.start <= ranges[i].start && End(ranges[i]) <= End(r.value)
    ensures r.Some? ==> exists i :: 0 <= i < |ranges| && ranges[i].start == r.value.start
    ensures r.Some? ==> exists i :: 0 <= i < |ranges| && End(ranges[i]) == End(r.value)
  {
    if ranges == [] then None
    else
      var last := |ranges| - 1;
      assert forall i :: 0 <= i < last ==> ranges[..last][i] == ranges[i];
      match Span(ranges[..last])
      case None => Some(ranges[last])
      case Some(s) =>
        var start := if ranges[last].start < s.start then ranges[last].start else s.start;
        var end := if End(ranges[last]) > End(s) then End(ranges[last]) else End(s);
        Some(Range(start, end - start))
  }

  /** The total size of the patterns of `list`: a bound on the height of the tree built from it. */
  function PatternBytes(list: seq<Signature?>): nat
    reads list
  {
    if list == [] then 0
    else PatternBytes(list[..|list| - 1]) + if list[|list| - 1] == null then 0 else |list[|list| - 1].pattern|
  }

  class ScanTree {
    /** The pattern offsets mode of the last successful build. */
    var patternOffsetsMode: OffsetMode
    /** The pattern ranges inserted so far, in insertion order. */
    var ranges: seq<Range>
    /** The root node; NULL until a build succeeds. */
    var rootNode: ScanTreeNode?
    /** The skip table; NULL until a build succeeds. */
    var skipTable: SkipTable?
    /** The nodes of the tree under the root. */
    ghost var nodes: set<ScanTreeNode>

    /** A new tree (`initialize`): cleared, with an empty range list. */
    constructor ()
      ensures patternOffsetsMode == UnknownMode && ranges == []
      ensures rootNode == null && skipTable == null && nodes == {}
    {
      patternOffsetsMode := UnknownMode;
      ranges := [];
      rootNode := null;
      skipTable := null;
      nodes := {};
    }

    /**
      * Inserts the range of every signature of `list` taken in `mode`
      * (`fill_range_list`). An unknown mode is rejected before anything
      * changes; a NULL signature stops the walk with an error, after the
      * ranges of the signatures before it.
      */
    method FillRangeList(list: seq<Signature?>, mode: OffsetMode) returns (status: Status)
      modifies this`ranges
      ensures status.Success? <==> mode != UnknownMode && null !in list
      ensures mode == UnknownMode ==> status == Failure(UnsupportedValue) && ranges == old(ranges)
      ensures mode != UnknownMode && null in list ==> status == Failure(ValueMissing)
      ensures mode != UnknownMode ==>
                ranges == old(ranges) + ModeRanges(old(Views(list))[..FirstNull(old(Views(list)))], mode)
    {
      if mode == UnknownMode {
        return Failure(UnsupportedValue);
      }
      status := InsertRanges(list, Views(list), mode);
    }

    /** The signature loop of `fill_range_list`, over the signatures of `list` as `views` shows them. */
    method InsertRanges(list: seq<Signature?>, ghost views: seq<Option<SignatureView>>, mode: OffsetMode)
      returns (status: Status)
      requires views == Views(list)
      modifies this`ranges
      ensures status.Success? <==> null !in list
      ensures status.Failure? ==> status == Failure(ValueMissing)
      ensures ranges == old(ranges) + ModeRanges(views[..FirstNull(views)], mode)
    {
      var inserted: seq<Range> := [];
      var j := 0;
      while j < |list| && list[j] != null
        invariant 0 <= j <= |list|
        invariant forall i :: 0 <= i < j ==> list[i] != null
        invariant inserted == ModeRanges(views[..j], mode)
        invariant ranges == old(ranges)
      {
        var signature := list[j];
        ModeRangesStep(views, j, mode);
        assert views[j] == Some(SignatureView(signature, signature.flags, signature.patternOffset, signature.pattern));
        if Included(signature.flags, mode) {
          inserted := inserted + [Range(Unsigned64(signature.patternOffset), |signature.pattern|)];
        }
        j := j + 1;
      }
      FirstNullAt(list, views, j);
      ranges := ranges + inserted;
      if j < |list| {
        return Failure(ValueMissing);
      }
      status := Success;
    }

    /**
      * Builds the tree for the signatures of `list` bound as `mode` says
      * (`build`): Ok(true) once built, Ok(false) when no pattern range was
      * collected. The signature table is filled over the spanning range,
      * whose size is its start when bound to the end; the root is built
      * from it, which fails when a root exists; the skip table is filled
      * from every signature of the list; and the mode is recorded. An
      * error after the ranges were filled releases the skip table.
      */
    method Build(list: seq<Signature?>, mode: OffsetMode) returns (r: Result<bool>)
      requires forall s | s in list && s != null :: |s.pattern| > 0
      modifies this
      ensures mode == UnknownMode ==> r == Err(UnsupportedValue) && unchanged(this)
      ensures mode != UnknownMode ==>
                ranges == old(ranges) + ModeRanges(old(Views(list))[..FirstNull(old(Views(list)))], mode)
      ensures mode != UnknownMode && null in list ==> r == Err(OperationFailed)
      ensures r == Ok(false) <==> mode != UnknownMode && null !in list && ranges == []
      ensures r == Ok(false) ==> rootNode == old(rootNode) && skipTable == old(skipTable) && nodes == old(nodes)
      ensures ranges != [] && old(rootNode) != null ==> r.Err?
      ensures r != Ok(true) ==> patternOffsetsMode == old(patternOffsetsMode)
      ensures r.Err? && mode != UnknownMode ==> skipTable == null
      ensures r.Err? && rootNode != old(rootNode) ==> old(rootNode) == null && old(skipTable) != null
      ensures r == Ok(true) ==>
                && old(rootNode) == null && rootNode != null && rootNode in nodes && Tree(nodes)
                && patternOffsetsMode == mode
      ensures r == Ok(true) ==> skipTable != null && FilledFrom(skipTable, old(Patterns(list)))
    {
      if mode == UnknownMode {
        return Err(UnsupportedValue);
      }
      ghost var patterns := Patterns(list);
      var status := FillRangeList(list, mode);
      if status.Failure? {
        skipTable := null;
        return Err(OperationFailed);
      }
      if ranges == [] {
        return Ok(false);
      }
      var span := Span(ranges).value;
      var rangeSize := span.size;
      if mode == BoundToEnd {
        rangeSize := span.start;
      }
      var built, root;
      ghost var treeNodes;
      built, root, treeNodes := BuildRoot(list, mode, rangeSize);
      if built.Failure? {
        skipTable := null;
        return Err(OperationFailed);
      }
      rootNode, nodes := root, treeNodes;
      if skipTable != null {
        skipTable := null;
        return Err(OperationFailed);
      }
      skipTable := FilledSkipTable(list, patterns);
      patternOffsetsMode := mode;
      r := Ok(true);
    }

    /**
      * The root node built from a new signature table filled from `list`
      * with an empty ignore list; it fails when a root already exists.
      */
    method BuildRoot(list: seq<Signature?>, mode: OffsetMode, rangeSize: int)
      returns (status: Status, root: ScanTreeNode?, ghost built: set<ScanTreeNode>)
      requires mode != UnknownMode && null !in list
      ensures rootNode != null ==> status.Failure?
      ensures status.Success? ==> root != null && root in built && fresh(built) && Tree(built)
    {
      var table := new SignatureTable();
      var filled := table.Fill(list, [], mode, rangeSize);
      if rootNode != null {
        return Failure(ValueAlreadySet), null, {};
      }
      var chosen, groups, remaining;
      status, root, built, chosen, groups, remaining := BuildNode(table, [], mode, rangeSize, PatternBytes(list));
    }
  }

  /**
    * `table` is a fresh skip table filled from `patterns`: its sizes are
    * what the first loop of `fill` finds, its skip values what the second
    * loop leaves; for a non-empty list the sizes are the smallest and
    * largest pattern sizes and every skip value lies below the smallest.
    */
  ghost predicate FilledFrom(table: SkipTable, patterns: seq<seq<byte>>)
    reads table, table.skipValues
  {
    && table.Valid()
    && table.smallestPatternSize == SmallestAfter(0, patterns)
    && table.largestPatternSize == LargestAfter(0, patterns)
    && CoversWindow(patterns, table.smallestPatternSize)
    && table.skipValues[..] == SkipsAfter(NO_SKIPS, table.smallestPatternSize, patterns)
    && (patterns != [] ==>
          && table.smallestPatternSize == MinSize(patterns)
          && table.largestPatternSize == MaxSize(patterns)
          && forall b :: 0 <= b < 256 ==> table.skipValues[b] < table.smallestPatternSize)
  }

  /** A new skip table filled from `list`, every pattern of which is non-empty. */
  method FilledSkipTable(list: seq<Signature?>, ghost patterns: seq<seq<byte>>) returns (table: SkipTable)
    requires null !in list && patterns == Patterns(list)
    requires forall s | s in list && s != null :: |s.pattern| > 0
    ensures fresh(table) && fresh(table.skipValues) && FilledFrom(table, patterns)
  {
    table := new SkipTable();
    if list != [] {
      assert forall k :: 0 <= k < |patterns| ==> |patterns[k]| > 0 by {
        forall k | 0 <= k < |patterns|
          ensures |patterns[k]| > 0
        {
          assert list[k] in list;
        }
      }
      FreshFill(patterns);
    }
    // The list holds no NULL entry, so the fill cannot fail and its
    // status says nothing more than its ensures already do.
    var status := table.Fill(list);
    assert status.Success?;
  }
}
