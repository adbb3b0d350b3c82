/**
  * The scanner (libsigscan_scanner.c): the signatures registered with it,
  * the header and footer scan trees it builds from them once, and the scan
  * of a file, which reads the buffer-aligned byte range each tree's
  * patterns can lie in and feeds it to a scan state chunk by chunk.
  */
module Scanners {
  import opened Common
  import opened Signatures
  import opened SignatureTables
  import opened ScanTreeRoots
  import opened SkipTables
  import opened ScanStates

  /**
    * LIBSIGSCAN_DEFAULT_SCAN_BUFFER_SIZE. Its definition is not part of
    * this model; nothing here depends on its value beyond it being a valid
    * scan buffer size.
    */
  const DEFAULT_SCAN_BUFFER_SIZE: nat := 16 * 1024 * 1024

  /** The smallest pattern size `add_signature` accepts. */
  const MINIMUM_PATTERN_SIZE: nat := 4

  /** A range of file bytes to read: a start offset and a size. */
  datatype ReadRange = ReadRange(start: nat, size: nat)

  /** A multiple of `unit` leaves no remainder and divides back exactly. */
  lemma MultipleDivides(q: nat, unit: nat)
    requires 0 < unit
    ensures (q * unit) % unit == 0 && (q * unit) / unit == q
  {
    var x := q * unit;
    var k := q - x / unit;
    assert x == (x / unit) * unit + x % unit;
    assert x % unit == k * unit by { assert q * unit - (x / unit) * unit == (q - x / unit) * unit; }
    assert k == 0 by {
      assert k >= 1 ==> k * unit >= unit;
      assert k <= -1 ==> k * unit + unit <= 0;
    }
  }

  /** `value` rounded down to a multiple of `unit`. */
  function RoundDown(value: nat, unit: nat): (r: nat)
    requires 0 < unit
    ensures r % unit == 0 && r <= value < r + unit
  {
    MultipleDivides(value / unit, unit);
    (value / unit) * unit
  }

  /** `value` rounded up to a multiple of `unit`, as the scan computes it. */
  function RoundUp(value: nat, unit: nat): (r: nat)
    requires 0 < unit
    ensures r % unit == 0 && value <= r < value + unit
  {
    var q := value / unit + (if value % unit != 0 then 1 else 0);
    MultipleDivides(q, unit);
    assert value == (value / unit) * unit + value % unit;
    assert q * unit == (value / unit) * unit + (if value % unit != 0 then unit else 0);
    q * unit
  }

  /**
    * A size clamped so that the range from `start` does not run past the
    * end of a file of `fileSize` bytes; the 64-bit subtraction wraps when
    * `start` itself lies past the end.
    */
  function Clamped(start: nat, size: nat, fileSize: nat): (r: nat)
    requires fileSize < UINT64_RANGE
    ensures start <= fileSize ==> start + r <= fileSize
    ensures start + size <= fileSize ==> r == size
    ensures start <= fileSize && start + size > fileSize ==> start + r == fileSize
  {
    if size > fileSize || start > fileSize - size then Unsigned64(fileSize - start) else size
  }

  /**
    * The read range of a spanning range as the scan of a file computes it:
    * the start is rounded down to a multiple of the buffer size, the size
    * is rounded up to one, and the size is clamped to the end of the file.
    * Because the size is rounded from the range's own size and not from its
    * end, the read range misses the end of a range that does not start on
    * a buffer boundary.
    */
  function AlignedRangeAsWritten(rangeStart: nat, rangeSize: nat, bufferSize: nat, fileSize: nat)
    : (r: ReadRange)
    requires 0 < bufferSize && fileSize < UINT64_RANGE
    ensures r.start % bufferSize == 0 && r.start <= rangeStart < r.start + bufferSize
    ensures r.start <= fileSize ==> r.start + r.size <= fileSize
    ensures r.start + RoundUp(rangeSize, bufferSize) <= fileSize ==>
              r.size % bufferSize == 0 && rangeSize <= r.size < rangeSize + bufferSize
  {
    var start := RoundDown(rangeStart, bufferSize);
    ReadRange(start, Clamped(start, RoundUp(rangeSize, bufferSize), fileSize))
  }

  /**
    * A pattern range of 4 bytes at offset 6, read with 4-byte buffers in a
    * 100-byte file: the read range is bytes 4 to 8, which leaves out the
    * range's last 2 bytes.
    */
  lemma AlignedRangeMissesEnd()
    ensures AlignedRangeAsWritten(6, 4, 4, 100) == ReadRange(4, 4)
    ensures var r := AlignedRangeAsWritten(6, 4, 4, 100); r.start + r.size < 6 + 4 <= 100
  {
    assert RoundDown(6, 4) == 4;
    assert RoundUp(4, 4) == 4;
  }

  /**
    * The read range of a spanning range as evidently intended: the start
    * is rounded down and the END is rounded up to a multiple of the buffer
    * size, so that the read range holds the whole spanning range, and the
    * size is clamped to the end of the file.
    */
  function AlignedRange(rangeStart: nat, rangeSize: nat, bufferSize: nat, fileSize: nat)
    : (r: ReadRange)
    requires 0 < bufferSize && fileSize < UINT64_RANGE
    ensures r.start % bufferSize == 0 && r.start <= rangeStart < r.start + bufferSize
    ensures r.start <= fileSize ==> r.start + r.size <= fileSize
    ensures rangeStart + rangeSize <= fileSize ==> rangeStart + rangeSize <= r.start + r.size
    ensures r.start + r.size < fileSize ==> r.size % bufferSize == 0
  {
    var start := RoundDown(rangeStart, bufferSize);
    var size := RoundUp(rangeStart + rangeSize - start, bufferSize);
    ReadRange(start, Clamped(start, size, fileSize))
  }

  /** The bytes of `chunks` one after the other. */
  function Concat(chunks: seq<seq<byte>>): seq<byte>
  {
    if chunks == [] then [] else Concat(chunks[..|chunks| - 1]) + chunks[|chunks| - 1]
  }

  /**
    * Chunks as a read loop produces them: none is empty or larger than
    * `size`, and all but the last are exactly `size` bytes.
    */
  ghost predicate ChunkedBy(chunks: seq<seq<byte>>, size: nat)
  {
    && (forall i | 0 <= i < |chunks| :: 0 < |chunks[i]| <= size)
    && (forall i | 0 <= i < |chunks| - 1 :: |chunks[i]| == size)
  }

  /**
    * A scan tree the scan can start with: its skip table, once there is
    * one, has an entry per byte value.
    */
  ghost predicate Usable(tree: ScanTree?)
    reads tree
  {
    tree != null && tree.skipTable != null ==> tree.skipTable.Valid()
  }

  /**
    * A tree built from `list` in `mode`: it holds the range of every
    * signature the mode includes, in list order, and it has a root node
    * and a skip table, and was built for the mode, exactly when there is
    * at least one such range.
    */
  ghost predicate BuiltFrom(tree: ScanTree, views: seq<Option<SignatureView>>, mode: OffsetMode)
    reads tree
  {
    && tree.ranges == ModeRanges(views, mode)
    && (tree.ranges == [] <==> tree.rootNode == null)
    && (tree.ranges == [] <==> tree.skipTable == null)
    && (tree.ranges != [] ==> tree.patternOffsetsMode == mode)
  }

  /**
    * The read range for the pattern ranges of a tree: none when there are
    * no ranges, otherwise the spanning range, taken as 64-bit unsigned
    * values, aligned to the buffer size as the scan of a file aligns it
    * and clamped to the file. The read range starts at or before every
    * pattern range, less than a buffer before the spanning range; when it
    * is not clamped its size is the spanning range's size rounded up,
    * which need not reach the end of the spanning range.
    */
  function ReadRangeOf(ranges: seq<Range>, bufferSize: nat, fileSize: nat): (r: Option<ReadRange>)
    requires 0 < bufferSize && fileSize < UINT64_RANGE
    ensures r.None? <==> ranges == []
    ensures r.Some? && r.value.start <= fileSize ==> r.value.start + r.value.size <= fileSize
    ensures r.Some? ==> r.value.start % bufferSize == 0
    ensures r.Some? && Span(ranges).value.start < UINT64_RANGE ==>
              && r.value.start <= Span(ranges).value.start < r.value.start + bufferSize
              && forall i :: 0 <= i < |ranges| ==> r.value.start <= ranges[i].start
    ensures r.Some? && Span(ranges).value.size < UINT64_RANGE &&
            r.value.start + RoundUp(Span(ranges).value.size, bufferSize) <= fileSize ==>
              && r.value.size % bufferSize == 0
              && Span(ranges).value.size <= r.value.size < Span(ranges).value.size + bufferSize
  {
    match Span(ranges)
    case None => None
    case Some(span) =>
      Some(AlignedRangeAsWritten(Unsigned64(span.start), Unsigned64(span.size), bufferSize, fileSize))
  }

  /** The read range of `ReadRangeOf` as evidently intended, with `AlignedRange`. */
  function IntendedReadRangeOf(ranges: seq<Range>, bufferSize: nat, fileSize: nat): (r: Option<ReadRange>)
    requires 0 < bufferSize && fileSize < UINT64_RANGE
    ensures r.None? <==> ranges == []
    ensures r.Some? && r.value.start <= fileSize ==> r.value.start + r.value.size <= fileSize
    ensures r.Some? && End(Span(ranges).value) <= fileSize ==>
              forall i :: 0 <= i < |ranges| ==>
                r.value.start <= ranges[i].start && End(ranges[i]) <= r.value.start + r.value.size
  {
    match Span(ranges)
    case None => None
    case Some(span) => Some(AlignedRange(Unsigned64(span.start), Unsigned64(span.size), bufferSize, fileSize))
  }

  /**
    * `chunks` are the whole read range `range` of `file`, when there is
    * one, read in order: the range lies in the file and the chunks put
    * together are its bytes.
    */
  ghost predicate Read(file: seq<byte>, chunks: seq<seq<byte>>, range: Option<ReadRange>)
  {
    match range
    case None => chunks == []
    case Some(r) => 0 < r.size ==> r.start + r.size <= |file| && Concat(chunks) == file[r.start..r.start + r.size]
  }

  /** `pattern` occurs in `data` at offset `p`. */
  ghost predicate MatchesAt(data: seq<byte>, p: nat, pattern: seq<byte>)
  {
    p + |pattern| <= |data| && forall i :: 0 <= i < |pattern| ==> data[p + i] == pattern[i]
  }

  /** The pattern of the signature of `result` occurs in `data` within `from` to `to`. */
  ghost predicate FoundIn(result: ScanResult, data: seq<byte>, from: nat, to: nat)
    reads result.signature
  {
    exists p: nat :: from <= p && p + |result.signature.pattern| <= to && MatchesAt(data, p, result.signature.pattern)
  }

  /**
    * A result found in a chunk read from `file` at `offset` is found in
    * the file, within any window holding the chunk.
    */
  lemma FoundInChunk(result: ScanResult, chunk: seq<byte>, base: int, file: seq<byte>, offset: nat, from: nat, to: nat)
    requires offset + |chunk| <= |file| && chunk == file[offset..offset + |chunk|]
    requires from <= offset && offset + |chunk| <= to
    requires Found(result, chunk, base)
    ensures FoundIn(result, file, from, to)
  {
    var pattern := result.signature.pattern;
    var p: nat := offset + (result.offset - base);
    forall i | 0 <= i < |pattern|
      ensures file[p + i] == pattern[i]
    {
      assert chunk[result.offset - base + i] == pattern[i];
    }
    assert MatchesAt(file, p, pattern);
  }

  /** Appending the next chunk of a read extends the bytes read so far. */
  lemma ChunksStep(chunks: seq<seq<byte>>, file: seq<byte>, start: nat, offset: nat, size: nat)
    requires start <= offset && offset + size <= |file|
    requires chunks == [] ==> offset == start
    requires chunks != [] ==> Concat(chunks) == file[start..offset]
    ensures Concat(chunks + [file[offset..offset + size]]) == file[start..offset + size]
  {
    var chunk := file[offset..offset + size];
    var next := chunks + [chunk];
    assert next[..|next| - 1] == chunks;
    assert Concat(next) == Concat(chunks) + chunk;
    assert file[start..offset + size] == file[start..offset] + chunk;
  }

  /**
    * A chunk of at most a buffer's size fed to a scan that carried nothing
    * leaves the scan carrying nothing if it filled the buffer, and the
    * whole chunk otherwise.
    */
  lemma CarryStep(state: ScanState, file: seq<byte>, offset: nat, size: nat)
    requires 0 < size <= state.bufferSize && offset + size <= |file|
    requires state.Carried(file[offset..offset + size], 0)
    ensures size == state.bufferSize ==> state.bufferDataSize == 0
    ensures CarriesTail(state, file, offset + size)
  {
    var chunk := file[offset..offset + size];
    assert |chunk| == size;
    if size < state.bufferSize {
      ModBelow(size, state.bufferSize);
      assert state.bufferDataSize == size;
      assert chunk[|chunk| - state.bufferDataSize..] == chunk;
      assert state.buffer[..state.bufferDataSize] == file[offset + size - state.bufferDataSize..offset + size];
    } else {
      ModBelow(0, state.bufferSize);
      assert size % state.bufferSize == 0;
    }
  }

  /** A remainder below the divisor is the number itself. */
  lemma ModBelow(a: nat, b: nat)
    requires a < b
    ensures a % b == a && (a + b) % b == a
  {
  }

  /** A result found in a window is found in any window around it. */
  lemma FoundInWider(result: ScanResult, data: seq<byte>, from: nat, to: nat, from': nat, to': nat)
    requires FoundIn(result, data, from, to) && from' <= from && to <= to'
    ensures FoundIn(result, data, from', to')
  {
  }

  /**
    * The scan buffer of `state` starts with the `end` bytes of `file`
    * that come last before `end`, as many as it carries over.
    */
  ghost predicate CarriesTail(state: ScanState, file: seq<byte>, end: nat)
    reads state, state.buffer
  {
    && state.buffer != null && state.bufferDataSize <= state.buffer.Length
    && state.bufferDataSize <= end <= |file|
    && state.buffer[..state.bufferDataSize] == file[end - state.bufferDataSize..end]
  }

  /**
    * The pattern of the signature of `result`, at the signature's pattern
    * offset, starts within the first `carried` bytes of a buffer and runs
    * past them.
    */
  ghost predicate Overruns(result: ScanResult, carried: nat)
    reads result.signature
  {
    result.signature.patternOffset < carried < result.signature.patternOffset + |result.signature.pattern|
  }

  /**
    * A result a stop finds in a scan buffer whose first `carried` bytes
    * are the last bytes of the file before `end` either lies in the file
    * or starts within those bytes and runs past them.
    */
  lemma FoundInTail(result: ScanResult, buffer: seq<byte>, base: int, carried: nat, file: seq<byte>, end: nat)
    requires Found(result, buffer, base) && result.offset - base < carried
    requires carried <= end <= |file| && carried <= |buffer|
    requires buffer[..carried] == file[end - carried..end]
    ensures FoundIn(result, file, 0, |file|) || Overruns(result, carried)
  {
    var at := result.offset - base;
    var pattern := result.signature.pattern;
    if at + |pattern| <= carried {
      var p: nat := end - carried + at;
      forall i | 0 <= i < |pattern|
        ensures file[p + i] == pattern[i]
      {
        assert buffer[..carried][at + i] == file[end - carried..end][at + i];
      }
      assert MatchesAt(file, p, pattern);
    }
  }

  class Scanner {
    /** The size of the scan buffer a scan is started with. */
    var bufferSize: nat
    /** The signatures added so far, in order. */
    var signatures: seq<Signature>
    /** The tree of the signatures bound to the start of the data; NULL until a scan starts. */
    var headerTree: ScanTree?
    /** The tree of the signatures bound to the end of the data; NULL until a scan starts. */
    var footerTree: ScanTree?

    /**
      * The buffer size is one a scan state accepts, every signature has a
      * pattern of at least the minimum size, and both trees are usable.
      */
    ghost predicate Valid()
      reads this, signatures, headerTree, footerTree
    {
      && 0 < bufferSize <= SSIZE_MAX
      && (forall i :: 0 <= i < |signatures| ==> |signatures[i].pattern| >= MINIMUM_PATTERN_SIZE)
      && Usable(headerTree) && Usable(footerTree)
    }

    /** A new scanner (`initialize`): no signatures, no trees, the default buffer size. */
    constructor ()
      ensures Valid()
      ensures bufferSize == DEFAULT_SCAN_BUFFER_SIZE && signatures == []
      ensures headerTree == null && footerTree == null
    {
      bufferSize := DEFAULT_SCAN_BUFFER_SIZE;
      signatures := [];
      headerTree := null;
      footerTree := null;
    }

    /** Sets the scan buffer size (`set_scan_buffer_size`): it must be positive and fit a ssize_t. */
    method SetScanBufferSize(size: nat) returns (status: Status)
      requires Valid()
      modifies this`bufferSize
      ensures Valid()
      ensures status.Success? <==> 0 < size <= SSIZE_MAX
      ensures status.Failure? ==> status == Failure(ValueOutOfBounds)
      ensures bufferSize == if status.Success? then size else old(bufferSize)
    {
      if size == 0 || size > SSIZE_MAX {
        return Failure(ValueOutOfBounds);
      }
      bufferSize := size;
      return Success;
    }

    /**
      * Adds a signature (`add_signature`). Signatures can only be added
      * before the first scan builds the trees, and their patterns must be
      * at least 4 bytes; a new signature set from the arguments is
      * appended, and a signature that cannot be set is dropped.
      */
    method AddSignature(
      identifier: Option<seq<byte>>, identifierLength: nat, patternOffset: int,
      pattern: Option<seq<byte>>, patternSize: nat, flags: bv32)
      returns (status: Status)
      requires Valid()
      requires identifier.Some? ==> identifierLength <= |identifier.value|
      requires identifier.Some? && 0 < identifierLength <= SSIZE_MAX
               && identifier.value[identifierLength - 1] != 0
               ==> identifierLength < |identifier.value|
      requires pattern.Some? ==> patternSize <= |pattern.value|
      modifies this`signatures
      ensures Valid()
      ensures status.Success? <==>
              && headerTree == null && footerTree == null && patternSize >= MINIMUM_PATTERN_SIZE
              && SetArgumentsValid(identifier, identifierLength, pattern, patternSize, flags)
      ensures headerTree != null || footerTree != null ==> status == Failure(ValueAlreadySet)
      ensures headerTree == null && footerTree == null && patternSize < MINIMUM_PATTERN_SIZE ==>
              status == Failure(ValueTooSmall)
      ensures status.Failure? ==> signatures == old(signatures)
      ensures status.Success? ==>
              && |signatures| == |old(signatures)| + 1
              && signatures[..|old(signatures)|] == old(signatures)
              && var added := signatures[|old(signatures)|];
                 && fresh(added) && added.patternOffset == patternOffset
                 && added.pattern == pattern.value[..patternSize] && added.flags == flags
    {
      if headerTree != null || footerTree != null {
        return Failure(ValueAlreadySet);
      }
      if patternSize < MINIMUM_PATTERN_SIZE {
        return Failure(ValueTooSmall);
      }
      var signature := new Signature();
      status := signature.Set(identifier, identifierLength, patternOffset, pattern, patternSize, flags);
      if status.Failure? {
        return Failure(OperationFailed);
      }
      signatures := signatures + [signature];
    }
  
    /**
      * A new tree built from the signatures in `mode`, as `scan_start`
      * builds each missing tree; a tree whose build fails is freed, which
      * leaves none.
      */
    method NewTree(mode: OffsetMode) returns (tree: ScanTree?)
      requires Valid() && mode != UnknownMode
      ensures tree != null ==> fresh(tree) && BuiltFrom(tree, Views(signatures), mode) && Usable(tree)
    {
      tree := new ScanTree();
      ghost var views := Views(signatures);
      FirstNullAt(signatures, views, |signatures|);
      assert views[..|views|] == views;
      var r := tree.Build(signatures, mode);
      assert Views(signatures) == views;
      if r.Err? {
        tree := null;
      } else if r.value {
        assert r == Ok(true);
      } else {
        assert r == Ok(false);
      }
    }

    /**
      * Builds the trees a scan starts with: the header tree from the
      * signatures bound to the start and the footer tree from those bound
      * to the end, each only when it does not exist yet. A failed build
      * leaves its tree missing and skips the footer tree.
      */
    method BuildTrees() returns (built: bool)
      requires Valid()
      modifies this`headerTree, this`footerTree
      ensures Valid()
      ensures built <==> headerTree != null && footerTree != null
      ensures old(headerTree) != null ==> headerTree == old(headerTree)
      ensures old(footerTree) != null ==> footerTree == old(footerTree)
      ensures old(headerTree) == null && headerTree != null ==>
                fresh(headerTree) && BuiltFrom(headerTree, Views(signatures), BoundToStart)
      ensures old(footerTree) == null && footerTree != null ==>
                fresh(footerTree) && BuiltFrom(footerTree, Views(signatures), BoundToEnd)
    {
      BuildHeaderTree();
      if headerTree == null {
        return false;
      }
      BuildFooterTree();
      return footerTree != null;
    }

    /** The header half of `BuildTrees`: the header tree, built when it does not exist yet. */
    method BuildHeaderTree()
      requires Valid()
      modifies this`headerTree
      ensures Valid()
      ensures old(headerTree) != null ==> headerTree == old(headerTree)
      ensures old(headerTree) == null && headerTree != null ==>
                fresh(headerTree) && BuiltFrom(headerTree, Views(signatures), BoundToStart)
    {
      if headerTree == null {
        headerTree := NewTree(BoundToStart);
      }
    }

    /** The footer half of `BuildTrees`: the footer tree, built when it does not exist yet. */
    method BuildFooterTree()
      requires Valid()
      modifies this`footerTree
      ensures Valid()
      ensures old(footerTree) != null ==> footerTree == old(footerTree)
      ensures old(footerTree) == null && footerTree != null ==>
                fresh(footerTree) && BuiltFrom(footerTree, Views(signatures), BoundToEnd)
    {
      if footerTree == null {
        footerTree := NewTree(BoundToEnd);
      }
    }

    /**
      * Starts a scan (`scan_start`): the missing trees are built and the
      * scan state is started with the header tree and the scan buffer size.
      */
    method ScanStart(state: ScanState) returns (status: Status)
      requires Valid() && state.Valid()
      modifies this`headerTree, this`footerTree, state
      ensures Valid() && state.Valid()
      ensures old(headerTree) != null ==> headerTree == old(headerTree)
      ensures old(footerTree) != null ==> footerTree == old(footerTree)
      ensures old(headerTree) == null && headerTree != null ==>
                fresh(headerTree) && BuiltFrom(headerTree, Views(signatures), BoundToStart)
      ensures old(footerTree) == null && footerTree != null ==>
                fresh(footerTree) && BuiltFrom(footerTree, Views(signatures), BoundToEnd)
      ensures status.Success? <==>
                && headerTree != null && footerTree != null
                && old(state.phase) != Started && old(state.buffer) == null && state.dataSize != 0
      ensures status.Failure? ==> status == Failure(OperationFailed) && unchanged(state)
      ensures status.Success? ==>
                && state.phase == Started && state.scanTree == headerTree
                && state.activeNode == headerTree.rootNode
                && fresh(state.buffer) && state.bufferSize == bufferSize
                && state.bufferDataSize == 0 && state.scannedDataSize == 0
                && state.dataSize == old(state.dataSize) && state.results == old(state.results)
    {
      var built := BuildTrees();
      if !built {
        return Failure(OperationFailed);
      }
      ghost var views := Views(signatures);
      status := state.Start(headerTree, bufferSize);
      assert Views(signatures) == views;
      if status.Failure? {
        return Failure(OperationFailed);
      }
    }

    /**
      * Stops a scan (`scan_stop`) with the scan state's stop as it is
      * written: the bytes still carried over are scanned and the scan
      * buffer is released, so a scan with nothing carried over does not
      * stop. What the stop finds starts within the carried-over bytes.
      */
    method ScanStop(state: ScanState, nodeScan: NodeScan) returns (status: Status)
      requires state.Valid()
      modifies state`phase, state`buffer, state`bufferSize, state`activeNode, state`results
      ensures state.Valid()
      ensures old(state.phase) != Started ==> status.Failure?
      ensures old(state.phase) == Started && state.bufferDataSize == 0 ==> status.Failure?
      ensures status.Success? ==> state.Released()
      ensures status.Failure? ==> status == Failure(OperationFailed) && state.phase == old(state.phase)
      ensures |old(state.results)| <= |state.results|
      ensures state.results[..|old(state.results)|] == old(state.results)
      ensures old(state.phase) == Started ==>
                forall k | |old(state.results)| <= k < |state.results| ::
                  && Found(state.results[k], old(state.buffer[..]), state.scannedDataSize - state.bufferDataSize)
                  && state.results[k].offset - (state.scannedDataSize - state.bufferDataSize) < state.bufferDataSize
    {
      status := state.StopAsWritten(nodeScan);
      if status.Failure? {
        return Failure(OperationFailed);
      }
    }

    /**
      * Scans a chunk of the data (`scan_buffer`) with the scan state; a
      * scan state that reports the data as already scanned is an error
      * here too.
      */
    method ScanBuffer(state: ScanState, nodeScan: NodeScan, data: seq<byte>) returns (status: Status)
      requires state.Valid()
      modifies state`scannedDataSize, state`bufferDataSize, state`activeNode, state`results, state.buffer
      ensures state.Valid()
      ensures old(state.phase) != Started || old(state.scannedDataSize) > state.dataSize ==> status.Failure?
      ensures status.Failure? ==> status == Failure(OperationFailed)
      ensures status.Success? ==>
                && state.phase == Started
                && state.scannedDataSize ==
                   old(state.scannedDataSize) + Consumed(old(state.scannedDataSize), state.dataSize, |data|)
      ensures |old(state.results)| <= |state.results|
      ensures state.results[..|old(state.results)|] == old(state.results)
      ensures forall k | |old(state.results)| <= k < |state.results| ::
                Found(state.results[k], data, old(state.scannedDataSize) - old(state.bufferDataSize))
    {
      var r := state.ScanBuffer(nodeScan, data);
      if r != Ok(true) {
        return Failure(OperationFailed);
      }
      return Success;
    }
  
    /**
      * How far the read of `range` of `file` got, up to `offset`, into a
      * scan that had scanned `scanned` bytes and found `results` when the
      * read began: the chunks read so far are the range's bytes up to
      * `offset`, all but a last short one of the buffer size; each has been
      * scanned, and the results found before are kept; nothing is
      * carried over while a read goes on, and the last bytes read are
      * carried over once it ends.
      */
    ghost predicate Progress(state: ScanState, file: seq<byte>, range: ReadRange, bufferSize: nat,
                             offset: nat, chunks: seq<seq<byte>>, results: seq<ScanResult>, scanned: nat)
      reads state, state.scanTree, state.buffer
    {
      var to := range.start + range.size;
      && state.Valid() && state.phase == Started && state.bufferSize == bufferSize
      && range.start <= offset <= to
      && (chunks == [] ==> offset == range.start)
      && (chunks != [] ==> offset <= |file| && Concat(chunks) == file[range.start..offset])
      && ChunkedBy(chunks, bufferSize)
      && (chunks != [] && |chunks[|chunks| - 1]| < bufferSize ==> offset == to)
      && |results| <= |state.results| && state.results[..|results|] == results
      && (to <= |file| ==> scanned + range.size <= state.dataSize)
      && (to <= |file| ==> state.scannedDataSize == scanned + (offset - range.start))
      && (to <= |file| && offset < to ==> state.bufferDataSize == 0)
      && (to <= |file| ==> CarriesTail(state, file, offset))
    }

    /**
      * Reads the `size` bytes of `file` at `offset`, the next chunk of the
      * read of `range`, and scans them. The results found lie in the range
      * whether or not the scan succeeds.
      */
    method ScanChunk(state: ScanState, nodeScan: NodeScan, file: seq<byte>, range: ReadRange, offset: nat, size: nat,
                     ghost chunks: seq<seq<byte>>, ghost results: seq<ScanResult>, ghost scanned: nat)
      returns (ok: bool)
      requires Progress(state, file, range, state.bufferSize, offset, chunks, results, scanned)
      requires 0 < size <= state.bufferSize && offset + size <= range.start + range.size && offset + size <= |file|
      requires size < state.bufferSize ==> offset + size == range.start + range.size
      requires forall k | |results| <= k < |state.results| ::
                 FoundIn(state.results[k], file, range.start, range.start + range.size)
      modifies state`scannedDataSize, state`bufferDataSize, state`activeNode, state`results, state.buffer
      ensures ok ==>
                Progress(state, file, range, old(state.bufferSize), offset + size,
                         chunks + [file[offset..offset + size]], results, scanned)
      ensures state.Valid() && state.phase == Started
      ensures |results| <= |state.results| && state.results[..|results|] == results
      ensures forall k | |results| <= k < |state.results| ::
                FoundIn(state.results[k], file, range.start, range.start + range.size)
    {
      ghost var to := range.start + range.size;
      ghost var before := state.results;
      ghost var base := state.scannedDataSize - state.bufferDataSize;
      var chunk := file[offset..offset + size];
      var r := state.ScanBuffer(nodeScan, chunk);
      assert chunk[..size] == chunk;
      assert state.results[..|results|] == before[..|results|];
      forall k | |results| <= k < |state.results|
        ensures FoundIn(state.results[k], file, range.start, to)
      {
        if k < |before| {
          assert state.results[k] == before[k];
        } else {
          FoundInChunk(state.results[k], chunk, base, file, offset, range.start, to);
        }
      }
      ok := r == Ok(true);
      if ok {
        if to <= |file| {
          assert Consumed(old(state.scannedDataSize), state.dataSize, size) == size;
          assert state.Carried(chunk, 0);
          CarryStep(state, file, offset, size);
        }
        ChunksStep(chunks, file, range.start, offset, size);
      }
    }

    /**
      * Reads `range` of `file` in chunks of the scan buffer size, the last
      * one possibly shorter, and scans each chunk (the read loop of
      * `scan_file_io_handle`). A read that runs past the end of the file
      * comes up short, which is an error, and so is a chunk the scan state
      * does not take. Every result found lies in the range.
      */
    method ScanRange(state: ScanState, nodeScan: NodeScan, file: seq<byte>, range: ReadRange)
      returns (status: Status, ghost chunks: seq<seq<byte>>)
      requires state.Valid() && state.phase == Started && 0 < state.bufferSize && state.bufferDataSize == 0
      requires range.start + range.size <= |file| ==> state.scannedDataSize + range.size <= state.dataSize
      modifies state`scannedDataSize, state`bufferDataSize, state`activeNode, state`results, state.buffer
      ensures state.Valid() && state.phase == Started
      ensures status.Success? ==> range.start + range.size <= |file| || range.size == 0
      ensures status.Success? && range.start + range.size <= |file| ==>
                CarriesTail(state, file, range.start + range.size)
      ensures 0 < range.size && |file| < range.start + range.size ==> status == Failure(OperationFailed)
      ensures status.Failure? ==> status == Failure(OperationFailed)
      ensures status.Success? && 0 < range.size ==>
                && Concat(chunks) == file[range.start..range.start + range.size]
                && state.scannedDataSize == old(state.scannedDataSize) + range.size
      ensures status.Success? ==> ChunkedBy(chunks, state.bufferSize)
      ensures |old(state.results)| <= |state.results|
      ensures state.results[..|old(state.results)|] == old(state.results)
      ensures forall k | |old(state.results)| <= k < |state.results| ::
                FoundIn(state.results[k], file, range.start, range.start + range.size)
    {
      var bufferSize := state.bufferSize;
      ghost var results := state.results;
      ghost var scanned := state.scannedDataSize;
      var offset := range.start;
      var remaining: nat := range.size;
      chunks := [];
      while remaining > 0
        invariant offset + remaining == range.start + range.size
        invariant Progress(state, file, range, bufferSize, offset, chunks, results, scanned)
        invariant forall k | |results| <= k < |state.results| ::
                    FoundIn(state.results[k], file, range.start, range.start + range.size)
        decreases remaining
      {
        var readSize := if remaining > bufferSize then bufferSize else remaining;
        if offset + readSize > |file| {
          status := Failure(OperationFailed);
          return;
        }
        var ok := ScanChunk(state, nodeScan, file, range, offset, readSize, chunks, results, scanned);
        if !ok {
          status := Failure(OperationFailed);
          return;
        }
        chunks := chunks + [file[offset..offset + readSize]];
        offset := offset + readSize;
        remaining := remaining - readSize;
      }
      status := Success;
    }

    /**
      * Reads and scans the read range of the pattern ranges of `tree`, if
      * it has any, with a scan started on the whole file. Every result
      * found lies in the file, and the bytes carried over are the last ones
      * read, up to `end`.
      */
    method ScanTreeRange(state: ScanState, nodeScan: NodeScan, file: seq<byte>, tree: ScanTree)
      returns (status: Status, ghost chunks: seq<seq<byte>>, ghost end: nat)
      requires state.Valid() && state.phase == Started && 0 < state.bufferSize
      requires state.scannedDataSize == 0 && state.bufferDataSize == 0
      requires state.dataSize == |file| < UINT64_RANGE
      modifies state`scannedDataSize, state`bufferDataSize, state`activeNode, state`results, state.buffer
      ensures state.Valid() && state.phase == Started
      ensures status.Failure? ==> status == Failure(OperationFailed)
      ensures status.Success? ==>
                && Read(file, chunks, ReadRangeOf(tree.ranges, state.bufferSize, |file|))
                && CarriesTail(state, file, end)
      ensures |old(state.results)| <= |state.results|
      ensures state.results[..|old(state.results)|] == old(state.results)
      ensures forall k | |old(state.results)| <= k < |state.results| :: FoundIn(state.results[k], file, 0, |file|)
    {
      chunks, end := [], 0;
      var range := ReadRangeOf(tree.ranges, state.bufferSize, |file|);
      if range.Some? {
        status, chunks, end := ScanFoundRange(state, nodeScan, file, tree, range.value);
      } else {
        status := Success;
        assert state.buffer[..0] == file[0..0];
      }
      assert ReadRangeOf(tree.ranges, state.bufferSize, |file|) == range;
    }

    /** The part of `ScanTreeRange` for a tree with pattern ranges, whose read range is `r`. */
    method ScanFoundRange(state: ScanState, nodeScan: NodeScan, file: seq<byte>, tree: ScanTree, r: ReadRange)
      returns (status: Status, ghost chunks: seq<seq<byte>>, ghost end: nat)
      requires state.Valid() && state.phase == Started && 0 < state.bufferSize
      requires state.scannedDataSize == 0 && state.bufferDataSize == 0 && state.dataSize == |file| < UINT64_RANGE
      requires ReadRangeOf(tree.ranges, state.bufferSize, |file|) == Some(r)
      modifies state`scannedDataSize, state`bufferDataSize, state`activeNode, state`results, state.buffer
      ensures state.Valid() && state.phase == Started
      ensures status.Failure? ==> status == Failure(OperationFailed)
      ensures status.Success? ==> Read(file, chunks, Some(r)) && CarriesTail(state, file, end)
      ensures |old(state.results)| <= |state.results|
      ensures state.results[..|old(state.results)|] == old(state.results)
      ensures forall k | |old(state.results)| <= k < |state.results| :: FoundIn(state.results[k], file, 0, |file|)
    {
      end := 0;
      status, chunks := ScanRange(state, nodeScan, file, r);
      if r.start + r.size <= |file| {
        end := r.start + r.size;
      }
      forall k | |old(state.results)| <= k < |state.results|
        ensures FoundIn(state.results[k], file, 0, |file|)
      {
        FoundInWider(state.results[k], file, r.start, r.start + r.size, 0, |file|);
      }
    }

    /**
      * One pass of the scan of a file: the read range of `tree` is read and
      * scanned and the scan stopped. Every result it finds lies in the file,
      * unless the stop found it starting within the `carried` bytes left in
      * the scan buffer and running past them.
      */
    method ScanPass(state: ScanState, nodeScan: NodeScan, file: seq<byte>, tree: ScanTree)
      returns (status: Status, ghost chunks: seq<seq<byte>>, ghost carried: nat)
      requires state.Valid() && state.phase == Started && 0 < state.bufferSize
      requires state.scannedDataSize == 0 && state.bufferDataSize == 0
      requires state.dataSize == |file| < UINT64_RANGE
      modifies state`scannedDataSize, state`bufferDataSize, state`activeNode, state`results, state.buffer
      modifies state`phase, state`buffer, state`bufferSize
      ensures state.Valid() && state.dataSize == |file|
      ensures status.Failure? ==> status == Failure(OperationFailed)
      ensures status.Success? ==>
                && state.Released()
                && Read(file, chunks, ReadRangeOf(tree.ranges, old(state.bufferSize), |file|))
      ensures |old(state.results)| <= |state.results|
      ensures state.results[..|old(state.results)|] == old(state.results)
      ensures forall k | |old(state.results)| <= k < |state.results| ::
                FoundIn(state.results[k], file, 0, |file|) || Overruns(state.results[k], carried)
    {
      ghost var results := state.results;
      ghost var end;
      status, chunks, end := ScanTreeRange(state, nodeScan, file, tree);
      carried := 0;
      if status.Failure? {
        return;
      }
      ghost var afterRange := state.results;
      ghost var tail := state.buffer[..];
      ghost var base := state.scannedDataSize - state.bufferDataSize;
      carried := state.bufferDataSize;
      status := ScanStop(state, nodeScan);
      assert state.results[..|results|] == state.results[..|afterRange|][..|results|];
      forall k | |results| <= k < |state.results|
        ensures FoundIn(state.results[k], file, 0, |file|) || Overruns(state.results[k], carried)
      {
        if k < |afterRange| {
          assert state.results[k] == afterRange[k];
        } else {
          FoundInTail(state.results[k], tail, base, carried, file, end);
        }
      }
    }

    /**
      * Scans a file (`scan_file_io_handle`): the data size is set to the
      * file size and the scan started, then the header and the footer read
      * ranges are scanned. Every result found has its pattern in the file,
      * except one a stop found starting within the bytes it carried over
      * and running past them.
      */
    method ScanFile(state: ScanState, nodeScan: NodeScan, file: seq<byte>)
      returns (status: Status, ghost headerChunks: seq<seq<byte>>, ghost footerChunks: seq<seq<byte>>,
               ghost headerCarried: nat, ghost footerCarried: nat)
      requires Valid() && state.Valid()
      modifies this`headerTree, this`footerTree, state
      ensures Valid() && state.Valid()
      ensures |file| == 0 || |file| > INT64_MAX ==> status.Failure?
      ensures status.Failure? ==> status == Failure(OperationFailed)
      ensures status.Success? ==>
                && headerTree != null && footerTree != null
                && state.Released() && state.dataSize == |file|
                && Read(file, headerChunks, ReadRangeOf(headerTree.ranges, bufferSize, |file|))
                && Read(file, footerChunks, ReadRangeOf(footerTree.ranges, bufferSize, |file|))
      ensures |old(state.results)| <= |state.results|
      ensures state.results[..|old(state.results)|] == old(state.results)
      ensures forall k | |old(state.results)| <= k < |state.results| ::
                || FoundIn(state.results[k], file, 0, |file|)
                || Overruns(state.results[k], headerCarried) || Overruns(state.results[k], footerCarried)
    {
      headerChunks, footerChunks, headerCarried, footerCarried := [], [], 0, 0;
      status := state.SetDataSize(|file|);
      if status.Failure? {
        status := Failure(OperationFailed);
        return;
      }
      status := ScanStart(state);
      if status.Failure? {
        return;
      }
      status, headerChunks, footerChunks, headerCarried, footerCarried := ScanPasses(state, nodeScan, file);
    }

    /**
      * The two passes of the scan of a file: the header tree's, then, with
      * the scan started again on the footer tree, the footer tree's. Both
      * read ranges are taken from the start of the file.
      */
    method ScanPasses(state: ScanState, nodeScan: NodeScan, file: seq<byte>)
      returns (status: Status, ghost headerChunks: seq<seq<byte>>, ghost footerChunks: seq<seq<byte>>,
               ghost headerCarried: nat, ghost footerCarried: nat)
      requires Valid() && headerTree != null && footerTree != null
      requires state.Valid() && state.phase == Started && state.scanTree == headerTree
      requires state.bufferSize == bufferSize && state.scannedDataSize == 0 && state.bufferDataSize == 0
      requires state.dataSize == |file| < UINT64_RANGE
      modifies state, state.buffer
      ensures state.Valid()
      ensures status.Failure? ==> status == Failure(OperationFailed)
      ensures status.Success? ==>
                && state.Released() && state.dataSize == |file|
                && Read(file, headerChunks, ReadRangeOf(headerTree.ranges, bufferSize, |file|))
                && Read(file, footerChunks, ReadRangeOf(footerTree.ranges, bufferSize, |file|))
      ensures |old(state.results)| <= |state.results|
      ensures state.results[..|old(state.results)|] == old(state.results)
      ensures forall k | |old(state.results)| <= k < |state.results| ::
                || FoundIn(state.results[k], file, 0, |file|)
                || Overruns(state.results[k], headerCarried) || Overruns(state.results[k], footerCarried)
    {
      ghost var results := state.results;
      footerChunks, footerCarried := [], 0;
      status, headerChunks, headerCarried := ScanPass(state, nodeScan, file, headerTree);
      if status.Failure? {
        return;
      }
      ghost var afterHeader := state.results;
      status := state.Start(footerTree, bufferSize);
      if status.Failure? {
        status := Failure(OperationFailed);
        return;
      }
      status, footerChunks, footerCarried := ScanPass(state, nodeScan, file, footerTree);
      assert state.results[..|results|] == state.results[..|afterHeader|][..|results|];
      forall k | |results| <= k < |state.results|
        ensures || FoundIn(state.results[k], file, 0, |file|)
                || Overruns(state.results[k], headerCarried) || Overruns(state.results[k], footerCarried)
      {
        if k < |afterHeader| {
          assert state.results[k] == afterHeader[k];
        }
      }
    }
  }
}
