/**
  * The scan state (libsigscan_scan_state.c): one scan of a data stream of a
  * known size, fed to it chunk by chunk. It moves from INITIALIZED to
  * STARTED (`start`) to STOPPED (`stop`), holds a scan buffer for the bytes
  * of a chunk that do not fill a whole buffer, and collects the scan
  * results the scan tree finds.
  */
module ScanStates {
  import opened Common
  import opened Signatures
  import opened ScanObjects
  import opened ScanTreeNodes
  import opened SkipTables
  import opened ScanTreeRoots

  /** LIBSIGSCAN_SCAN_STATE_STATE_*: where a scan state is in its life cycle. */
  datatype Phase = Initialized | Started | Stopped

  /** A scan result: the data offset of a match and the signature that matched. */
  datatype ScanResult = ScanResult(offset: int, signature: Signature)

  /**
    * The scan tree node scan as the scan state calls it: the active node,
    * the bytes of the buffer up to the scan bound, and the offset in them.
    * It gives the scan object found there, if any.
    */
  type NodeScan = (ScanTreeNode?, seq<byte>, nat) -> Result<Option<ScanObject>>

  /**
    * `result` records a match in `data`, whose first byte lies at data
    * offset `base`: the signature's pattern occurs at the result's place in
    * `data`, and that place is the signature's own pattern offset.
    */
  ghost predicate Found(result: ScanResult, data: seq<byte>, base: int)
    reads result.signature
  {
    var at := result.offset - base;
    var pattern := result.signature.pattern;
    && 0 <= at && at + |pattern| <= |data|
    && (forall i :: 0 <= i < |pattern| ==> data[at + i] == pattern[i])
    && at == result.signature.patternOffset
  }

  /**
    * The number of bytes of a chunk of `size` bytes that a scan consumes
    * when `scanned` of `dataSize` bytes have been scanned before.
    */
  function Consumed(scanned: nat, dataSize: nat, size: nat): (consumed: nat)
    requires scanned <= dataSize
    ensures consumed <= size && scanned + consumed <= dataSize
    ensures consumed == size || scanned + consumed == dataSize
  {
    if size > dataSize || scanned > dataSize - size then dataSize - scanned else size
  }

  /**
    * The remainder of a chunk of `size` bytes once its whole multiples of
    * the scan buffer size are scanned, computed as the scan computes it.
    */
  function Remainder(size: nat, bufferSize: nat): (remainder: nat)
    requires 0 < bufferSize
    ensures remainder == size % bufferSize
  {
    if size >= bufferSize then size - (size / bufferSize) * bufferSize else size
  }

  class ScanState {
    /** The life cycle state. */
    var phase: Phase
    /** The size of the data to scan; 0 until set. */
    var dataSize: nat
    /** The number of bytes the chunks fed so far have contributed. */
    var scannedDataSize: nat
    /** The scan buffer; NULL unless started. */
    var buffer: array?<byte>
    /** The size of the scan buffer. */
    var bufferSize: nat
    /** The number of bytes carried over in the scan buffer. */
    var bufferDataSize: nat
    /** The scan tree of a started scan. */
    var scanTree: ScanTree?
    /** The node the next scan step starts from. */
    var activeNode: ScanTreeNode?
    /** The scan results, in the order they were found. */
    var results: seq<ScanResult>

    /**
      * A started scan has its tree and a buffer of the recorded size, whose
      * carried-over bytes fill less than all of it unless it is empty.
      */
    ghost predicate Valid()
      reads this, scanTree
    {
      phase == Started ==>
        && scanTree != null
        && buffer != null && buffer.Length == bufferSize
        && (bufferDataSize < bufferSize || bufferDataSize == bufferSize == 0)
        && (scanTree.skipTable != null ==> scanTree.skipTable.Valid())
    }

    /** A new scan state (`initialize`): INITIALIZED, cleared and without results. */
    constructor ()
      ensures Valid()
      ensures phase == Initialized && results == []
      ensures dataSize == 0 && scannedDataSize == 0
      ensures buffer == null && bufferSize == 0 && bufferDataSize == 0
      ensures scanTree == null && activeNode == null
    {
      phase := Initialized;
      dataSize := 0;
      scannedDataSize := 0;
      buffer := null;
      bufferSize := 0;
      bufferDataSize := 0;
      scanTree := null;
      activeNode := null;
      results := [];
    }

    /** Sets the size of the data to scan (`set_data_size`), in any state. */
    method SetDataSize(size: nat) returns (status: Status)
      modifies this`dataSize
      ensures status.Success? <==> 0 < size <= INT64_MAX
      ensures size == 0 ==> status == Failure(ValueZeroOrLess)
      ensures size > INT64_MAX ==> status == Failure(ValueExceedsMaximum)
      ensures dataSize == if status.Success? then size else old(dataSize)
    {
      if size == 0 {
        return Failure(ValueZeroOrLess);
      }
      if size > INT64_MAX {
        return Failure(ValueExceedsMaximum);
      }
      dataSize := size;
      return Success;
    }

    /**
      * Starts a scan over `tree` with a scan buffer of `scanBufferSize`
      * bytes (`start`). The checks run in the order below; on success the
      * scan starts at the tree's root with nothing scanned or carried.
      */
    method Start(tree: ScanTree?, scanBufferSize: nat) returns (status: Status)
      requires Valid()
      requires tree != null && tree.skipTable != null ==> tree.skipTable.Valid()
      modifies this
      ensures Valid()
      ensures status.Success? <==>
              && old(phase) != Started && old(buffer) == null && dataSize != 0
              && tree != null && scanBufferSize <= SSIZE_MAX
      ensures old(phase) == Started ==> status == Failure(UnsupportedValue)
      ensures old(phase) != Started && old(buffer) != null ==> status == Failure(ValueAlreadySet)
      ensures old(phase) != Started && old(buffer) == null && dataSize == 0 ==>
              status == Failure(ValueMissing)
      ensures old(phase) != Started && old(buffer) == null && dataSize != 0 && tree == null ==>
              status == Failure(InvalidValue)
      ensures status.Failure? ==> unchanged(this)
      ensures status.Success? ==>
              && phase == Started && scanTree == tree && activeNode == tree.rootNode
              && fresh(buffer) && bufferSize == scanBufferSize
              && bufferDataSize == 0 && scannedDataSize == 0
              && dataSize == old(dataSize) && results == old(results)
    {
      if phase != Initialized && phase != Stopped {
        return Failure(UnsupportedValue);
      }
      if buffer != null {
        return Failure(ValueAlreadySet);
      }
      if dataSize == 0 {
        return Failure(ValueMissing);
      }
      if tree == null {
        return Failure(InvalidValue);
      }
      if scanBufferSize > SSIZE_MAX {
        return Failure(ValueExceedsMaximum);
      }
      buffer := new byte[scanBufferSize];
      bufferSize := scanBufferSize;
      bufferDataSize := 0;
      phase := Started;
      scanTree := tree;
      activeNode := tree.rootNode;
      scannedDataSize := 0;
      return Success;
    }

    /**
      * Stops the scan as `stop` is written: the carried-over bytes are
      * scanned first, and only when that succeeds is the buffer released.
      * Since the scan of an empty window fails, a scan with nothing carried
      * over, such as one fed whole multiples of the scan buffer size, can
      * never stop.
      */
    method StopAsWritten(nodeScan: NodeScan) returns (status: Status)
      requires Valid()
      modifies this`phase, this`buffer, this`bufferSize, this`activeNode, this`results
      ensures Valid()
      ensures old(phase) != Started ==> status == Failure(UnsupportedValue)
      ensures old(phase) == Started && bufferDataSize == 0 ==> status == Failure(OperationFailed)
      ensures status.Success? ==> old(phase) == Started && Released()
      ensures status.Failure? ==>
              phase == old(phase) && buffer == old(buffer) && bufferSize == old(bufferSize)
      ensures |old(results)| <= |results| && results[..|old(results)|] == old(results)
      ensures old(phase) == Started ==>
              forall k | |old(results)| <= k < |results| ::
                && Found(results[k], old(buffer[..]), scannedDataSize - bufferDataSize)
                && results[k].offset - (scannedDataSize - bufferDataSize) < bufferDataSize
      ensures old(phase) != Started ==> results == old(results) && activeNode == old(activeNode)
    {
      if phase != Started {
        return Failure(UnsupportedValue);
      }
      var scanned := Scan(nodeScan, buffer[..], bufferDataSize, 0);
      if scanned.Failure? {
        return Failure(OperationFailed);
      }
      Release();
      return Success;
    }

    /**
      * Stops the scan (`stop`) as evidently intended: the carried-over
      * bytes, if there are any, are scanned first, and only when that
      * succeeds is the buffer released. A started scan with nothing carried
      * over always stops.
      */
    method Stop(nodeScan: NodeScan) returns (status: Status)
      requires Valid()
      modifies this`phase, this`buffer, this`bufferSize, this`activeNode, this`results
      ensures Valid()
      ensures old(phase) != Started ==> status == Failure(UnsupportedValue)
      ensures old(phase) == Started && bufferDataSize == 0 ==> status == Success
      ensures status.Success? ==> old(phase) == Started && Released()
      ensures status.Failure? ==>
              phase == old(phase) && buffer == old(buffer) && bufferSize == old(bufferSize)
      ensures |old(results)| <= |results| && results[..|old(results)|] == old(results)
      ensures old(phase) == Started ==>
              forall k | |old(results)| <= k < |results| ::
                && Found(results[k], old(buffer[..]), scannedDataSize - bufferDataSize)
                && results[k].offset - (scannedDataSize - bufferDataSize) < bufferDataSize
      ensures old(phase) != Started ==> results == old(results) && activeNode == old(activeNode)
    {
      if phase != Started {
        return Failure(UnsupportedValue);
      }
      if bufferDataSize > 0 {
        var scanned := Scan(nodeScan, buffer[..], bufferDataSize, 0);
        if scanned.Failure? {
          return Failure(OperationFailed);
        }
      }
      Release();
      return Success;
    }

    /** A stopped scan: no buffer, a buffer size of 0 and no active node. */
    ghost predicate Released()
      reads this
    {
      phase == Stopped && buffer == null && bufferSize == 0 && activeNode == null
    }

    /** Releases the scan buffer and moves to STOPPED. */
    method Release()
      modifies this`phase, this`buffer, this`bufferSize, this`activeNode
      ensures Valid() && Released()
    {
      buffer := null;
      bufferSize := 0;
      phase := Stopped;
      activeNode := null;
    }

    /**
      * Scans `data` from `offset` up to the bound `size`
      * (`internal_scan_state_scan_buffer`). At each offset the active node
      * scan either finds a signature whose pattern occurs there at its own
      * pattern offset, which is recorded and skipped, or the skip table
      * gives how far to move on; then the walk restarts at the root.
      */
    method Scan(nodeScan: NodeScan, data: seq<byte>, size: nat, offset: nat) returns (status: Status)
      requires Valid() && phase == Started && size <= |data|
      modifies this`activeNode, this`results
      ensures Valid()
      ensures size > SSIZE_MAX ==> status == Failure(ValueExceedsMaximum)
      ensures size <= SSIZE_MAX && offset >= size ==> status == Failure(ValueOutOfBounds)
      ensures status.Failure? && (size > SSIZE_MAX || offset >= size) ==>
              results == old(results) && activeNode == old(activeNode)
      ensures status.Success? ==> offset < size && activeNode == scanTree.rootNode
      ensures |old(results)| <= |results| && results[..|old(results)|] == old(results)
      ensures forall k | |old(results)| <= k < |results| ::
                && Found(results[k], data, scannedDataSize - bufferDataSize)
                && results[k].offset - (scannedDataSize - bufferDataSize) < size
    {
      if size > SSIZE_MAX {
        return Failure(ValueExceedsMaximum);
      }
      if offset >= size {
        return Failure(ValueOutOfBounds);
      }
      ghost var base := scannedDataSize - bufferDataSize;
      var at := offset;
      while at < size
        invariant offset <= at
        invariant at > offset ==> activeNode == scanTree.rootNode
        invariant |old(results)| <= |results| && results[..|old(results)|] == old(results)
        invariant forall k | |old(results)| <= k < |results| ::
                    Found(results[k], data, base) && results[k].offset - base < size
        decreases size - at
      {
        var skip;
        status, skip := Step(nodeScan, data, size, at);
        if status.Failure? {
          return;
        }
        activeNode := scanTree.rootNode;
        at := at + skip;
      }
      return Success;
    }

    /**
      * One step of the scan at offset `at`: records a match found there, and
      * gives the number of bytes to move on. A step that would not move on
      * (an empty pattern matched, or a skip of 0 with a smallest pattern
      * size of 0) is reported as an error.
      */
    method Step(nodeScan: NodeScan, data: seq<byte>, size: nat, at: nat)
      returns (status: Status, skip: nat)
      requires Valid() && phase == Started && at < size <= |data|
      modifies this`results
      ensures status.Success? ==> 0 < skip
      ensures |old(results)| <= |results| <= |old(results)| + 1
      ensures results[..|old(results)|] == old(results)
      ensures forall k | |old(results)| <= k < |results| ::
                && results[k].offset == scannedDataSize + at - bufferDataSize
                && Found(results[k], data, scannedDataSize - bufferDataSize)
      ensures status.Success? && |results| > |old(results)| ==>
              skip == |results[|results| - 1].signature.pattern|
    {
      var found := nodeScan(activeNode, data[..size], at);
      if found.Err? {
        return Failure(OperationFailed), 0;
      }
      if found.value.Some? {
        var scanObject := found.value.value;
        if scanObject.objectType != SCAN_OBJECT_TYPE_SIGNATURE {
          return Failure(UnsupportedValue), 0;
        }
        if !(scanObject.value is Signature) {
          return Failure(ValueMissing), 0;
        }
        var signature := scanObject.value as Signature;
        var pattern := signature.pattern;
        if at + |pattern| <= |data| && data[at..at + |pattern|] == pattern && at == signature.patternOffset {
          results := results + [ScanResult(scannedDataSize + at - bufferDataSize, signature)];
          if |pattern| == 0 {
            return Failure(ValueZeroOrLess), 0;
          }
          return Success, |pattern|;
        }
      }
      status, skip := SkipAt(data, size, at);
    }

    /**
      * The skip when nothing matched at `at`: the skip table value of the
      * last byte of the window of the smallest pattern size that starts at
      * `at`. A window that does not fit in the scan bound is an error.
      */
    method SkipAt(data: seq<byte>, size: nat, at: nat) returns (status: Status, skip: nat)
      requires Valid() && phase == Started && at < size <= |data|
      ensures scanTree.skipTable == null ==> status == Failure(OperationFailed)
      ensures scanTree.skipTable != null && scanTree.skipTable.smallestPatternSize > size ==>
              status == Failure(ValueOutOfBounds)
      ensures scanTree.skipTable != null && at + scanTree.skipTable.smallestPatternSize > size ==>
              status.Failure?
      ensures scanTree.skipTable != null && 0 < scanTree.skipTable.smallestPatternSize &&
              at + scanTree.skipTable.smallestPatternSize <= size ==>
              status == Success && 0 < skip &&
              skip == scanTree.skipTable.GetSkipValue(data[at + scanTree.skipTable.smallestPatternSize - 1])
      ensures status.Success? ==> 0 < skip
    {
      var table := scanTree.skipTable;
      if table == null {
        return Failure(OperationFailed), 0;
      }
      var smallest := table.smallestPatternSize;
      if smallest > size {
        return Failure(ValueOutOfBounds), 0;
      }
      var end := at + smallest - 1;
      if end < 0 || end >= size {
        return Failure(ValueOutOfBounds), 0;
      }
      skip := table.GetSkipValue(data[end]);
      // The source looks one byte further back while the skip is 0 and the
      // window still reaches past `at`. Only a smallest pattern size of 0
      // gives a skip of 0, and its window already ends before `at`.
      if skip == 0 {
        return Failure(ValueZeroOrLess), 0;
      }
      return Success, skip;
    }

    /**
      * Scans a chunk of the data (`scan_buffer`). Once more than the data
      * size was scanned it gives false and changes nothing. Otherwise the
      * chunk is clamped to the bytes left to scan and fed to the scan.
      */
    method ScanBuffer(nodeScan: NodeScan, data: seq<byte>) returns (r: Result<bool>)
      requires Valid()
      modifies this`scannedDataSize, this`bufferDataSize, this`activeNode, this`results, buffer
      ensures Valid()
      ensures old(phase) != Started ==> r == Err(UnsupportedValue)
      ensures old(phase) == Started && old(activeNode) == null ==> r == Err(ValueMissing)
      ensures old(phase) == Started && old(activeNode) != null && |data| > SSIZE_MAX ==>
              r == Err(ValueExceedsMaximum)
      ensures r == Ok(false) <==>
              && old(phase) == Started && old(activeNode) != null && |data| <= SSIZE_MAX
              && old(scannedDataSize) > dataSize
      ensures r == Ok(false) ==> unchanged(this)
      ensures r.Err? ==> scannedDataSize == old(scannedDataSize)
      ensures r == Ok(true) ==>
              && phase == Started && old(scannedDataSize) <= dataSize
              && scannedDataSize == old(scannedDataSize) + Consumed(old(scannedDataSize), dataSize, |data|)
              && Carried(data[..Consumed(old(scannedDataSize), dataSize, |data|)], old(bufferDataSize))
      ensures |old(results)| <= |results| && results[..|old(results)|] == old(results)
      ensures forall k | |old(results)| <= k < |results| ::
                Found(results[k], data, old(scannedDataSize) - old(bufferDataSize))
    {
      if phase != Started {
        return Err(UnsupportedValue);
      }
      if activeNode == null {
        return Err(ValueMissing);
      }
      if |data| > SSIZE_MAX {
        return Err(ValueExceedsMaximum);
      }
      if scannedDataSize > dataSize {
        return Ok(false);
      }
      var consumed := Consumed(scannedDataSize, dataSize, |data|);
      var fed := Feed(nodeScan, data[..consumed]);
      if !fed {
        return Err(OperationFailed);
      }
      scannedDataSize := scannedDataSize + consumed;
      return Ok(true);
    }

    /**
      * After `chunk` was fed to a scan that carried `before` bytes: the
      * scan buffer is not empty and the carried-over bytes fill less than
      * all of it. A chunk that is a whole multiple of the scan buffer size
      * leaves the carried-over bytes as they were; any other chunk leaves
      * its remainder modulo the buffer size, its last bytes, carried over.
      */
    ghost predicate Carried(chunk: seq<byte>, before: nat)
      reads this, buffer
    {
      && buffer != null && buffer.Length == bufferSize
      && 0 < bufferSize && bufferDataSize < bufferSize
      && (|chunk| % bufferSize == 0 ==> bufferDataSize == before)
      && (|chunk| % bufferSize != 0 ==>
            && bufferDataSize == |chunk| % bufferSize
            && buffer[..bufferDataSize] == chunk[|chunk| - bufferDataSize..])
    }

    /**
      * Feeds a clamped chunk to the scan: its whole multiples of the scan
      * buffer size are scanned in place, and its remainder, if any, is
      * copied to the front of the scan buffer.
      */
    method Feed(nodeScan: NodeScan, chunk: seq<byte>) returns (fed: bool)
      requires Valid() && phase == Started
      modifies this`bufferDataSize, this`activeNode, this`results, buffer
      ensures Valid()
      ensures fed ==> Carried(chunk, old(bufferDataSize))
      ensures !fed ==> bufferDataSize == old(bufferDataSize)
      ensures |old(results)| <= |results| && results[..|old(results)|] == old(results)
      ensures forall k | |old(results)| <= k < |results| ::
                Found(results[k], chunk, scannedDataSize - old(bufferDataSize))
    {
      if bufferDataSize == bufferSize {
        // Only an empty scan buffer counts as full: the source copies the
        // chunk past its end, and the scan of its empty window then fails.
        return false;
      }
      var readSize := |chunk|;
      if readSize >= bufferSize {
        var scanned, scanSize := ScanWhole(nodeScan, chunk);
        if scanned.Failure? {
          return false;
        }
        readSize := readSize - scanSize;
      }
      CarryOver(chunk, readSize);
      return true;
    }

    /**
      * Scans the whole multiples of the scan buffer size at the front of
      * `chunk` in place, and gives their size.
      */
    method ScanWhole(nodeScan: NodeScan, chunk: seq<byte>) returns (status: Status, scanSize: nat)
      requires Valid() && phase == Started && 0 < bufferSize <= |chunk|
      modifies this`activeNode, this`results
      ensures Valid()
      ensures scanSize <= |chunk| && |chunk| - scanSize == Remainder(|chunk|, bufferSize)
      ensures |old(results)| <= |results| && results[..|old(results)|] == old(results)
      ensures forall k | |old(results)| <= k < |results| ::
                Found(results[k], chunk, scannedDataSize - bufferDataSize)
    {
      scanSize := (|chunk| / bufferSize) * bufferSize;
      status := Scan(nodeScan, chunk, scanSize, 0);
    }

    /**
      * Copies the remainder of `chunk` modulo the scan buffer size, its last
      * `readSize` bytes, to the front of the scan buffer, if there is one.
      */
    method CarryOver(chunk: seq<byte>, readSize: nat)
      requires Valid() && phase == Started && 0 < bufferSize
      requires readSize == Remainder(|chunk|, bufferSize)
      modifies this`bufferDataSize, buffer
      ensures Valid()
      ensures Carried(chunk, old(bufferDataSize))
    {
      if readSize > 0 {
        var start := |chunk| - readSize;
        var i := 0;
        while i < readSize
          invariant 0 <= i <= readSize
          invariant buffer[..i] == chunk[start..start + i]
        {
          buffer[i] := chunk[start + i];
          i := i + 1;
        }
        bufferDataSize := readSize;
      }
    }

    /** The number of scan results (`get_number_of_results`). */
    function NumberOfResults(): (count: nat)
      reads this
      ensures count == |results|
    {
      |results|
    }

    /** The scan result at `index` (`get_result`); an index out of range is an error. */
    function GetResult(index: int): (r: Result<ScanResult>)
      reads this
      ensures r.Ok? <==> 0 <= index < |results|
      ensures r.Ok? ==> r.value == results[index]
      ensures r.Err? ==> r.error == ValueOutOfBounds
    {
      if 0 <= index < |results| then Ok(results[index]) else Err(ValueOutOfBounds)
    }
  }
}
