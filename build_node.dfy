/**
  * Building one scan tree node (`build_node` of libsigscan_scan_tree.c): the
  * most significant pattern offset of a signature table becomes the node's
  * offset and joins the ignore list; every byte value the table files at
  * that offset gets a signature leaf (one signature) or a sub-tree (more);
  * the signatures no byte value covers make up the default object.
  */
module NodeBuilder {
  import opened Common
  import opened SortedLists
  import opened Signatures
  import opened SignaturesList
  import opened OffsetsList
  import opened SignatureGroups
  import opened ByteValueGroups
  import opened SignatureTables
  import opened Weighting
  import opened ScanObjects
  import opened ScanTreeNodes
  import opened ScanTreeSelection
  import opened ScanTrees

  /** The signatures of each signature group, in order. */
  ghost function SignatureLists(groups: seq<SignatureGroup>): (r: seq<seq<Signature>>)
    reads groups
    ensures |r| == |groups| && forall k :: 0 <= k < |groups| ==> r[k] == groups[k].signatures
  {
    seq(|groups|, k requires 0 <= k < |groups| reads groups => groups[k].signatures)
  }

  /** Every signature of `lists`, in order. */
  function Flatten(lists: seq<seq<Signature>>): seq<Signature>
  {
    if lists == [] then [] else Flatten(lists[..|lists| - 1]) + lists[|lists| - 1]
  }

  /** `list` after `remove_signature` of each of `signatures` in turn; the first error ends the walk. */
  function RemoveAll(list: seq<Signature?>, signatures: seq<Signature>): Result<seq<Signature?>>
  {
    if signatures == [] then Ok(list)
    else
      match RemoveAll(list, signatures[..|signatures| - 1])
      case Err(e) => Err(e)
      case Ok(rest) => RemoveFirst(rest, signatures[|signatures| - 1])
  }

  /** `list` after the signatures of every list of `lists` have been removed in turn. */
  function RemoveLists(list: seq<Signature?>, lists: seq<seq<Signature>>): Result<seq<Signature?>>
  {
    if lists == [] then Ok(list)
    else
      match RemoveLists(list, lists[..|lists| - 1])
      case Err(e) => Err(e)
      case Ok(rest) => RemoveAll(rest, lists[|lists| - 1])
  }

  /** Once a prefix of the removals fails, the whole walk fails with that error. */
  lemma {:induction false} RemoveAllFails(list: seq<Signature?>, signatures: seq<Signature>, k: nat)
    requires k <= |signatures| && RemoveAll(list, signatures[..k]).Err?
    ensures RemoveAll(list, signatures) == RemoveAll(list, signatures[..k])
  {
    if k < |signatures| {
      var n := |signatures|;
      assert signatures[..n - 1][..k] == signatures[..k];
      RemoveAllFails(list, signatures[..n - 1], k);
    } else {
      assert signatures[..k] == signatures;
    }
  }

  /** Once a prefix of the groups fails, the whole walk fails with that error. */
  lemma {:induction false} RemoveListsFails(list: seq<Signature?>, lists: seq<seq<Signature>>, k: nat)
    requires k <= |lists| && RemoveLists(list, lists[..k]).Err?
    ensures RemoveLists(list, lists) == RemoveLists(list, lists[..k])
  {
    if k < |lists| {
      var n := |lists|;
      assert lists[..n - 1][..k] == lists[..k];
      RemoveListsFails(list, lists[..n - 1], k);
    } else {
      assert lists[..k] == lists;
    }
  }

  /**
    * Removing from a list without NULL elements always succeeds, keeps it
    * free of NULL elements, and takes out one copy of each removed signature
    * the list holds.
    */
  lemma {:induction false} RemoveAllMultiset(list: seq<Signature?>, signatures: seq<Signature>)
    requires null !in list
    ensures RemoveAll(list, signatures).Ok?
    ensures null !in RemoveAll(list, signatures).value
    ensures multiset(RemoveAll(list, signatures).value) == multiset(list) - multiset(signatures)
  {
    if signatures != [] {
      var n := |signatures|;
      var prefix, last := signatures[..n - 1], signatures[n - 1];
      RemoveAllMultiset(list, prefix);
      var rest := RemoveAll(list, prefix).value;
      RemoveFirstMultiset(rest, last);
      assert RemoveAll(list, signatures) == RemoveFirst(rest, last);
      assert multiset(signatures) == multiset(prefix) + multiset{last} by {
        assert signatures == prefix + [last];
      }
      var result := RemoveFirst(rest, last).value;
      assert multiset(result)[null] <= multiset(rest)[null] == 0;
    }
  }

  /** The signatures left once every group's signatures are removed: the list less all of them. */
  lemma {:induction false} RemoveListsMultiset(list: seq<Signature?>, lists: seq<seq<Signature>>)
    requires null !in list
    ensures RemoveLists(list, lists).Ok?
    ensures null !in RemoveLists(list, lists).value
    ensures multiset(RemoveLists(list, lists).value) == multiset(list) - multiset(Flatten(lists))
  {
    if lists != [] {
      var n := |lists|;
      RemoveListsMultiset(list, lists[..n - 1]);
      RemoveAllMultiset(RemoveLists(list, lists[..n - 1]).value, lists[n - 1]);
    }
  }

  /** Removes the signatures of one signature group from `list`, one `remove_signature` each. */
  method RemoveGroupSignatures(list: seq<Signature?>, group: SignatureGroup) returns (r: Result<seq<Signature?>>)
    ensures r == RemoveAll(list, group.signatures)
  {
    var current := list;
    var j := 0;
    while j < group.NumberOfSignatures()
      invariant 0 <= j <= |group.signatures|
      invariant RemoveAll(list, group.signatures[..j]) == Ok(current)
    {
      var signature := group.GetSignatureByIndex(j).value;
      assert group.signatures[..j + 1][..j] == group.signatures[..j];
      var removed := RemoveSignature(current, signature);
      if removed.Err? {
        RemoveAllFails(list, group.signatures, j + 1);
        return removed;
      }
      current := removed.value;
      j := j + 1;
    }
    assert group.signatures[..j] == group.signatures;
    r := Ok(current);
  }

  /**
    * The signatures the node does not cover: `list`, a clone of the table's
    * signatures, less the signatures of every signature group of the chosen
    * byte value group.
    */
  method RemoveCovered(list: seq<Signature?>, groups: seq<SignatureGroup>) returns (r: Result<seq<Signature?>>)
    ensures r == RemoveLists(list, SignatureLists(groups))
  {
    ghost var lists := SignatureLists(groups);
    var current := list;
    var i := 0;
    while i < |groups|
      invariant 0 <= i <= |groups|
      invariant RemoveLists(list, lists[..i]) == Ok(current)
    {
      assert lists[..i + 1][..i] == lists[..i];
      var removed := RemoveGroupSignatures(current, groups[i]);
      if removed.Err? {
        RemoveListsFails(list, lists, i + 1);
        return removed;
      }
      current := removed.value;
      i := i + 1;
    }
    assert lists[..i] == lists;
    r := Ok(current);
  }

  /**
    * The most significant offset of `table` under new pattern weights:
    * the similarity and occurrence weights `fill_pattern_weights` leaves,
    * and byte-value weights left empty. The selection depends on the
    * table's shapes and number of signatures only, as `Significant` says.
    */
  method ChooseOffset(table: SignatureTable, similarity: PatternWeights, occurrence: PatternWeights, byteValue: PatternWeights)
    returns (r: Result<Selection>)
    requires similarity.Valid() && occurrence.Valid() && similarity != occurrence
    requires byteValue != similarity && byteValue != occurrence
    requires similarity.weights == map[] && occurrence.weights == map[] && NoWeights(byteValue)
    requires similarity.filed == map[] && occurrence.filed == map[]
    modifies similarity, occurrence
    ensures similarity.Ordered() && occurrence.Ordered() && NoWeights(byteValue)
    ensures similarity.weights == SimilarityWeights(map[], old(Shapes(table.byteValueGroups)))
    ensures occurrence.weights == OccurrenceWeights(map[], old(Shapes(table.byteValueGroups)))
    ensures similarity.filed == SimilarityFiled(map[], old(Shapes(table.byteValueGroups)))
    ensures occurrence.filed == OccurrenceFiled(map[], old(Shapes(table.byteValueGroups)))
    ensures r == MostSignificant(table.NumberOfSignatures(), table.byteValueGroups, similarity, occurrence, byteValue)
    ensures r == Significant(table.NumberOfSignatures(), old(Shapes(table.byteValueGroups)))
  {
    ghost var shapes := FillPatternWeights(table, similarity, occurrence);
    r := MostSignificant(table.NumberOfSignatures(), table.byteValueGroups, similarity, occurrence, byteValue);
    SignificantOfFilled(table.NumberOfSignatures(), table.byteValueGroups, shapes, similarity, occurrence, byteValue);
  }

  /**
    * A slot holds what the node builder puts there for `signatures`: the
    * signature itself for one, a scan tree node for more.
    */
  ghost predicate Holds(slot: Option<ScanObject>, signatures: seq<Signature?>)
  {
    && slot.Some?
    && (|signatures| == 1 ==> slot.value.objectType == SCAN_OBJECT_TYPE_SIGNATURE && slot.value.value == signatures[0])
    && (|signatures| > 1 ==> slot.value.objectType == SCAN_OBJECT_TYPE_SCAN_TREE_NODE)
  }

  /** The byte value slots of `node` hold an object for exactly the byte values of `groups`. */
  ghost predicate Slots(node: ScanTreeNode, groups: seq<SignatureGroup>)
    reads node, groups
  {
    && node.Sized()
    && (forall k | 0 <= k < |groups| :: Holds(node.scanObjectsTable[groups[k].byteValue], groups[k].signatures))
    && (forall b: byte | (forall k | 0 <= k < |groups| :: groups[k].byteValue != b) :: node.scanObjectsTable[b].None?)
  }

  /** The default object of `node` is set exactly when signatures remain, and holds what they call for. */
  ghost predicate DefaultFor(node: ScanTreeNode, remaining: seq<Signature?>)
    reads node
  {
    && (remaining == [] ==> node.defaultScanObject.None?)
    && (remaining != [] ==> Holds(node.defaultScanObject, remaining))
  }

  /** A node valid over some nodes stays valid over more. */
  lemma ValidGrows(node: ScanTreeNode, nodes: set<ScanTreeNode>, more: set<ScanTreeNode>)
    requires node.Valid(nodes) && nodes <= more
    ensures node.Valid(more)
  {
  }

  /** Two closed sets of nodes make a closed set. */
  lemma TreeUnion(first: set<ScanTreeNode>, second: set<ScanTreeNode>)
    requires Tree(first) && Tree(second)
    ensures Tree(first + second)
  {
    forall n | n in first + second
      ensures n.Valid(first + second)
    {
      if n in first {
        ValidGrows(n, first, first + second);
      } else {
        ValidGrows(n, second, first + second);
      }
    }
  }

  /**
    * A sub-tree for `list`: a new signature table filled from `list` with
    * the node's ignore list, and a node built from it at `level`, wrapped in
    * a scan object.
    */
  method SubNode(list: seq<Signature?>, ignore: seq<int>, mode: OffsetMode, rangeSize: int, level: nat)
    returns (status: Status, child: Option<ScanObject>, ghost nodes: set<ScanTreeNode>)
    decreases level + 1, 0
    ensures mode == UnknownMode ==> status == Failure(UnsupportedValue)
    ensures status.Success? ==>
              && child.Some? && child.value.objectType == SCAN_OBJECT_TYPE_SCAN_TREE_NODE
              && child.value.value is ScanTreeNode && child.value.value as ScanTreeNode in nodes
              && (child.value.value as ScanTreeNode).level == level
              && fresh(nodes) && Tree(nodes)
  {
    var table := new SignatureTable();
    status := table.Fill(list, ignore, mode, rangeSize);
    if status.Failure? {
      return status, None, {};
    }
    var node, chosen, groups, remaining;
    status, node, nodes, chosen, groups, remaining := BuildNode(table, ignore, mode, rangeSize, level);
    if status.Failure? {
      return status, None, {};
    }
    var created := ScanObjects.Initialize(None, SCAN_OBJECT_TYPE_SCAN_TREE_NODE, Some(node));
    child := Some(created.value);
  }

  /**
    * The byte value slots of a new node: for each signature group of the
    * chosen byte value group, a signature leaf when it has one signature,
    * and otherwise a sub-tree built from its signatures followed by the
    * remaining ones. A group without signatures is an error. The sub-table
    * is filled once from the two lists put together, where `build_node`
    * fills it from each in turn; `FillConcatenation` shows the two agree.
    */
  method FillSlots(node: ScanTreeNode, groups: seq<SignatureGroup>, remaining: seq<Signature?>,
                   ignore: seq<int>, mode: OffsetMode, rangeSize: int, level: nat)
    returns (status: Status, ghost nodes: set<ScanTreeNode>)
    requires node.level == level && node.scanObjectsTable == seq(BYTE_VALUE_SLOTS, _ => None) && node.defaultScanObject.None?
    requires StrictlyAscending(KeysOf(groups, ByteValueKey))
    modifies node
    decreases level, 1
    ensures (exists k :: 0 <= k < |groups| && groups[k].signatures == []) ==> status.Failure?
    ensures status.Success? ==>
              && fresh(nodes) && Tree(nodes) && node.Valid(nodes)
              && Slots(node, groups) && node.defaultScanObject.None?
  {
    nodes := {};
    var i := 0;
    while i < |groups|
      invariant 0 <= i <= |groups|
      invariant node.Sized() && node.defaultScanObject.None?
      invariant fresh(nodes) && Tree(nodes) && node.Valid(nodes)
      invariant forall k | 0 <= k < i :: groups[k].signatures != [] && Holds(node.scanObjectsTable[groups[k].byteValue], groups[k].signatures)
      invariant forall b: byte | (forall k | 0 <= k < i :: groups[k].byteValue != b) :: node.scanObjectsTable[b].None?
    {
      var group := groups[i];
      var byteValue := group.byteValue;
      var count := group.NumberOfSignatures();
      if count == 0 {
        return Failure(ValueMissing), nodes;
      }
      var scanObject: Option<ScanObject>;
      if count == 1 {
        var created := ScanObjects.Initialize(None, SCAN_OBJECT_TYPE_SIGNATURE, Some(group.GetSignatureByIndex(0).value));
        scanObject := Some(created.value);
      } else {
        if level == 0 {
          return Failure(OperationFailed), nodes;
        }
        ghost var childNodes;
        status, scanObject, childNodes := SubNode(group.signatures + remaining, ignore, mode, rangeSize, level - 1);
        if status.Failure? {
          return status, nodes;
        }
        TreeUnion(nodes, childNodes);
        ValidGrows(node, nodes, nodes + childNodes);
        nodes := nodes + childNodes;
      }
      assert forall k | 0 <= k < i :: groups[k].byteValue != byteValue by {
        forall k | 0 <= k < i
          ensures groups[k].byteValue != byteValue
        {
          assert KeysOf(groups, ByteValueKey)[k] < KeysOf(groups, ByteValueKey)[i];
        }
      }
      status := node.SetByteValue(byteValue, scanObject);
      i := i + 1;
    }
    status := Success;
  }

  /**
    * The default object of a new node: none when no signature remains, the
    * signature itself when one does, and a sub-tree built from the
    * remaining signatures when more do.
    */
  method SetDefault(node: ScanTreeNode, remaining: seq<Signature?>, ignore: seq<int>, mode: OffsetMode,
                    rangeSize: int, level: nat, ghost before: set<ScanTreeNode>)
    returns (status: Status, ghost nodes: set<ScanTreeNode>)
    requires node.level == level && node.defaultScanObject.None? && null !in remaining
    requires node.Valid(before)
    modifies node
    decreases level, 1
    ensures status.Success? ==>
              && fresh(nodes) && Tree(nodes) && node.Valid(before + nodes)
              && DefaultFor(node, remaining) && node.scanObjectsTable == old(node.scanObjectsTable)
  {
    nodes := {};
    var scanObject: Option<ScanObject> := None;
    if |remaining| == 1 {
      var created := ScanObjects.Initialize(None, SCAN_OBJECT_TYPE_SIGNATURE, Some(remaining[0]));
      scanObject := Some(created.value);
    } else if |remaining| > 1 {
      if level == 0 {
        return Failure(OperationFailed), nodes;
      }
      status, scanObject, nodes := SubNode(remaining, ignore, mode, rangeSize, level - 1);
      if status.Failure? {
        return status, nodes;
      }
    }
    ValidGrows(node, before, before + nodes);
    status := Success;
    if scanObject.Some? {
      status := node.SetDefaultValue(scanObject);
    }
  }

  /** A closed set of nodes with one more node valid over it is closed. */
  lemma TreeAdd(nodes: set<ScanTreeNode>, node: ScanTreeNode)
    requires Tree(nodes) && node.Valid(nodes)
    ensures Tree(nodes + {node})
  {
    forall n | n in nodes + {node}
      ensures n.Valid(nodes + {node})
    {
      ValidGrows(n, nodes, nodes + {node});
    }
  }

  /**
    * Creates the node testing `offset` at `level` and fills it: its byte
    * value slots from `groups`, then its default object from the
    * `remaining` signatures.
    */
  method Populate(offset: int, groups: seq<SignatureGroup>, remaining: seq<Signature?>,
                  ignore: seq<int>, mode: OffsetMode, rangeSize: int, level: nat)
    returns (status: Status, node: ScanTreeNode, ghost nodes: set<ScanTreeNode>)
    requires StrictlyAscending(KeysOf(groups, ByteValueKey)) && null !in remaining
    decreases level, 2
    ensures node.patternOffset == offset && node.level == level
    ensures (exists k :: 0 <= k < |groups| && groups[k].signatures == []) ==> status.Failure?
    ensures status.Success? ==>
              && node in nodes && fresh(nodes) && Tree(nodes)
              && Slots(node, groups) && DefaultFor(node, remaining)
  {
    node := new ScanTreeNode(offset, level);
    ghost var slotNodes, defaultNodes;
    status, slotNodes := FillSlots(node, groups, remaining, ignore, mode, rangeSize, level);
    if status.Failure? {
      return status, node, {};
    }
    status, defaultNodes := SetDefault(node, remaining, ignore, mode, rangeSize, level, slotNodes);
    if status.Failure? {
      return status, node, {};
    }
    TreeUnion(slotNodes, defaultNodes);
    TreeAdd(slotNodes + defaultNodes, node);
    nodes := slotNodes + defaultNodes + {node};
  }

  /**
    * The most significant offset of `table` under new, empty pattern
    * weights: what `Significant` says of the table's shapes and number of
    * signatures; none for a table without signatures, and otherwise a
    * found offset unless the selection fails.
    */
  method FreshOffset(table: SignatureTable) returns (r: Result<Selection>)
    requires table.Valid()
    ensures r == Significant(table.NumberOfSignatures(), old(Shapes(table.byteValueGroups)))
    ensures table.NumberOfSignatures() == 0 ==> r == Ok(Selection(false, 0))
    ensures table.NumberOfSignatures() > 0 && r.Ok? ==> r.value.found
  {
    ghost var shapes := Shapes(table.byteValueGroups);
    var occurrence := new PatternWeights();
    var similarity := new PatternWeights();
    var byteValue := new PatternWeights();
    assert shapes == Shapes(table.byteValueGroups);
    r := ChooseOffset(table, similarity, occurrence, byteValue);
  }

  /**
    * The offset a node for `table` tests (the first part of `build_node`):
    * the most significant offset under new pattern weights, which must be
    * new to the ignore list and, when found, must have a byte value group,
    * whose signature groups are returned. The returned ignore list is the
    * given one with the offset added.
    */
  method SelectOffset(table: SignatureTable, ignore: seq<int>)
    returns (status: Status, chosen: Selection, subIgnore: seq<int>, groups: seq<SignatureGroup>)
    requires table.Valid()
    ensures old(Significant(table.NumberOfSignatures(), Shapes(table.byteValueGroups))).Err? ==> status.Failure?
    ensures status.Success? ==> old(Significant(table.NumberOfSignatures(), Shapes(table.byteValueGroups))) == Ok(chosen)
    ensures status.Success? ==> InsertOffset(ignore, chosen.offset) == Ok(subIgnore)
    ensures status.Success? && !chosen.found ==> table.NumberOfSignatures() == 0 && groups == []
    ensures status.Success? && chosen.found ==>
              && Lookup(table.byteValueGroups, PatternOffsetKey, chosen.offset).Some?
              && groups == Lookup(table.byteValueGroups, PatternOffsetKey, chosen.offset).value.signatureGroups
    ensures status.Success? ==> StrictlyAscending(KeysOf(groups, ByteValueKey))
  {
    chosen, subIgnore, groups := Selection(false, 0), ignore, [];
    var selection := FreshOffset(table);
    if selection.Err? {
      return Failure(selection.error), chosen, subIgnore, groups;
    }
    chosen := selection.value;
    var inserted := InsertOffset(subIgnore, chosen.offset);
    if inserted.Err? {
      return Failure(inserted.error), chosen, subIgnore, groups;
    }
    subIgnore := inserted.value;
    if chosen.found {
      var group := table.GetByteValueGroupByOffset(chosen.offset);
      if group.None? {
        return Failure(OperationFailed), chosen, subIgnore, groups;
      }
      groups := group.value.signatureGroups;
    }
    status := Success;
  }

  /**
    * The signatures of `table` that no signature group of `groups` covers,
    * in table order: the clone of the signatures list with each group's
    * signatures removed.
    */
  method Uncovered(table: SignatureTable, groups: seq<SignatureGroup>) returns (remaining: seq<Signature?>)
    requires table.Valid()
    ensures null !in remaining
    ensures RemoveLists(table.signatures, SignatureLists(groups)) == Ok(remaining)
    ensures multiset(remaining) == multiset(table.signatures) - multiset(Flatten(SignatureLists(groups)))
  {
    var clone := table.GetSignaturesListClone();
    assert clone == table.signatures;
    RemoveListsMultiset(clone, SignatureLists(groups));
    var removed := RemoveCovered(clone, groups);
    remaining := removed.value;
  }

  /**
    * Creates the node testing `offset` at `level` and fills it from the
    * byte value `groups` found there, with the uncovered signatures of
    * `table` as its default.
    */
  method Assemble(table: SignatureTable, offset: int, groups: seq<SignatureGroup>, subIgnore: seq<int>,
                  mode: OffsetMode, rangeSize: int, level: nat)
    returns (status: Status, node: ScanTreeNode?, ghost nodes: set<ScanTreeNode>, remaining: seq<Signature?>)
    requires table.Valid()
    requires StrictlyAscending(KeysOf(groups, ByteValueKey))
    decreases level, 3
    ensures RemoveLists(table.signatures, SignatureLists(groups)) == Ok(remaining)
    ensures status.Success? ==> node != null && node in nodes && fresh(nodes) && Tree(nodes)
    ensures status.Success? ==> node.level == level && node.patternOffset == offset
    ensures (exists k :: 0 <= k < |groups| && groups[k].signatures == []) ==> status.Failure?
    ensures status.Success? ==> Slots(node, groups) && DefaultFor(node, remaining)
  {
    node, nodes := null, {};
    remaining := Uncovered(table, groups);
    var built;
    status, built, nodes := Populate(offset, groups, remaining, subIgnore, mode, rangeSize, level);
    if status.Success? {
      node := built;
    }
  }

  /**
    * Builds the scan tree node of `table` (`build_node`), at `level`, the
    * height below which every sub-tree of the node lies. On success the node
    * tests the chosen offset, which the ignore list did not hold; when the
    * offset was found, the node's byte value slots hold an object for
    * exactly the byte values the table files at that offset (a leaf for a
    * single signature, a sub-tree otherwise), and its default object is set
    * exactly when signatures of the table remain uncovered. A signature
    * group without signatures is an error.
    */
  method BuildNode(table: SignatureTable, ignore: seq<int>, mode: OffsetMode, rangeSize: int, level: nat)
    returns (status: Status, node: ScanTreeNode?, ghost nodes: set<ScanTreeNode>, chosen: Selection,
             groups: seq<SignatureGroup>, remaining: seq<Signature?>)
    requires table.Valid()
    decreases level, 4
    ensures status.Success? ==> node != null && node in nodes && fresh(nodes) && Tree(nodes) && node.level == level
    ensures status.Success? ==> node.patternOffset == chosen.offset && InsertOffset(ignore, chosen.offset).Ok?
    ensures status.Success? ==> old(Significant(table.NumberOfSignatures(), Shapes(table.byteValueGroups))) == Ok(chosen)
    ensures status.Success? && !chosen.found ==> table.NumberOfSignatures() == 0 && groups == []
    ensures status.Success? && chosen.found ==>
              && Lookup(table.byteValueGroups, PatternOffsetKey, chosen.offset).Some?
              && groups == Lookup(table.byteValueGroups, PatternOffsetKey, chosen.offset).value.signatureGroups
    ensures (exists k :: 0 <= k < |groups| && groups[k].signatures == []) ==> status.Failure?
    ensures status.Success? ==>
              && Slots(node, groups)
              && RemoveLists(table.signatures, SignatureLists(groups)) == Ok(remaining)
              && DefaultFor(node, remaining)
  {
    node, nodes, remaining := null, {}, [];
    var subIgnore;
    status, chosen, subIgnore, groups := SelectOffset(table, ignore);
    if status.Failure? {
      return status, node, nodes, chosen, [], remaining;
    }
    status, node, nodes, remaining := Assemble(table, chosen.offset, groups, subIgnore, mode, rangeSize, level);
  }
}
