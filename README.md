# libsigscan signature scanning engine, modelled in Dafny

libsigscan finds file-format signatures in data. A signature is an
identifier, a pattern of bytes and a pattern offset. The offset is bound to
the start of the data, bound to its end, or unbound. The scanner turns its
signatures into two decision trees, one for the header (signatures bound to
the start) and one for the footer (signatures bound to the end). Each tree
node tests the byte at one pattern offset. Each tree has a
Boyer–Moore–Horspool style skip table. A scan state feeds the data through
the header tree chunk by chunk and records a scan result wherever a
signature's pattern occurs at its own offset.

The model follows the C files one module per file:

- `signature.dfy`, `identifier.dfy` and `scan_object.dfy` hold the value
  records: a signature, its set-once identifier, and the tagged scan object
  a tree slot holds.
- `signatures_list.dfy` and `signatures_array.dfy` remove and count
  signatures by reference.
- `sorted_list.dfy` holds the ascending lists with early-exit lookup and
  unique insert that every container below is built on.
- `signature_table.dfy`, `byte_value_group.dfy` and `signature_group.dfy`
  hold the grouping index the tree builder reads: offsets, then byte values,
  then signatures.
- `pattern_weights.dfy`, `offset_group.dfy`, `weight_group.dfy` and
  `offsets_list.dfy` hold the weight bookkeeping and the ignore list of used
  offsets.
- `scan_tree.dfy` holds the common byte values table and the offset
  selectors.
- `scan_tree_build.dfy` holds `fill_pattern_weights`.
- `build_node.dfy` holds `build_node`.
- `scan_tree_root.dfy` holds the tree itself: `fill_range_list`, the
  spanning range and `build`.
- `scan_tree_node.dfy` holds the 256-slot node and the walk that matches a
  buffer against the tree.
- `skip_table.dfy` holds the skip table.
- `scan_state.dfy` holds the scan session: INITIALIZED, STARTED, STOPPED,
  the chunk feeding and the match-and-skip loop.
- `scanner.dfy` holds the scanner: registration, tree building, the
  aligned read range and the chunked read of a file.
- `scan_handle.dfy` holds the definitions-file line parser of the sigscan
  tool: the signed decimal offset, the escaped pattern and the line grammar
  `identifier offset pattern`.

Objects whose fields the C code updates in place are classes: the scanner,
the scan state, the scan tree, nodes, the skip table, the signature table,
the groups and the signatures. The pure parts are functions and lemmas: the
selectors, the aligned-range arithmetic, the escape decoder, and the
offset and weight groups. Each C error return is a `Status` or `Result`
value. An error a C function raises itself carries the libcerror code it
sets: `ValueExceedsMaximum` for VALUE_EXCEEDS_MAXIMUM, `ValueMissing` for
VALUE_MISSING, and so on. A failure that a called function reports is
passed on as `OperationFailed` or as the called function's own code. The
C instead wraps it in a GET_FAILED, SET_FAILED or similar code of the
caller. An index lookup outside a libcdata array fails with the array's
`ValueOutOfBounds`. The scan state's guards against an empty pattern and a
zero skip report `ValueZeroOrLess`.

Calls between files that came from different revisions of the library are
modelled by contract. The node scan that `libsigscan_scan_state.c` calls
takes 6 arguments, while the one `libsigscan_scan_tree_node.c` defines takes
9. So the scan state takes the node scan as a function parameter (`NodeScan`)
and checks for itself every match it reports.

Constants that come from headers which are not part of this model were taken
from upstream libsigscan and libyal:

- the signature flags FROM_START = 1, FROM_END = 2 and mask 3;
- the scan object types NODE = 1 and SIGNATURE = 2;
- a default scan buffer size of 16 MiB;
- a maximum allocation size of 128 MiB.

## Model

| member | source | states |
|---|---|---|
| Common.TerminatedSize | libsigscan/libsigscan_identifier.c:304-322 | the stored size is the length plus one, or the length when the last byte is already NUL; "test" of length 4 gives 5 |
| Signatures.Signature.constructor | libsigscan/libsigscan_signature.c:34-108 | a new signature has nothing set and pattern offset -1 |
| Signatures.Signature.Set | libsigscan/libsigscan_signature.c:219-407 | every argument is checked before anything changes: a NULL buffer is INVALID_VALUE, a size of 0 or above SSIZE_MAX is VALUE_EXCEEDS_MAXIMUM and flags outside the mask are UNSUPPORTED_VALUE, each leaving the signature as it was; on success the offset, pattern and flags equal the arguments and the identifier is terminated as TerminatedSize says |
| Signatures.Signature.GetIdentifier | libsigscan/libsigscan_signature.c:451-518 | fails for a buffer size above SSIZE_MAX or below the identifier size; otherwise returns exactly the stored identifier bytes |
| Signatures.Clone | libsigscan/libsigscan_signature.c:180-214 | fails when the destination is set; otherwise the destination aliases the source, a NULL source giving NULL |
| Signatures.FreeClone | libsigscan/libsigscan_signature.c:153-175 | clears only the caller's reference; the signature is unchanged |
| Identifiers.Identifier.constructor | libsigscan/libsigscan_identifier.c:33-100 | a new identifier holds no string |
| Identifiers.Identifier.Set | libsigscan/libsigscan_identifier.c:251-350 | a second set fails and changes nothing; a NULL string and a length of 0 or above the maximum are rejected; on success the string is stored with its terminated size |
| Identifiers.Identifier.GetString | libsigscan/libsigscan_identifier.c:179-246 | fails for a size above SSIZE_MAX or below the string size; otherwise copies exactly the string size bytes of the stored string |
| ScanObjects.Initialize | libsigscan/libsigscan_scan_object.c:37-137 | fails when the destination is set, for a type other than NODE or SIGNATURE (0xFF included) and for a NULL value; otherwise stores the type and value |
| ScanObjects.InitializeThenGet | libsigscan/libsigscan_scan_object.c:191-260 | `get_type` and `get_value` give back exactly what a successful initialize stored |
| ScanObjects.Released | libsigscan/libsigscan_scan_object.c:142-186 | `free` hands a contained tree node on for release and never a signature |
| SignaturesList.StopIndex | libsigscan/libsigscan_signatures_list.c:56-115 | the walk stops at the first NULL element or the first element that is the signature, and at the end otherwise |
| SignaturesList.RemoveFirstAt | libsigscan/libsigscan_signatures_list.c:85-115 | reaching the signature removes exactly that element, the others kept in order |
| SignaturesList.RemoveFirstNull | libsigscan/libsigscan_signatures_list.c:72-82 | reaching a NULL element is a VALUE_MISSING error |
| SignaturesList.RemoveFirstAbsent | libsigscan/libsigscan_signatures_list.c:117-132 | a list walked to the end is returned unchanged with success |
| SignaturesList.RemoveFirstOutcome | libsigscan/libsigscan_signatures_list.c:33-133 | a VALUE_MISSING error exactly when a NULL comes before every occurrence; otherwise the list unchanged (signature absent) or the list less its first occurrence, so the length drops by at most one |
| SignaturesList.RemoveFirstMultiset | libsigscan/libsigscan_signatures_list.c:33-133 | a successful removal takes exactly one copy of a present signature out of the multiset; a list without NULLs is always walked successfully |
| SignaturesList.RemoveSignature | libsigscan/libsigscan_signatures_list.c:33-133 | the in-place removal loop gives the outcome RemoveFirstOutcome describes, VALUE_MISSING on a NULL element |
| SignaturesArray.CountSet | libsigscan/libsigscan_signatures_array.c:54-95 | the number of non-NULL entries is at most the number of entries |
| SignaturesArray.GetNumberOfSignatures | libsigscan/libsigscan_signatures_array.c:33-97 | the counting loop returns the number of non-NULL entries and leaves the array unchanged |
| SignaturesArray.FirstOther | libsigscan/libsigscan_signatures_array.c:126-172 | the index the as-written removal clears is a non-NULL entry other than the signature, with every earlier entry NULL or the signature |
| SignaturesArray.RemoveSignature | libsigscan/libsigscan_signatures_array.c:102-174 | as written: the length never changes and at most one entry is set to NULL: the first non-NULL entry that is not the signature |
| SignaturesArray.FirstOtherIs | libsigscan/libsigscan_signatures_array.c:126-172 | the entry found by the as-written comparison is the one cleared |
| SignaturesArray.FirstOtherNone | libsigscan/libsigscan_signatures_array.c:126-172 | an array holding only NULLs and the signature is left unchanged |
| SignaturesArray.RemoveKeepsSignature | libsigscan/libsigscan_signatures_array.c:126-172 | the as-written removal never clears the signature itself and lowers the count by one exactly when another non-NULL entry exists |
| SignaturesArray.CountSetClear | libsigscan/libsigscan_signatures_array.c:54-95 | clearing one non-NULL entry lowers the count by exactly one |
| SignaturesArray.FirstSame | libsigscan/libsigscan_signatures_array.c:126-172 | the index the intended removal clears: the first entry that is the signature, or none |
| SignaturesArray.RemoveSignatureIntended | libsigscan/libsigscan_signatures_array.c:102-174 | the removal with the comparison the other way round: the first entry that is the signature becomes NULL, nothing else changes |
| SignaturesArray.FirstSameIs | libsigscan/libsigscan_signatures_array.c:126-172 | the first entry equal to the signature is the one the intended removal clears |
| SignaturesArray.RemoveIntendedOutcome | libsigscan/libsigscan_signatures_array.c:126-172 | the intended removal turns one occurrence into NULL when the signature is present and changes nothing otherwise, so the count drops by one exactly when it is present |
| SignaturesArray.RemoveInverted | libsigscan/libsigscan_signatures_array.c:150-170 | on the array [signature, other] the as-written removal clears `other` and the intended one clears the signature |
| SortedLists.ThreeWay | libsigscan/libsigscan_byte_value_group.c:203-211 | Less, Equal or Greater exactly as the first key is below, equal to or above the second |
| SortedLists.Search | libsigscan/libsigscan_offsets_list.c:187-239 | the early-exit search reports only an index holding the key |
| SortedLists.SearchFindsPresent | libsigscan/libsigscan_offsets_list.c:187-239 | on an ascending list the early exit loses nothing: the search finds a key exactly when it is present |
| SortedLists.FindKey | libsigscan/libsigscan_offsets_list.c:187-239 | the lookup loop returns what Search specifies |
| SortedLists.InsertPositionBoundary | libsigscan/libsigscan_offsets_list.c:269-292 | on an ascending list the insert is refused exactly for a present key, and otherwise lands between the smaller and the greater keys |
| SortedLists.InsertKeepsAscending | libsigscan/libsigscan_offsets_list.c:269-292 | the unique insert keeps the list strictly ascending and adds exactly the one key |
| SortedLists.SearchAfterInsert | libsigscan/libsigscan_byte_value_group.c:383-450 | after an insert the new key is found at its position and every other key where it was, shifted past the insert position |
| SortedLists.FindItem | libsigscan/libsigscan_byte_value_group.c:300-355 | the item lookup loop returns the item whose key matches, or none, as Lookup specifies |
| SortedLists.InsertItem | libsigscan/libsigscan_byte_value_group.c:383-450 | the unique ordered insert of a group: refused exactly for a key already present, and otherwise the list stays ascending and gains exactly that item |
| SortedLists.LookupAfterInsert | libsigscan/libsigscan_signature_table.c:717-789 | inserting a group with a new key makes its lookup find the new group and leaves the lookup of every other key unchanged |
| SortedLists.LookupAfterReplace | libsigscan/libsigscan_pattern_weights.c:816-830 | storing an updated group with the same key keeps the keys and changes only that key's lookup |
| SignatureGroups.SignatureGroup.constructor | libsigscan/libsigscan_signature_group.c:35-123 | a new group stores its byte value and no signatures |
| SignatureGroups.SignatureGroup.AppendSignature | libsigscan/libsigscan_signature_group.c:334-378 | NULL is rejected and changes nothing; otherwise the signature becomes the last element and the count grows by one |
| SignatureGroups.SignatureGroup.GetSignatureByIndex | libsigscan/libsigscan_signature_group.c:293-329 | succeeds exactly for an index inside the list, with the signature stored there |
| SignatureGroups.Compare | libsigscan/libsigscan_signature_group.c:175-213 | three-way comparison by byte value |
| ByteValueGroups.ByteValueGroup.constructor | libsigscan/libsigscan_byte_value_group.c:36-124 | a new group has its pattern offset and no signature groups |
| ByteValueGroups.ByteValueGroup.GetSignatureGroup | libsigscan/libsigscan_byte_value_group.c:254-357 | returns the signature group of the byte value, or none, as the early-exit lookup finds it |
| ByteValueGroups.ByteValueGroup.InsertSignature | libsigscan/libsigscan_byte_value_group.c:362-452 | a signature group is added only for a new byte value, and the groups stay strictly ascending; a non-NULL signature is appended under its byte value; NULL fails after the group is created; every other byte value keeps its signatures |
| ByteValueGroups.ByteValueGroup.GetSignatureGroupByIndex | libsigscan/libsigscan_byte_value_group.c:495-531 | succeeds exactly for an index inside the list; -1 fails with ValueOutOfBounds |
| ByteValueGroups.Compare | libsigscan/libsigscan_byte_value_group.c:174-212 | three-way comparison by pattern offset; two groups at offset 0 compare Equal |
| SignatureTables.FiledNext | libsigscan/libsigscan_signature_table.c:325-393 | filing one more signature appends its contribution to the signatures filed under every offset and byte value |
| SignatureTables.FiledAppend | libsigscan/libsigscan_signature_table.c:265-407 | filing two view lists one after the other files, under every offset and byte value, what filing their concatenation does, and takes the same signatures |
| SignatureTables.FillConcatenation | libsigscan/libsigscan_scan_tree.c:1639-1672 | the sub-table filled from a signature group's list and then from the remaining list holds the same entries and signatures as one fill from the two lists put together, and fails on a NULL signature exactly when one of the two fills would |
| SignatureTables.SignatureTable.constructor | libsigscan/libsigscan_signature_table.c:39-144 | a new table has no byte value groups and no signatures |
| SignatureTables.SignatureTable.GetByteValueGroupByIndex | libsigscan/libsigscan_signature_table.c:468-504 | succeeds exactly for an index inside the list |
| SignatureTables.SignatureTable.GetByteValueGroupByOffset | libsigscan/libsigscan_signature_table.c:509-612 | returns the group whose offset equals the key, or none, stopping at the first larger offset |
| SignatureTables.SignatureTable.GetSignaturesListClone | libsigscan/libsigscan_signature_table.c:655-690 | the clone holds the same signatures in the same order |
| SignatureTables.SignatureTable.InsertSignature | libsigscan/libsigscan_signature_table.c:695-791 | a byte value group is added only for a new offset, so there is at most one per offset; the signature is filed under exactly its offset and byte value; NULL is rejected and leaves every entry as it was |
| SignatureTables.SignatureTable.InsertIntoGroup | libsigscan/libsigscan_signature_table.c:717-789 | for an offset that has a group, the signature is added to exactly that offset's entries |
| SignatureTables.SignatureTable.StoreInGroup | libsigscan/libsigscan_signature_table.c:717-789 | handing the signature to its group makes the groups hold what the table's entries say |
| SignatureTables.SignatureTable.HandToGroup | libsigscan/libsigscan_signature_table.c:717-789 | the group files the signature under the byte value and leaves its other byte values unchanged |
| SignatureTables.SignatureTable.InsertIntoNewGroup | libsigscan/libsigscan_signature_table.c:717-789 | for a new offset, a group is created and the signature is filed under it |
| SignatureTables.SignatureTable.AddByteValueGroup | libsigscan/libsigscan_signature_table.c:717-760 | the new empty group is inserted uniquely and changes no other offset's lookup |
| SignatureTables.SignatureTable.FileByte | libsigscan/libsigscan_signature_table.c:352-393 | the byte at `index` is filed under offset `base + index` unless the ignore list holds that offset |
| SignatureTables.SignatureTable.FileSignature | libsigscan/libsigscan_signature_table.c:325-393 | every pattern byte whose offset is not ignored is filed under its offset and byte value, and nothing else |
| SignatureTables.SignatureTable.FillSignature | libsigscan/libsigscan_signature_table.c:291-407 | a signature is taken exactly when its masked flags match the mode (every one in unbound mode); its base offset is the pattern offset (start), range size minus pattern offset, wrapped to a signed 64-bit value (end), or 0 (unbound); it is filed and appended once |
| SignatureTables.SignatureTable.Fill | libsigscan/libsigscan_signature_table.c:210-425 | an unknown mode is rejected before anything changes; on success the table files exactly the included signatures' non-ignored bytes and appends the included signatures in list order; a NULL signature is an error |
| SignatureTables.SignatureTable.FillList | libsigscan/libsigscan_signature_table.c:264-420 | the signature loop leaves the table holding what it held plus every signature before the first NULL |
| SignatureTables.SignatureTable.FillNext | libsigscan/libsigscan_signature_table.c:264-420 | one loop turn adds exactly the signature at `j` |
| OffsetGroups.Initialize | libsigscan/libsigscan_offset_group.c:35-124 | a new group has its weight and no offsets; every index fails |
| OffsetGroups.GetOffsetByIndex | libsigscan/libsigscan_offset_group.c:292-353 | succeeds exactly for an index inside the array, with the stored offset; -1 fails |
| OffsetGroups.AppendOffset | libsigscan/libsigscan_offset_group.c:358-418 | the weight stays, the count grows by one, the new offset is at the last index and every earlier index is unchanged |
| OffsetGroups.Compare | libsigscan/libsigscan_offset_group.c:174-212 | three-way comparison by weight |
| WeightGroups.Initialize | libsigscan/libsigscan_weight_group.c:64-139 | a new group has its pattern offset and weight 0 |
| WeightGroups.AddWeight | libsigscan/libsigscan_weight_group.c:217-238 | the weight grows by `w`; the pattern offset stays |
| WeightGroups.SetWeight | libsigscan/libsigscan_weight_group.c:280-301 | `get_weight` then returns `w`; the pattern offset stays |
| WeightGroups.Compare | libsigscan/libsigscan_weight_group.c:174-212 | three-way comparison by pattern offset |
| OffsetsList.OffsetClone | libsigscan/libsigscan_offsets_list.c:63-115 | fails exactly when the destination is set; otherwise the destination equals the source, NULL included |
| OffsetsList.OffsetListCompare | libsigscan/libsigscan_offsets_list.c:120-158 | three-way comparison of the offsets |
| OffsetsList.HasOffset | libsigscan/libsigscan_offsets_list.c:163-240 | true only for a present offset, and on an ascending list exactly for a present one |
| OffsetsList.InsertOffset | libsigscan/libsigscan_offsets_list.c:245-294 | on an ascending list: succeeds exactly for a new offset, keeps the list ascending and adds exactly that offset |
| Weighting.PatternWeights.constructor | libsigscan/libsigscan_pattern_weights.c:36-141 | both lists are empty and the largest weight is not available |
| Weighting.PatternWeights.LargestWeight | libsigscan/libsigscan_pattern_weights.c:315-382 | the weight of the last offset group, which on an ascending list is at least every weight; none without offset groups |
| Weighting.PatternWeights.GetOffsetGroup | libsigscan/libsigscan_pattern_weights.c:387-490 | the group of the weight, or none, as the early-exit lookup finds it |
| Weighting.PatternWeights.GetWeightGroup | libsigscan/libsigscan_pattern_weights.c:612-715 | the group of the offset, or none, as the early-exit lookup finds it |
| Weighting.PatternWeights.InsertOffset | libsigscan/libsigscan_pattern_weights.c:495-607 | an offset group is added only for a new weight, keeping at most one per weight; the offset is appended to that weight's offsets and every other weight keeps its offsets |
| Weighting.PatternWeights.AppendToGroup | libsigscan/libsigscan_pattern_weights.c:495-607 | the offset is appended to the offsets of its weight, which becomes a key if it was not one; every other weight keeps its offsets and the list stays ordered |
| Weighting.PatternWeights.FindOrInsertWeightGroup | libsigscan/libsigscan_pattern_weights.c:720-832 | the index of the offset's weight group, a new one with weight 0 inserted uniquely when the offset is new; no other weight changes |
| Weighting.PatternWeights.InsertAddWeight | libsigscan/libsigscan_pattern_weights.c:720-832 | the offset's weight grows by `weight` (from 0 for a new offset); every other offset keeps its weight |
| Weighting.PatternWeights.InsertSetWeight | libsigscan/libsigscan_pattern_weights.c:837-927 | the offset's weight becomes `weight`; every other offset keeps its weight |
| Weighting.PatternWeights.AddWeight | libsigscan/libsigscan_pattern_weights.c:205-255 | the offset is filed under the weight given, not the accumulated total, and its weight grows by that weight |
| Weighting.PatternWeights.SetWeight | libsigscan/libsigscan_pattern_weights.c:260-310 | the offset is filed under the weight and its weight is overwritten with it |
| ScanTreeSelection.LargestOffsets | libsigscan/libsigscan_scan_tree.c:854-933 | on ordered weights there is no error; a non-empty result is the offsets filed under the largest weight, which is positive; without offset groups there are none |
| ScanTreeSelection.LargestOffsetsFiled | libsigscan/libsigscan_scan_tree.c:854-933 | when every filed weight is positive and at most `largest`, which is filed when any is, the offsets read back are those filed under `largest` |
| ScanTreeSelection.ByteValueSelection | libsigscan/libsigscan_scan_tree.c:820-961 | on ordered weights there is no error; without offset groups the offset stays the current one and is not found |
| ScanTreeSelection.StickyWeights | libsigscan/libsigscan_scan_tree.c:738-800 | the loop sees each offset's weight, or the weight seen last for an offset without a group |
| ScanTreeSelection.FirstMaxExtend | libsigscan/libsigscan_scan_tree.c:738-800 | one more weight takes over the first maximum exactly when it is strictly larger |
| ScanTreeSelection.StickyWeightsRecorded | libsigscan/libsigscan_scan_tree.c:738-800 | weight groups that agree with a weight map give the same weights in the loop whether read from the groups or the map |
| ScanTreeSelection.FirstMaxIndex | libsigscan/libsigscan_scan_tree.c:738-800 | the index of the first of the largest weights, which FirstMaxUnique shows is the only such index |
| ScanTreeSelection.OccurrenceLoopFirstMax | libsigscan/libsigscan_scan_tree.c:738-800 | the occurrence loop selects the first offset of the largest weight it sees, so the first one wins ties |
| ScanTreeSelection.OccurrenceSelection | libsigscan/libsigscan_scan_tree.c:578-815 | on ordered weights the selection never fails; which offset it takes is stated by OccurrenceLoopFirstMax and MostSignificantWithoutByteValues |
| ScanTreeSelection.SimilarityLoopSelectsListed | libsigscan/libsigscan_scan_tree.c:406-560 | the similarity loop always selects one of the offsets it is given |
| ScanTreeSelection.SimilarityLoopWithoutByteValues | libsigscan/libsigscan_scan_tree.c:406-560 | without byte-value weights the similarity loop selects what the occurrence loop would |
| ScanTreeSelection.SimilaritySelection | libsigscan/libsigscan_scan_tree.c:240-573 | on ordered weights the selection never fails; which offset it takes is stated by SimilarityLoopSelectsListed and MostSignificantWithoutByteValues |
| ScanTreeSelection.MostSignificant | libsigscan/libsigscan_scan_tree.c:966-1117 | 0 signatures give offset 0, not found; for any other number a successful selection is found, falling back on the first byte value group's offset |
| ScanTreeSelection.MostSignificantWithoutByteValues | libsigscan/libsigscan_scan_tree.c:966-1117 | with the byte-value weights `fill_pattern_weights` leaves (none), the chosen offset for 1, 2 and 3 or more signatures, stated in closed form |
| ScanTrees.AddSizesTotal | libsigscan/libsigscan_scan_tree.c:2354-2426 | one byte value group raises its offset's similarity weight by the sizes of its signature groups of more than one signature, and no other weight |
| ScanTrees.SimilarityWeightsTotal | libsigscan/libsigscan_scan_tree.c:2289-2426 | each offset's similarity weight grows by its similarity total |
| ScanTrees.OccurrenceWeightsSet | libsigscan/libsigscan_scan_tree.c:2321-2350 | the occurrence weight of an offset is the number of signature groups of the last group above 1 that set it, and the earlier weight otherwise |
| ScanTrees.AddSimilarityWeights | libsigscan/libsigscan_scan_tree.c:2354-2426 | the inner loop adds each signature group's size of more than one to the group's offset, and files the offset under that size, in signature group order |
| ScanTrees.FillGroupWeights | libsigscan/libsigscan_scan_tree.c:2293-2426 | one byte value group sets its occurrence weight when above 1 and files its offset under it, and adds and files its similarity weights |
| ScanTrees.FillPatternWeights | libsigscan/libsigscan_scan_tree.c:2246-2430 | the similarity and occurrence weights, and the offsets filed under each weight, equal the closed-form folds over the table's shapes; the byte-value weights are left untouched, because `byte_value` stays 0 and byte value 0 is common |
| ScanTrees.FillNext | libsigscan/libsigscan_scan_tree.c:2289-2430 | one turn of the outer loop extends the weight and filing folds from the first i groups to the first i + 1 |
| ScanTrees.FileSizesAt | libsigscan/libsigscan_scan_tree.c:2354-2426 | one group appends its offset once under each size above 1, and a weight is filed exactly when it was or gains an offset |
| ScanTrees.SimilarityFiledAt | libsigscan/libsigscan_scan_tree.c:2289-2426 | after the whole table the offsets under each similarity weight are the earlier ones followed by SimilarityOffsets, in table order |
| ScanTrees.OccurrenceFiledAt | libsigscan/libsigscan_scan_tree.c:2321-2350 | after the whole table the offsets under each occurrence weight are the earlier ones followed by OccurrenceOffsets, in table order |
| ScanTrees.SimilarityFiledMax | libsigscan/libsigscan_scan_tree.c:2354-2426 | offsets are filed only under weights above 1 and at most MaxSimilarity, and MaxSimilarity, when not 0, has some offset filed under it |
| ScanTrees.OccurrenceFiledMax | libsigscan/libsigscan_scan_tree.c:2321-2350 | offsets are filed only under weights above 1 and at most MaxOccurrence, and MaxOccurrence, when not 0, has some offset filed under it |
| ScanTrees.FiledListed | libsigscan/libsigscan_scan_tree.c:2289-2426 | every offset filed under any weight is the pattern offset of one of the byte value groups |
| ScanTrees.LargestOffsetsFilled | libsigscan/libsigscan_scan_tree.c:854-933 | on weights freshly filled from a table, the largest-weight offsets are those filed under MaxSimilarity and MaxOccurrence |
| ScanTrees.SignificantOfFilled | libsigscan/libsigscan_scan_tree.c:966-1117 | on weights freshly filled from a table and no byte-value weights, the most significant offset is Significant of the signature count and the table's shapes |
| ScanTrees.SignificantListed | libsigscan/libsigscan_scan_tree.c:966-1117 | a found significant offset is the pattern offset of one of the byte value groups |
| NodeBuilder.SignatureLists | libsigscan/libsigscan_scan_tree.c:1459-1534 | the signatures of each signature group, one list per group |
| NodeBuilder.RemoveAllFails | libsigscan/libsigscan_scan_tree.c:1496-1534 | once one removal fails, the whole walk fails with that error |
| NodeBuilder.RemoveListsFails | libsigscan/libsigscan_scan_tree.c:1459-1534 | once one group's removals fail, the whole walk fails |
| NodeBuilder.RemoveAllMultiset | libsigscan/libsigscan_scan_tree.c:1496-1534 | removing from a list without NULLs succeeds and takes out one copy of each removed signature the list holds |
| NodeBuilder.RemoveListsMultiset | libsigscan/libsigscan_scan_tree.c:1459-1534 | what is left is the list less the signatures of every group |
| NodeBuilder.RemoveGroupSignatures | libsigscan/libsigscan_scan_tree.c:1496-1534 | one `remove_signature` per signature of the group, with the outcome RemoveAll specifies |
| NodeBuilder.RemoveCovered | libsigscan/libsigscan_scan_tree.c:1445-1534 | the remaining signatures are the table's list less the signatures of every signature group |
| NodeBuilder.ChooseOffset | libsigscan/libsigscan_scan_tree.c:1247-1340 | the offset is Significant of the signature count and the table's shapes: the first group's offset for one signature, the single offset of most signature groups for two, the single offset of the largest signature group for more, with their tie-breaks |
| NodeBuilder.SubNode | libsigscan/libsigscan_scan_tree.c:1626-1725 | an unknown mode fails; on success the object is a NODE scan object holding the root of a new sub-tree at the given level |
| NodeBuilder.FillSlots | libsigscan/libsigscan_scan_tree.c:1537-1745 | an empty signature group makes the build fail; on success each chosen byte value's slot holds a signature leaf for a one-signature group and a sub-tree otherwise, and no default is set yet |
| NodeBuilder.SetDefault | libsigscan/libsigscan_scan_tree.c:1746-1895 | no remaining signature leaves no default, one gives a signature leaf, more give a sub-tree; the byte value slots are unchanged |
| NodeBuilder.Populate | libsigscan/libsigscan_scan_tree.c:1428-1895 | the new node tests the offset and has its slots and default filled as FillSlots and SetDefault say |
| NodeBuilder.FreshOffset | libsigscan/libsigscan_scan_tree.c:1247-1375 | with three new weight lists, the offset is Significant of the signature count and the table's shapes; none for a table without signatures |
| NodeBuilder.SelectOffset | libsigscan/libsigscan_scan_tree.c:1247-1427 | an error from Significant is an error; on success the chosen offset is Significant's, was new to the ignore list, which gains it; a found offset has a byte value group, whose signature groups come back in ascending byte-value order; an offset is not found only for a table without signatures |
| NodeBuilder.Uncovered | libsigscan/libsigscan_scan_tree.c:1445-1534 | the signatures no signature group covers, in table order |
| NodeBuilder.Assemble | libsigscan/libsigscan_scan_tree.c:1428-1895 | the node is created and filled from the groups, with the uncovered signatures as its default |
| NodeBuilder.BuildNode | libsigscan/libsigscan_scan_tree.c:1165-2002 | on success the node tests the offset Significant gives for the table, which was new to the ignore list and is added to it; its slots hold an object for exactly the byte values filed at that offset, a leaf for one signature and a sub-tree otherwise; the default is as SetDefault says |
| ScanTreeRoots.FirstNull | libsigscan/libsigscan_scan_tree.c:2484-2570 | the index of the first NULL signature, or the length |
| ScanTreeRoots.ModeRangesCount | libsigscan/libsigscan_scan_tree.c:2511-2563 | a range is inserted exactly for each signature the signature table takes in the same mode |
| ScanTreeRoots.UnboundRangesAll | libsigscan/libsigscan_scan_tree.c:2511-2563 | in unbound mode every signature inserts its range, in list order, with its pattern offset converted to a 64-bit unsigned start |
| ScanTreeRoots.ModeRangesUnsigned | libsigscan/libsigscan_scan_tree.c:2545-2551 | every inserted range start, and the start of the spanning range, is a 64-bit unsigned value, whatever the sign of the pattern offsets |
| ScanTreeRoots.Span | libsigscan/libsigscan_scan_tree.c:1122-1160 | from the smallest start to the largest end, both attained by some range; none for no ranges |
| ScanTreeRoots.ScanTree.constructor | libsigscan/libsigscan_scan_tree.c:73-158 | a new tree has no root, no skip table and an empty range list |
| ScanTreeRoots.ScanTree.FillRangeList | libsigscan/libsigscan_scan_tree.c:2435-2580 | an unknown mode is rejected before anything changes; otherwise the range of each signature taken in the mode is inserted, starting at its pattern offset converted to 64-bit unsigned, and a NULL signature stops with an error after the ranges before it |
| ScanTreeRoots.ScanTree.InsertRanges | libsigscan/libsigscan_scan_tree.c:2484-2575 | the loop appends the ranges of the signatures taken in the mode before the first NULL, each starting at the pattern offset converted to 64-bit unsigned, and fails exactly on a NULL |
| ScanTreeRoots.ScanTree.Build | libsigscan/libsigscan_scan_tree.c:2007-2241 | unsupported modes fail; the unsigned ranges of the signatures taken in the mode are inserted; no collected range gives Ok(false); otherwise a root and a skip table are built and the mode recorded, Ok(true) |
| ScanTreeRoots.ScanTree.BuildRoot | libsigscan/libsigscan_scan_tree.c:2095-2180 | fails when a root already exists; on success the root lies in a new closed set of valid nodes |
| ScanTreeRoots.FilledSkipTable | libsigscan/libsigscan_scan_tree.c:2189-2220 | a skip table filled from non-empty patterns, with the properties FreshFill states |
| ScanTreeNodes.ScanTreeNode.constructor | libsigscan/libsigscan_scan_tree_node.c:37-112 | the given offset, all 256 slots empty and no default |
| ScanTreeNodes.ScanTreeNode.SetByteValue | libsigscan/libsigscan_scan_tree_node.c:185-230 | an occupied slot or a NULL object fails and changes nothing; otherwise exactly that slot is filled |
| ScanTreeNodes.ScanTreeNode.SetDefaultValue | libsigscan/libsigscan_scan_tree_node.c:235-278 | a set default or a NULL object fails and changes nothing; otherwise only the default is set |
| ScanTreeNodes.ScanTreeNode.GetScanObject | libsigscan/libsigscan_scan_tree_node.c:283-326 | the slot of the byte when set, else the default when set, else none |
| ScanTreeNodes.LeafMatch | libsigscan/libsigscan_scan_tree_node.c:569-622 | a match only when the pattern fits the remaining data and the buffer, equals the buffer bytes at the anchored offset, and that offset is the scan offset; the only error is ValueOutOfBounds |
| ScanTreeNodes.Selected | libsigscan/libsigscan_scan_tree_node.c:435-455 | the default when the tested offset lies past the remaining data, and an error when it lies inside the data but past the buffer |
| ScanTreeNodes.WalkSound | libsigscan/libsigscan_scan_tree_node.c:435-622 | a match the walk reports is a signature leaf whose pattern equals the buffer at the anchored offset |
| ScanTreeNodes.ScanBuffer | libsigscan/libsigscan_scan_tree_node.c:331-631 | offset modes other than start, end and unbound and a data offset outside the data are rejected; otherwise the result is the walk's, so a reported signature matches as WalkSound says |
| SkipTables.LargestIsMax | libsigscan/libsigscan_skip_table.c:181-245 | from a fresh table the first loop finds the largest pattern size |
| SkipTables.SmallestIsMin | libsigscan/libsigscan_skip_table.c:181-245 | from a fresh table and without empty patterns the first loop finds the smallest pattern size |
| SkipTables.PatternSkipsBounded | libsigscan/libsigscan_skip_table.c:276-289 | offering candidates keeps every skip value below the smallest size |
| SkipTables.SkipsBounded | libsigscan/libsigscan_skip_table.c:249-300 | after the second loop every skip value is below the smallest size |
| SkipTables.PatternSkipsOrigin | libsigscan/libsigscan_skip_table.c:278-290 | a byte value changes only to `smallest - 1 - i` for a position i where the pattern holds it |
| SkipTables.SkipsOrigin | libsigscan/libsigscan_skip_table.c:249-300 | a byte value holds its old value or the distance of one of its occurrences in some window; a value occurring in no window keeps its old value |
| SkipTables.SkipTable.constructor | libsigscan/libsigscan_skip_table.c:35-107 | all 256 skip values and both sizes are 0 |
| SkipTables.SkipTable.Fill | libsigscan/libsigscan_skip_table.c:142-307 | a NULL entry is an error; otherwise the sizes are what the first loop finds and the skip values what the second loop leaves |
| SkipTables.SkipTable.FillSizes | libsigscan/libsigscan_skip_table.c:181-245 | the first loop leaves the largest and smallest sizes |
| SkipTables.SkipTable.FillSkips | libsigscan/libsigscan_skip_table.c:249-300 | the second loop offers every pattern's window |
| SkipTables.SkipTable.LowerPattern | libsigscan/libsigscan_skip_table.c:276-290 | the inner loop offers the first `smallest` bytes of the pattern |
| SkipTables.SkipTable.GetSkipValue | libsigscan/libsigscan_skip_table.c:349-388 | the smallest size when the stored value is 0, else the stored value |
| SkipTables.FreshFill | libsigscan/libsigscan_skip_table.c:142-307 | on a fresh table with non-empty patterns the sizes are the minimum and maximum pattern sizes, the smallest-size window fits every pattern, and every skip value lies below the smallest size |
| ScanStates.Consumed | libsigscan/libsigscan_scan_state.c:809-818 | the chunk is clamped to the bytes left, so the scanned size never passes the data size |
| ScanStates.Remainder | libsigscan/libsigscan_scan_state.c:858-899 | what is left of a chunk once its whole multiples of the buffer size are taken off, which is the chunk size modulo the buffer size |
| ScanStates.ScanState.constructor | libsigscan/libsigscan_scan_state.c:37-124 | INITIALIZED, nothing scanned, no buffer and no results |
| ScanStates.ScanState.SetDataSize | libsigscan/libsigscan_scan_state.c:183-229 | 0 and sizes above INT64_MAX are rejected and change nothing; otherwise the size is stored |
| ScanStates.ScanState.Start | libsigscan/libsigscan_scan_state.c:274-374 | succeeds only from INITIALIZED or STOPPED without a buffer, with a data size, a tree and a buffer size at most SSIZE_MAX; then STARTED with nothing scanned or carried and the root as the active node |
| ScanStates.ScanState.StopAsWritten | libsigscan/libsigscan_scan_state.c:379-438 | as written: fails unless STARTED; a started scan with nothing carried fails; on success the buffer is released and the state is STOPPED; what it finds lies in the carried bytes |
| ScanStates.ScanState.Stop | libsigscan/libsigscan_scan_state.c:379-438 | as intended: a started scan with nothing carried always stops; otherwise as StopAsWritten |
| ScanStates.ScanState.Release | libsigscan/libsigscan_scan_state.c:399-435 | no buffer, a buffer size of 0, STOPPED and no active node |
| ScanStates.ScanState.Scan | libsigscan/libsigscan_scan_state.c:443-724 | a bound above SSIZE_MAX and a start offset not below the bound fail and record nothing; the results only grow, and each new one has its pattern in the data at its own pattern offset, counted from `scanned - bufferDataSize`, and starts before the bound |
| ScanStates.ScanState.Step | libsigscan/libsigscan_scan_state.c:508-712 | a match is recorded only when the pattern equals the data and the scan offset is the pattern offset; on success it moves on by the pattern size or by at least 1 |
| ScanStates.ScanState.SkipAt | libsigscan/libsigscan_scan_state.c:646-710 | the skip value of the last byte of the smallest-size window, at least 1; a window past the bound is an error |
| ScanStates.ScanState.ScanBuffer | libsigscan/libsigscan_scan_state.c:729-903 | fails unless STARTED; returns false and changes nothing once more than the data size was scanned; otherwise the scanned size grows by the clamped length and the carried bytes stay below the buffer size and are the chunk's tail |
| ScanStates.ScanState.Feed | libsigscan/libsigscan_scan_state.c:818-900 | whole multiples of the buffer size are scanned in place and the remainder is carried |
| ScanStates.ScanState.ScanWhole | libsigscan/libsigscan_scan_state.c:858-880 | the scanned prefix is the largest whole multiple of the buffer size |
| ScanStates.ScanState.CarryOver | libsigscan/libsigscan_scan_state.c:882-899 | the last bytes of the chunk are copied to the front of the buffer |
| ScanStates.ScanState.NumberOfResults | libsigscan/libsigscan_scan_state.c:908-944 | the number of results |
| ScanStates.ScanState.GetResult | libsigscan/libsigscan_scan_state.c:949-988 | succeeds exactly for an index inside the results |
| Common.Unsigned64 | libsigscan/libsigscan_scan_tree.c:2545-2551 | a value converted to 64-bit unsigned lies in range and equals a value already in range |
| Common.Signed64 | libsigscan/libsigscan_signature_table.c:329-332 | a value converted to 64-bit signed lies in range, equals a value already in range, and keeps the value's 64-bit pattern |
| Scanners.RoundDown | libsigscan/libsigscan_scanner.c:1008-1015 | the largest multiple of the unit not above the value |
| Scanners.RoundUp | libsigscan/libsigscan_scanner.c:1009-1016 | the smallest multiple of the unit not below the value |
| Scanners.Clamped | libsigscan/libsigscan_scanner.c:1018-1022 | a range starting inside the file is clamped to end within it |
| Scanners.AlignedRangeAsWritten | libsigscan/libsigscan_scanner.c:1008-1022 | as written: the start is rounded down and the size rounded up on its own; the result stays in the file |
| Scanners.AlignedRangeMissesEnd | libsigscan/libsigscan_scanner.c:1008-1022 | a concrete range whose last bytes the as-written read range misses |
| Scanners.AlignedRange | libsigscan/libsigscan_scanner.c:1008-1022 | as intended: the read range holds the whole spanning range when that lies in the file |
| Scanners.ReadRangeOf | libsigscan/libsigscan_scanner.c:989-1022 | none exactly without ranges; otherwise aligned, in the file and starting before every range, with the size of the as-written rounding |
| Scanners.IntendedReadRangeOf | libsigscan/libsigscan_scanner.c:1141-1155 | with the intended alignment every pattern range lies in the read range |
| Scanners.FoundInChunk | libsigscan/libsigscan_scanner.c:1049-1092 | a result found in a chunk read at an offset is found in the file |
| Scanners.CarryStep | libsigscan/libsigscan_scanner.c:1049-1092 | a chunk of at most a buffer fills the buffer or is carried whole, so the carried bytes are the last read |
| Scanners.FoundInTail | libsigscan/libsigscan_scanner.c:1094-1105 | what a stop finds lies in the file or runs past the carried bytes |
| Scanners.Scanner.constructor | libsigscan/libsigscan_scanner.c:45-138 | no signatures, no trees and the default buffer size |
| Scanners.Scanner.SetScanBufferSize | libsigscan/libsigscan_scanner.c:250-286 | 0 and sizes above SSIZE_MAX fail and change nothing; otherwise the size is stored |
| Scanners.Scanner.AddSignature | libsigscan/libsigscan_scanner.c:291-409 | fails once a tree exists and for a pattern under 4 bytes; otherwise the list grows by exactly the new signature |
| Scanners.Scanner.NewTree | libsigscan/libsigscan_scanner.c:436-508 | a built tree holds the mode's ranges, and a failed build leaves no tree |
| Scanners.Scanner.BuildTrees | libsigscan/libsigscan_scanner.c:436-508 | the header tree (start) and footer tree (end) are each built only when missing |
| Scanners.Scanner.ScanStart | libsigscan/libsigscan_scanner.c:414-526 | the missing trees are built, then the state is started on the header tree |
| Scanners.Scanner.ScanStop | libsigscan/libsigscan_scanner.c:531-566 | the stop as written: a started scan with nothing carried fails; what it finds starts in the carried bytes |
| Scanners.Scanner.ScanBuffer | libsigscan/libsigscan_scanner.c:571-610 | the state's scan of the chunk, each new result's pattern found in the chunk |
| Scanners.Scanner.ScanChunk | libsigscan/libsigscan_scanner.c:1049-1092 | one chunk read and scanned; the results found lie in the range |
| Scanners.Scanner.ScanRange | libsigscan/libsigscan_scanner.c:1049-1092 | the chunks are the range in order, buffer-size chunks with a shorter last one; every result lies in the range and the carried bytes are its tail |
| Scanners.Scanner.ScanTreeRange | libsigscan/libsigscan_scanner.c:989-1092 | the read range of the tree is read whole and every result lies in the file |
| Scanners.Scanner.ScanPass | libsigscan/libsigscan_scanner.c:989-1105 | every result lies in the file or is a stop result running past the carried bytes |
| Scanners.Scanner.ScanFile | libsigscan/libsigscan_scanner.c:865-1254 | the data size is the file size; every result found has its pattern in the file, except a stop result running past the carried bytes |
| Scanners.Scanner.ScanPasses | libsigscan/libsigscan_scanner.c:961-1240 | the header pass, then the footer pass with the state started again on the footer tree |
| ScanHandle.TextEnd | sigscantools/scan_handle.c:264-322 | the first NUL from `from` on, or the size |
| ScanHandle.FirstNonDigit | sigscantools/scan_handle.c:284-314 | the first non-digit, or the bound |
| ScanHandle.TextEndAt | sigscantools/scan_handle.c:264-322 | TextEnd is the first NUL or the size |
| ScanHandle.FirstNonDigitAt | sigscantools/scan_handle.c:284-314 | FirstNonDigit is the first non-digit or the bound |
| ScanHandle.DecimalValueStep | sigscantools/scan_handle.c:296-300 | one more digit multiplies the value by ten and adds the digit |
| ScanHandle.CopyStringToOffset | sigscantools/scan_handle.c:219-324 | the loop with its accumulator computes the conversion ParsedOffset specifies, whose outcomes OffsetDigits, OffsetTooLarge, OffsetNotDigit and OffsetRoundTrip state; the accumulator stays at or below the final magnitude (PartialValuesBelow) |
| ScanHandle.OffsetTooLarge | sigscantools/scan_handle.c:284-314 | a digit past the largest index makes the offset too large |
| ScanHandle.OffsetNotDigit | sigscantools/scan_handle.c:284-314 | a byte that is neither a digit nor the end of the text is unsupported |
| ScanHandle.OffsetDigits | sigscantools/scan_handle.c:264-322 | digits only give their value, negated after a minus; "-" alone gives 0 |
| ScanHandle.DecimalTextValue | sigscantools/scan_handle.c:296-300 | the decimal digits of `n` have the value `n` |
| ScanHandle.OffsetRoundTrip | sigscantools/scan_handle.c:219-324 | an offset whose magnitude is at most INT64_MAX, written with its sign and a NUL, converts back to itself |
| ScanHandle.DigitsThenNul | sigscantools/scan_handle.c:264-322 | digits of a value at most INT64_MAX after the sign and a NUL after them give the digits' value |
| ScanHandle.PartialValuesBelow | sigscantools/scan_handle.c:295-321 | the running total, ten times it, and that plus the next digit never exceed the value of all the digits, so a value an off64_t holds is reached without overflow |
| ScanHandle.Int64Digits | sigscantools/scan_handle.c:284-295 | a magnitude of at most INT64_MAX has at most 19 digits, within the 21 the string index bound allows |
| ScanHandle.HexValue | sigscantools/scan_handle.c:455-490 | the value of a hexadecimal digit of either case |
| ScanHandle.Escape | sigscantools/scan_handle.c:401-512 | one step consumes at least one byte of the string and never runs past its size |
| ScanHandle.Unescaped | sigscantools/scan_handle.c:399-513 | the decoded pattern is at most as long as the string before its last byte |
| ScanHandle.NextPatternByte | sigscantools/scan_handle.c:401-512 | the loop body decodes what Escape specifies |
| ScanHandle.CopyStringToPattern | sigscantools/scan_handle.c:329-526 | the loop computes the decoding Unescaped specifies, so the pattern has at most `string_size - 1` bytes |
| ScanHandle.HexEscapedRoundTrip | sigscantools/scan_handle.c:401-512 | a string of `\xHH` escapes ended by a NUL decodes to the pattern it escapes |
| ScanHandle.PlainRoundTrip | sigscantools/scan_handle.c:401-512 | a string without a backslash decodes to its bytes before the last |
| ScanHandle.UnknownEscapeFails | sigscantools/scan_handle.c:442-452 | a backslash before a byte naming no escape, or before the final byte, fails |
| ScanHandle.BareHexEscape | sigscantools/scan_handle.c:468-471 | `\x` not followed by two hex digits writes a backslash and goes on at the `x` |
| ScanHandle.SpanEnd | sigscantools/scan_handle.c:667-783 | the first byte not in the class, never past the line feed |
| ScanHandle.SpanEndAt | sigscantools/scan_handle.c:667-783 | SpanEnd is the first byte outside the class |
| ScanHandle.LayoutAfter | sigscantools/scan_handle.c:699-798 | where the offset and pattern of a line lie after its identifier |
| ScanHandle.WrittenLine | sigscantools/scan_handle.c:803-805 | the line with NULs written after its identifier, offset and pattern |
| ScanHandle.SkipClass | sigscantools/scan_handle.c:667-783 | each scanning loop stops at SpanEnd |
| ScanHandle.ScanLayout | sigscantools/scan_handle.c:654-798 | the scanning loops find the positions LineLayout describes |
| ScanHandle.ParseDefinition | sigscantools/scan_handle.c:652-847 | lines starting with a line feed, a carriage return or `#` are skipped; otherwise the NULs are written and the definition is the one DefinitionIn gives |
| ScanHandle.ConvertDefinition | sigscantools/scan_handle.c:808-847 | a negative offset gives FROM_END with the absolute value, otherwise FROM_START |
| ScanHandle.HexEscapedPatternChars | sigscantools/scan_handle.c:777-783 | every byte of an escaped pattern may appear in a pattern string |
| ScanHandle.FormatLine | sigscantools/scan_handle.c:654-798 | the identifier, a space, the offset, a space, the escaped pattern and a line feed |
| ScanHandle.FormattedLineRoundTrip | sigscantools/scan_handle.c:652-847 | a formatted line whose offset magnitude is at most INT64_MAX parses back to the definition it was written from |
| ScanHandle.FormatLineLaidOut | sigscantools/scan_handle.c:654-798 | a formatted line is laid out as the parser expects, wherever it lies in the buffer |
| ScanHandle.LineDefinitionOfLayout | sigscantools/scan_handle.c:803-847 | the definition on a line that is not skipped is the one its layout gives |

## Left out

- Allocation, `memset` and `memcpy` failures, the libcerror error chains and the libcnotify debug output (`HAVE_DEBUG_OUTPUT`, every `*_printf`, `libsigscan_debug.c`) are not modelled.
- The libcdata lists, arrays and range list are sequences. The range list is a sequence of (start, size) pairs in insert order, with `Span` as its spanning range.
- ScanTreeRoots.ScanTree.InsertRanges: libcdata's range list is not part of this model. The model appends every range with its 64-bit unsigned start and never fails an insert, also for a range whose end passes 2^64 (a negative pattern offset near 0 gives one), which libcdata may reject. It does not merge overlapping ranges, which leaves the spanning range unchanged.
- ScanTreeRoots.Span: the spanning range is computed with unbounded integers, so an end past 2^64 is not wrapped as a 64-bit sum would be.
- OffsetGroups and WeightGroups: offset and weight groups are values. Appending an offset or changing a weight gives a new group, which the pattern weights store in place of the old one. Updates through a second pointer to the same group are not modelled; the C code keeps no such pointer.
- Weighting.PatternWeights.AddWeight: weights are unbounded integers; the C `int` overflow is not modelled.
- ScanHandle.CopyStringToOffset: the offset is an unbounded integer. For 19 to 21 digits whose value is above INT64_MAX the C's off64_t multiply-and-add overflows, which is undefined behaviour in C; the model returns the exact value there instead. PartialValuesBelow shows that for a magnitude of at most INT64_MAX no step of the C's arithmetic overflows, so there the two agree.
- ScanHandle.OffsetDigits and ScanHandle.ParsedOffset: they state the exact, unbounded value of the digits for the same reason; OffsetRoundTrip, DigitsThenNul and FormattedLineRoundTrip are stated only for magnitudes of at most INT64_MAX.
- ScanHandle.ParseDefinition: the offset of a definition comes from ParsedOffset, so an offset above INT64_MAX in a definitions file is taken at its exact value, not the value an overflowing off64_t would hold.
- ScanStates.ScanState.Step: a step that would not move on is an error. The C loop would not terminate there. It happens only for an empty matched pattern or a smallest pattern size of 0.
- ScanStates.ScanState.SkipAt: returns the skip of the last byte of the window only. The C `do … while` loop looks further back only when that skip is 0, which happens only for a smallest pattern size of 0.
- ScanStates.ScanState.Scan: the node scan is a function parameter because the two files disagree on its signature. The results are proved to be found in the data, but not that every occurrence is found. So the results the Python tests expect (`["lnk"]`, `["regf"]` and `[]`, tests/pysigscan_test_scanner.py:113-131) are not derived.
- NodeBuilder.FillSlots, NodeBuilder.SetDefault: the `level` argument bounds the recursion depth. When it runs out, the build fails with OperationFailed. The C recursion has no such bound and ends because each sub-table is smaller.
- Scanners.Scanner.ScanFile: the file is a byte sequence. Reads through libbfio, seeking, `scan_file`, `scan_file_wide` and the abort flag are not modelled. A read past the end of the file comes up short and is an error.
- Scanners.Scanner.ScanFile: a result found by a stop is compared with the bytes left in the scan buffer. A pattern that runs past the carried bytes is compared with stale buffer bytes, so such a result is not claimed to lie in the file.
- Scanners.Scanner.ScanStop and Scanners.Scanner.ScanPasses model the stop as written. A scan fed whole buffer multiples therefore cannot be stopped (see Findings).
- The pysigscan binding, the `sigscan` tool's argument handling and signal handlers, `signature_definitions.c` and the file-reading and refill loop of `read_signature_definitions` are not modelled. Only the per-line parse is.
- `libsigscan_scan_result.c` and `libsigscan_scan_tree_values.c` are not modelled. The first is a bare allocation whose prototype disagrees with its header, and the second is a placeholder. A scan result is a value holding an offset and a signature.
- The constants of `libsigscan_definitions.h` and of libyal's memory header are not part of this model. The values used are listed above.

## Findings

| source | as written | input that shows it | evidently intended | confidence | as-written member | corrected member |
|---|---|---|---|---|---|---|
| libsigscan/libsigscan_scan_state.c:379-438 | `stop` always scans the carried-over bytes with a buffer size of `buffer_data_size`, and the internal scan rejects a buffer offset 0 that is not below that size | a started scan whose data was fed in whole multiples of the scan buffer size, so nothing is carried over: stop fails and the state stays STARTED | scan the carried-over bytes only when there are any, then release the buffer | not executed | ScanStates.ScanState.StopAsWritten | ScanStates.ScanState.Stop |
| libsigscan/libsigscan_scanner.c:1008-1022 | the aligned size is the range size rounded up, not the range end rounded up less the aligned start | a 4-byte pattern range at offset 6, buffer size 4, 100-byte file: bytes 4 to 8 are read and bytes 8 and 9 of the range are missed | round the range end up to a buffer multiple, so the read range holds the whole range | not executed | Scanners.AlignedRangeMissesEnd | Scanners.AlignedRange |
| libsigscan/libsigscan_signatures_array.c:150-170 | the loop clears the first non-NULL entry that is NOT the signature | the array [s, o] with s removed: o is cleared and s stays | clear the first entry that IS the signature | not executed | SignaturesArray.RemoveInverted | SignaturesArray.RemoveSignatureIntended |
