# Range-aggregation fast path over a BKD point tree

This project models the fast path that OpenSearch uses for range and date
histogram aggregations. In that path no doc is visited through doc values.
Instead, the aggregation's ranges are packed into byte bounds, and the
segment's point tree (a BKD tree) is walked once with a cursor over the
sorted ranges. Docs are then counted, or handed to a sub-aggregation, range
by range.

The model covers these parts:

- **Packed ranges** (`PackedRanges`, `ByteOrder`): the range list with
  inclusive lower and exclusive upper bounds. Values compare as unsigned
  big-endian numbers of `byteLen` bytes. `firstRangeIndex` picks the first
  range a segment can reach.
- **Range cursor and tree walk** (`RangeCursor`): `RangeCollectorForPointTree`,
  the intersect visitor and `multiRangesTraverse`/`intersectWithRanges`,
  written as functions of the cursor state. A cell wholly inside the active
  range is added in bulk, where the source as written throws; see
  "## Findings" and `InsideCell`.
- **Collector objects** (`PointTreeCollector`): the same steps done in place,
  by a `RangeCollector` class and a `DebugInfo` class. Each method is proved
  to follow the functions step by step.
- **Main theorem** (`TraversalCorrectness`): the walk reports exactly what a
  brute-force filter over all points reports. This holds up to a cut-off that
  only the cap on non-empty ranges can cause.
- **Bridges and contexts**:
  - the range aggregation's bridge and its `OptimizationContext`
    (`RangeAggregation`, `RangesOptimization`);
  - the filter-rewrite bridge and context (`FilterRewriteBridge`,
    `FilterRewriteOptimization`);
  - the date histogram bridge (`DateHistogramBridge`).
- **Aggregator calls** (`AggregationHost`): the aggregator's callbacks
  (`incrementDocCount`, `sub.collect`) are recorded as a sequence of `Call`
  values. The per-bucket totals are read back from that sequence.

## Model

| member | source | states |
|---|---|---|
| ByteOrder.Compare | server/src/main/java/org/opensearch/search/optimization/filterrewrite/Ranges.java:32-34 | the comparator's answer is the sign of the difference of the two values read as unsigned big-endian numbers of `byteLen` bytes |
| ByteOrder.EqualKeysIffSamePrefix | server/src/main/java/org/opensearch/search/optimization/filterrewrite/Ranges.java:32-34 | two values compare equal exactly when their first `byteLen` bytes are identical |
| PackedRanges.NewRanges | server/src/main/java/org/opensearch/search/optimization/filterrewrite/Ranges.java:23-30 | a range list exists exactly when the lower and upper lists are non-empty and of equal length; it keeps both lists, its size is their length and its byte width is that of the first lower bound |
| PackedRanges.NewRangesValid | server/src/main/java/org/opensearch/search/optimization/filterrewrite/Ranges.java:23-30 | bounds that all share the first bound's width give a range list whose every bound can be compared at that width |
| PackedRanges.WithinLowerBound | server/src/main/java/org/opensearch/search/optimization/filterrewrite/Ranges.java:36-38 | the lower bound is inclusive: true iff value >= lower |
| PackedRanges.WithinUpperBound | server/src/main/java/org/opensearch/search/optimization/filterrewrite/Ranges.java:40-42 | the upper bound is exclusive: true iff value < upper |
| PackedRanges.WithinLowerBoundAt | server/src/main/java/org/opensearch/search/optimization/filterrewrite/Ranges.java:44-46 | true iff the value is at or above the lower bound of range `idx` |
| PackedRanges.WithinUpperBoundAt | server/src/main/java/org/opensearch/search/optimization/filterrewrite/Ranges.java:48-50 | true iff the value is below the upper bound of range `idx` |
| PackedRanges.WithinRangeAt | server/src/main/java/org/opensearch/search/optimization/filterrewrite/Ranges.java:52-54 | true iff the value lies in range `idx`, i.e. both bound checks hold |
| PackedRanges.FirstRangeIndex | server/src/main/java/org/opensearch/search/optimization/filterrewrite/Ranges.java:56-68 | -1 when the first lower bound is above the segment maximum or no upper bound exceeds the segment minimum; otherwise the least range whose upper bound exceeds the segment minimum (every earlier one does not) |
| PackedRanges.FirstUpperAbove | server/src/main/java/org/opensearch/search/optimization/filterrewrite/Ranges.java:60-67 | the scan from index `i` finds the least range at or after `i` whose upper bound exceeds the minimum, or -1 iff there is none |
| PackedRanges.ComputeFirstRangeIndex | server/src/main/java/org/opensearch/search/optimization/filterrewrite/Ranges.java:56-68 | the source's counting loop answers exactly `FirstRangeIndex` |
| PackedRanges.AdjacentOrderedIsSortedDisjoint | server/src/main/java/org/opensearch/search/optimization/ranges/RangeAggregatorBridge.java:39-47 | ranges that are each ordered and end at or before the next one begins are pairwise sorted and disjoint |
| RangeCursor.IterateRangeEnd | server/src/main/java/org/opensearch/search/optimization/ranges/OptimizationContext.java:239-249 | the active index only moves forward and passes only ranges whose upper bound is at or below the value. Running out of ranges stops the walk without counting. Otherwise the value is below the new active upper bound, one more range is counted as visited, and the walk stops iff more ranges than the cap were visited. Buffer and reports are untouched |
| RangeCursor.MoveToCell | server/src/main/java/org/opensearch/search/optimization/ranges/OptimizationContext.java:364-370 | unless the walk stops, afterwards the cell's minimum is below the active range's upper bound |
| RangeCursor.CompareCell | server/src/main/java/org/opensearch/search/optimization/ranges/OptimizationContext.java:362-379 | the comparison never changes the ranges or the cap, and a classified cell leaves a cursor on a range (what each relation means is in `TraversalCorrectness.CompareStep` and `ComparePrunes`) |
| RangeCursor.IntersectNode | server/src/main/java/org/opensearch/search/optimization/ranges/OptimizationContext.java:296-322 | the walk of one node keeps the ranges and the cap, and unless it stopped it leaves a cursor on a range |
| RangeCursor.IntersectChildren | server/src/main/java/org/opensearch/search/optimization/ranges/OptimizationContext.java:309-314 | the walk over a crossing node's children keeps the ranges and the cap, and unless it stopped it leaves a cursor on a range |
| RangeCursor.VisitPoints | server/src/main/java/org/opensearch/search/optimization/ranges/OptimizationContext.java:316-318 | visiting a leaf's points keeps the ranges, the cap and the node counts, and unless it stopped it leaves a cursor on a range |
| TraversalCorrectness.TraversalMatchesFilter | server/src/main/java/org/opensearch/search/optimization/ranges/OptimizationContext.java:267-294 | on sorted, disjoint ranges and a well-formed point tree, the reports are the brute-force answer for the ranges below some cut-off `a`. The walk cuts off early only after visiting more ranges than the cap, so with a cap of at least the number of ranges every range is reported |
| TraversalCorrectness.ExpectedPerRange | server/src/main/java/org/opensearch/search/optimization/ranges/OptimizationContext.java:229-234 | the reference reports give each range below the cut-off exactly the docs the filter finds in it, and give every other range none |
| TraversalCorrectness.ExpectedAscending | server/src/main/java/org/opensearch/search/optimization/ranges/OptimizationContext.java:229-249 | the reference reports name ranges below the cut-off in strictly ascending order, so no range is reported twice |
| TraversalCorrectness.FinalizeExtends | server/src/main/java/org/opensearch/search/optimization/ranges/OptimizationContext.java:229-234 | flushing the buffer of the active range extends the reports by exactly that range's reference entry |
| TraversalCorrectness.AdvanceStops | server/src/main/java/org/opensearch/search/optimization/ranges/OptimizationContext.java:350-356 | when moving past a value stops the walk, everything below the new active range has been reported as the filter would over all points, and the stop is due to the ranges running out or the cap |
| TraversalCorrectness.AdvanceContinues | server/src/main/java/org/opensearch/search/optimization/ranges/OptimizationContext.java:350-356 | when moving past a value does not stop the walk, the walk invariant holds with an empty buffer |
| TraversalCorrectness.Collect | server/src/main/java/org/opensearch/search/optimization/ranges/OptimizationContext.java:335-339 | a point below the active upper bound is buffered iff it lies in the active range, and the invariant holds afterwards |
| TraversalCorrectness.VisitPointStep | server/src/main/java/org/opensearch/search/optimization/ranges/OptimizationContext.java:335-359 | one `visit(docID, packedValue)` either keeps the walk invariant or stops in a correct state |
| TraversalCorrectness.Skip | server/src/main/java/org/opensearch/search/optimization/ranges/OptimizationContext.java:373-375 | a cell entirely below the active range holds no doc of any range and can be pruned |
| TraversalCorrectness.Bulk | server/src/main/java/org/opensearch/search/optimization/ranges/OptimizationContext.java:225-227 | the doc ids of a cell entirely inside the active range can be added to the buffer in bulk without breaking the invariant |
| TraversalCorrectness.CompareStep | server/src/main/java/org/opensearch/search/optimization/ranges/OptimizationContext.java:362-379 | the cell comparison either stops in a correct state or, for a crossing cell, keeps the invariant for the walk into the cell |
| TraversalCorrectness.ComparePrunes | server/src/main/java/org/opensearch/search/optimization/ranges/OptimizationContext.java:362-379 | an outside cell can be skipped and an inside cell bulk-added: either way the invariant holds past the cell's points |
| TraversalCorrectness.IntersectNodeStep | server/src/main/java/org/opensearch/search/optimization/ranges/OptimizationContext.java:296-322 | walking a node either stops in a correct state or keeps the invariant with all the node's points seen |
| TraversalCorrectness.IntersectChildrenStep | server/src/main/java/org/opensearch/search/optimization/ranges/OptimizationContext.java:309-314 | walking the remaining children either stops in a correct state or keeps the invariant with their points seen |
| TraversalCorrectness.VisitPointsStep | server/src/main/java/org/opensearch/search/optimization/ranges/OptimizationContext.java:316-318 | visiting the remaining points of a leaf either stops in a correct state or keeps the invariant with the leaf's points seen |
| TraversalCorrectness.NoRangeReachable | server/src/main/java/org/opensearch/search/optimization/ranges/OptimizationContext.java:274-278 | when `firstRangeIndex` answers -1, no range holds any point of the segment, so skipping the segment reports nothing wrongly |
| TraversalCorrectness.StartInv | server/src/main/java/org/opensearch/search/optimization/ranges/OptimizationContext.java:274-284 | the cursor seeded at `firstRangeIndex` satisfies the walk invariant before any point is seen |
| TraversalCorrectness.FinishWalk | server/src/main/java/org/opensearch/search/optimization/ranges/OptimizationContext.java:291 | after a walk that saw every point, the final flush yields the reference reports for all ranges |
| TraversalCorrectness.WalkFromFirst | server/src/main/java/org/opensearch/search/optimization/ranges/OptimizationContext.java:279-291 | the walk from the first reachable range ends in a state whose final flush is the reference for ranges below a cut-off, which falls short of all ranges only past the cap |
| PointTreeCollector.RangeCollector.constructor | server/src/main/java/org/opensearch/search/optimization/ranges/OptimizationContext.java:209-219 | a new collector stands on the given range with nothing visited, buffered or reported |
| PointTreeCollector.RangeCollector.Count | server/src/main/java/org/opensearch/search/optimization/ranges/OptimizationContext.java:221-223 | appends one doc id to the buffer and changes nothing else |
| PointTreeCollector.RangeCollector.CountNode | server/src/main/java/org/opensearch/search/optimization/ranges/OptimizationContext.java:225-227 | appends a cell's doc ids to the buffer and changes nothing else |
| PointTreeCollector.RangeCollector.FinalizePreviousRange | server/src/main/java/org/opensearch/search/optimization/ranges/OptimizationContext.java:229-234 | the state becomes the flushed cursor (`Finalize`), with an empty buffer |
| PointTreeCollector.RangeCollector.IterateRangeEnd | server/src/main/java/org/opensearch/search/optimization/ranges/OptimizationContext.java:239-249 | the in-place loop reaches the state and stop flag of `RangeCursor.IterateRangeEnd` |
| PointTreeCollector.DebugInfo.constructor | server/src/main/java/org/opensearch/search/optimization/ranges/OptimizationContext.java:386-389 | the counters start at zero |
| PointTreeCollector.DebugInfo.VisitLeaf | server/src/main/java/org/opensearch/search/optimization/ranges/OptimizationContext.java:391-393 | one more leaf, nothing else changes |
| PointTreeCollector.DebugInfo.VisitInner | server/src/main/java/org/opensearch/search/optimization/ranges/OptimizationContext.java:395-397 | one more inner node, nothing else changes |
| PointTreeCollector.CanCollect | server/src/main/java/org/opensearch/search/optimization/ranges/OptimizationContext.java:350-359 | the collector's new state and the stop and collect answers are those of `RangeCursor.CanCollect` |
| PointTreeCollector.Visit | server/src/main/java/org/opensearch/search/optimization/ranges/OptimizationContext.java:335-339 | the collector's new state and stop flag are those of `RangeCursor.VisitPoint` |
| PointTreeCollector.Compare | server/src/main/java/org/opensearch/search/optimization/ranges/OptimizationContext.java:362-379 | the relation and the collector's new state are those of `RangeCursor.CompareCell` |
| PointTreeCollector.VisitLeafPoints | server/src/main/java/org/opensearch/search/optimization/ranges/OptimizationContext.java:316-318 | visiting a leaf's points in place ends in the state of `RangeCursor.VisitPoints` |
| PointTreeCollector.IntersectWithRanges | server/src/main/java/org/opensearch/search/optimization/ranges/OptimizationContext.java:296-322 | the recursive in-place walk ends in the cursor, node counts and stop flag of `RangeCursor.IntersectNode` |
| PointTreeCollector.MultiRangesTraverse | server/src/main/java/org/opensearch/search/optimization/ranges/OptimizationContext.java:267-294 | the reports and debug counts are those of `RangeCursor.MultiRangesTraverse`. On sorted, disjoint ranges and a well-formed tree they match the brute-force filter below a cut-off, and cover every range when the cap is at least the number of ranges |
| RangeAggregation.EncodedSortedDisjoint | server/src/main/java/org/opensearch/search/optimization/ranges/RangeAggregatorBridge.java:39-69 | non-overlapping, well-ordered ranges encoded by an order-preserving fixed-width encoder give packed ranges that are valid, sorted and disjoint |
| RangeAggregation.SubCollectsFor | server/src/main/java/org/opensearch/search/optimization/ranges/RangeAggregatorBridge.java:86-92 | one range's sub-collector calls hand exactly its docs, in order, to its index and count nothing |
| RangeAggregation.DeliverCollects | server/src/main/java/org/opensearch/search/optimization/ranges/RangeAggregatorBridge.java:82-93 | the consumer hands to each range index exactly the docs reported for that range |
| RangeAggregation.DeliverCounts | server/src/main/java/org/opensearch/search/optimization/ranges/RangeAggregatorBridge.java:82-93 | with an ordinal map that tells ranges apart, each range's bucket is incremented by the number of docs reported for it |
| RangeAggregation.DeliverMatchesFilter | server/src/main/java/org/opensearch/search/optimization/ranges/RangeAggregatorBridge.java:77-96 | with the uncapped traversal, every range collects and counts exactly the docs the brute-force filter finds in it |
| RangeAggregation.QualifiedRangesMatchFilter | server/src/main/java/org/opensearch/search/optimization/ranges/RangeAggregatorBridge.java:31-96 | for an aggregation that qualifies, with well-ordered ranges and an order-preserving encoder, the fast path over the built ranges hands every range exactly the docs the filter finds in it; with an ordinal map that tells ranges apart, each bucket counts them |
| RangeAggregation.RangeAggregatorBridge.CanOptimize | server/src/main/java/org/opensearch/search/optimization/ranges/RangeAggregatorBridge.java:31-53 | true iff the field type is present, searchable and point-encodable, there is no script or missing value, the source is numeric field data and no range starts before the previous one ends. The field type is stored only then |
| RangeAggregation.RangeAggregatorBridge.BuildRanges | server/src/main/java/org/opensearch/search/optimization/ranges/RangeAggregatorBridge.java:55-70 | the packed ranges are the encoded `from`/`to` of every range, in order, valid, of the aggregation's size and of the encoder's width |
| RangeAggregation.RangeAggregatorBridge.BuildRangesForSegment | server/src/main/java/org/opensearch/search/optimization/ranges/RangeAggregatorBridge.java:72-75 | always refuses: range aggregations never build segment-level ranges |
| RangeAggregation.RangeAggregatorBridge.TryFastFilterAggregation | server/src/main/java/org/opensearch/search/optimization/ranges/RangeAggregatorBridge.java:77-96 | the calls are the consumer's handling of the uncapped traversal's reports, and the debug counts are the traversal's. On sorted, disjoint ranges every range collects exactly the filter's docs, and with an injective ordinal map each bucket counts them |
| RangesOptimization.OptimizationContext.constructor | server/src/main/java/org/opensearch/search/optimization/ranges/OptimizationContext.java:59-61 | a fresh context is not rewriteable, has no ranges and zero counters |
| RangesOptimization.OptimizationContext.CanOptimize | server/src/main/java/org/opensearch/search/optimization/ranges/OptimizationContext.java:63-76 | true iff the filter budget is non-zero, there is no parent and the bridge qualifies. The verdict is stored unless it was decided early, and the budget is kept on success |
| RangesOptimization.OptimizationContext.Prepare | server/src/main/java/org/opensearch/search/optimization/ranges/OptimizationContext.java:78-92 | for a bridge whose `canOptimize` succeeded, the shard-level ranges become the bridge's encoding of the aggregation's ranges and the context is prepared |
| RangesOptimization.OptimizationContext.PrepareFromSegment | server/src/main/java/org/opensearch/search/optimization/ranges/OptimizationContext.java:139-150 | answers the shard ranges iff prepared, and raises the unsupported-operation error iff not prepared and the segment matches all docs |
| RangesOptimization.OptimizationContext.ConsumeDebugInfo | server/src/main/java/org/opensearch/search/optimization/ranges/OptimizationContext.java:399-402 | adds the traversal's leaf and inner counts and changes nothing else |
| RangesOptimization.OptimizationContext.TryOptimize | server/src/main/java/org/opensearch/search/optimization/ranges/OptimizationContext.java:101-133 | the segment is counted. It is handled iff the context is rewriteable, the segment is eligible and ranges were prepared, and then its calls deliver the uncapped traversal. On a well-formed tree, with well-ordered ranges and an order-preserving encoder, every range then collects exactly the filter's docs, and with an injective ordinal map each bucket counts them. It fails with the unsupported-operation error iff the segment is eligible, not prepared and matches all docs. Otherwise no calls are made |
| RangesOptimization.OptimizationContext.DebugEntries | server/src/main/java/org/opensearch/search/optimization/ranges/OptimizationContext.java:404-411 | no entries until a segment was optimized; then the four entries `optimized_segments`, `unoptimized_segments`, `leaf_visited` and `inner_visited`, carrying the optimized segments, the rest of the segments seen, and the visited leaf and inner nodes |
| FilterRewriteBridge.DocCallsFor | server/src/main/java/org/opensearch/search/optimization/filterrewrite/AggregatorBridge.java:106-114 | the per-doc callback counts each doc once under the range's ordinal and hands the docs, in order, to the sub-collector under it |
| FilterRewriteBridge.DeliveryModesAgree | server/src/main/java/org/opensearch/search/optimization/filterrewrite/AggregatorBridge.java:101-126 | the doc-collecting visitor and the count-only visitor add the same total to every bucket ordinal |
| FilterRewriteBridge.DeliveredPerRange | server/src/main/java/org/opensearch/search/optimization/filterrewrite/AggregatorBridge.java:101-126 | with an ordinal map that tells ranges apart, each range's bucket collects and counts exactly the docs reported for it |
| FilterRewriteBridge.DeliveredMatchesFilter | server/src/main/java/org/opensearch/search/optimization/filterrewrite/AggregatorBridge.java:78-129 | with the default cap the traversal is not cut short, and each bucket (`getOrd` of the range) counts, and with a sub-aggregation collects, exactly the filter's docs |
| FilterRewriteBridge.AppendDocCalls | server/src/main/java/org/opensearch/search/optimization/filterrewrite/AggregatorBridge.java:106-114 | the per-doc loop appends exactly the calls `DocCalls` describes |
| FilterRewriteBridge.CappedDeliveryMatchesFilter | server/src/main/java/org/opensearch/search/optimization/filterrewrite/AggregatorBridge.java:76-129 | with any cap and any ordinal map that tells ranges apart, there is a cut-off `a`, short of all ranges only after more ranges than the cap were visited. Each range below `a` is counted, and with a sub-aggregation collected, exactly as the filter finds it, and later ranges get nothing |
| FilterRewriteBridge.DeliverAll | server/src/main/java/org/opensearch/search/optimization/filterrewrite/AggregatorBridge.java:101-126 | the loop over the reports appends exactly the calls of the chosen visitor (`Delivered`) |
| FilterRewriteBridge.TryOptimize | server/src/main/java/org/opensearch/search/optimization/filterrewrite/AggregatorBridge.java:97-129 | the calls are the traversal's reports, capped by the bridge's `rangeMax()` and delivered under its `getOrd`: through the doc-collecting visitor with a sub-aggregation, through the count-only one without. The debug counts are the traversal's. On sorted, disjoint ranges and a well-formed tree, with an injective ordinal map, there is a cut-off `a`, short of all ranges only past the cap: each range below it is counted, and with a sub-aggregation collected, exactly as the filter finds it, and later ranges get nothing |
| FilterRewriteOptimization.OptimizationContext.constructor | server/src/main/java/org/opensearch/search/optimization/filterrewrite/OptimizationContext.java:54-56 | a fresh context cannot optimize, has no ranges and zero counters |
| FilterRewriteOptimization.OptimizationContext.CanOptimize | server/src/main/java/org/opensearch/search/optimization/filterrewrite/OptimizationContext.java:58-70 | true iff the budget is non-zero, there is no parent and the bridge says yes. The verdict is stored unless decided early, and the budget is kept on success |
| FilterRewriteOptimization.OptimizationContext.Prepare | server/src/main/java/org/opensearch/search/optimization/filterrewrite/OptimizationContext.java:72-86 | the shard ranges become what the bridge built, and the context is prepared iff it built some |
| FilterRewriteOptimization.OptimizationContext.GetRanges | server/src/main/java/org/opensearch/search/optimization/filterrewrite/OptimizationContext.java:92-95 | the segment's own ranges take precedence over the shard ranges; between calls they are the shard ranges |
| FilterRewriteOptimization.OptimizationContext.TryBuildRangesFromSegment | server/src/main/java/org/opensearch/search/optimization/filterrewrite/OptimizationContext.java:150-161 | nothing when not prepared and the segment does not match all docs; the shard ranges when there are any; otherwise the bridge's segment ranges, which `getRanges` then answers |
| FilterRewriteOptimization.OptimizationContext.ConsumeDebugInfo | server/src/main/java/org/opensearch/search/optimization/filterrewrite/OptimizationContext.java:179-182 | adds the traversal's leaf and inner counts and changes nothing else |
| FilterRewriteOptimization.OptimizationContext.TryOptimize | server/src/main/java/org/opensearch/search/optimization/filterrewrite/OptimizationContext.java:105-144 | the segment is counted. It is handled iff the aggregation qualified, the segment is eligible and ranges are at hand (shard ranges, or segment ranges for a segment matching all docs). Then its calls deliver the traversal over those ranges with the bridge's `getOrd` and `rangeMax()`, and the segment ranges are dropped; otherwise no calls are made |
| FilterRewriteOptimization.OptimizationContext.DebugEntries | server/src/main/java/org/opensearch/search/optimization/filterrewrite/OptimizationContext.java:184-191 | no entries until a segment was optimized; then the four entries `optimized_segments`, `unoptimized_segments`, `leaf_visited` and `inner_visited`, carrying the optimized segments, the rest of the segments seen, and the visited leaf and inner nodes |
| DateHistogramBridge.ClipIsIntersection | server/src/main/java/org/opensearch/search/aggregations/bucket/filterrewrite/DateHistogramAggregatorBridge.java:93-109 | clipping to hard bounds leaves nothing iff the bounds share no value with `[min, max)`, and otherwise leaves an ordered window holding exactly the shared values |
| DateHistogramBridge.DateHistogramAggregatorBridge.CanOptimize | server/src/main/java/org/opensearch/search/aggregations/bucket/filterrewrite/DateHistogramAggregatorBridge.java:29-40 | true iff there is no script or missing value and the field is a searchable date field; the field type is stored only then |
| DateHistogramBridge.DateHistogramAggregatorBridge.ProcessHardBounds | server/src/main/java/org/opensearch/search/aggregations/bucket/filterrewrite/DateHistogramAggregatorBridge.java:89-109 | clips the two-slot array in place to the hard bounds and answers it, or null iff the clipped ends cross; without an array or hard bounds nothing changes |
| DateHistogramBridge.DateHistogramAggregatorBridge.ProcessAfterKey | server/src/main/java/org/opensearch/search/aggregations/bucket/filterrewrite/DateHistogramAggregatorBridge.java:85-87 | the default answers the bounds unchanged |
| DateHistogramBridge.DateHistogramAggregatorBridge.BuildRangesFrom | server/src/main/java/org/opensearch/search/aggregations/bucket/filterrewrite/DateHistogramAggregatorBridge.java:54-79 | no ranges without bounds, when clipping leaves nothing (crossed bounds included) or when the rounding has no fixed interval; otherwise the ranges created over the clipped window, which is ordered and within the original bounds |
| DateHistogramBridge.DateHistogramAggregatorBridge.BuildShardRanges | server/src/main/java/org/opensearch/search/aggregations/bucket/filterrewrite/DateHistogramAggregatorBridge.java:42-46 | on a bridge whose `canOptimize` stored the field type, records the shard's filter budget and builds from the shard bounds with it |
| DateHistogramBridge.DateHistogramAggregatorBridge.TryBuildRangesFromSegment | server/src/main/java/org/opensearch/search/aggregations/bucket/filterrewrite/DateHistogramAggregatorBridge.java:48-52 | on a bridge whose `canOptimize` stored the field type, builds from the segment's bounds with the budget recorded at shard level |
| InsideCell.VisitDocIdsAsWritten | server/src/main/java/org/opensearch/search/optimization/ranges/OptimizationContext.java:327-332 | as written, visiting a cell's doc ids through `visit(int)` fails iff the cell holds any doc |
| InsideCell.InsideCellThrows | server/src/main/java/org/opensearch/search/optimization/ranges/OptimizationContext.java:304-307 | one range `[0, 10)` and one leaf with value 5 for doc 7: the root cell is classified inside the range, so the code as written fails, while the bulk-adding walk reports doc 7 for range 0 |

## Left out

- Lucene I/O is not modelled: `PointValues`, `PointTree` navigation (`moveToChild`, `moveToSibling`, `moveToParent`), `LeafReaderContext`, doc values and deletions. A point tree is an immutable `Tree` value. A segment is its deletion flag, its optional point field with `docCount`/`size`, and whether it has a doc count field.
- The comparator is a static field that every range-list constructor reassigns (filterrewrite/Ranges.java:29, ranges/OptimizationContext.java:171), so the source compares at the width of the most recently built list. The model compares each list at its own `byteLen`. It does not capture two live lists of different widths (an int field and a long field, say), which the source would both compare at the newer list's width.
- Range bounds are doubles in the source and `int` here. The `NumericPointEncoder` is a function parameter, assumed order-preserving and of fixed width where the proofs need it.
- Counters are `int` in the source and may overflow. The model's counters are unbounded `nat`.
- The base date histogram bridge's one-argument `processHardBounds` passes no hard bounds, so there `hardBounds` is `None`. The `Some` case is what a subclass override passes; the subclasses are not part of this model.
- DateHistogramBridge.ClipHigh: `hardBounds.max - 1` is unbounded here; the 64-bit wrap-around at `Long.MIN_VALUE` is not modelled.
- The `setRanges` and `setOptimizationContext` callbacks are not modelled as calls. The bridge returns the ranges it builds, and the range context owns its bridge.
- The filter-rewrite `TreeTraversal` visitors (`DocCollectRangeAwareIntersectVisitor`, `DocCountRangeAwareIntersectVisitor`) are not part of this model. The filter-rewrite bridge drives the range traversal of `RangeCursor` in their place, and only the callbacks it passes are modelled as written.
- The date histogram's `Rounding`, `createRangesFromAgg` and the helper that reads a field's bounds are function parameters or method arguments.
- Logging, `shardId`, and the wrapping of `IOException` in `RuntimeException` are left out.
- `CollectionTerminatedException` is the `stop` flag of a step.
- `visit(DocIdSetIterator, packedValue)` is modelled as the point-by-point `visit(docID, packedValue)` it amounts to.
- `segmentMatchAll` is a parameter. For the range bridge its source answer is `false`.
- The collector's consumer is declared `BiConsumer<Integer, Integer>`, but the bridge passes a `BiConsumer<Integer, List<Integer>>`. The model reports `Emission(index, docs)` and counts `|docs|`.
- `prepare()` on a range context whose bridge never passed `canOptimize` throws `NullPointerException`, because the bridge has no context to hand its ranges to. RangesOptimization.OptimizationContext.Prepare requires a stored field type instead, which only a successful `canOptimize` leaves.
- DateHistogramBridge.DateHistogramAggregatorBridge.BuildShardRanges and DateHistogramBridge.DateHistogramAggregatorBridge.TryBuildRangesFromSegment: `buildRanges` and `tryBuildRangesFromSegment` first read `fieldType.name()`, which throws `NullPointerException` when `canOptimize` never succeeded. Both members require a stored field type instead of modelling that exception.
- A range aggregation with no ranges makes `canOptimize` read `ranges[0]` and throw `ArrayIndexOutOfBoundsException`. The range bridge's constructor requires at least one range, so this exception is not modelled.
- The source's Java `assert`s are preconditions: `ranges == null` before `prepare`. The date histogram's `buildRanges` asserts ordered bounds only after clipping to hard bounds, so the model requires ordered bounds only when there are no hard bounds.
- RangeAggregation.EncodedSortedDisjoint: requires `from <= to` for every range. `canOptimize` does not check this, so an aggregation with an inverted range qualifies but lies outside the proved theorem, as do `QualifiedRangesMatchFilter` and the filter clauses of `RangesOptimization.OptimizationContext.TryOptimize`.
- The date histogram's composite-aggregation after key is not modelled (the default `processAfterKey` is).

## Findings

| source | as written | input that shows it | evidently intended | confidence | as-written member | corrected member |
|---|---|---|---|---|---|---|
| server/src/main/java/org/opensearch/search/optimization/ranges/OptimizationContext.java:304-307 | `compare` answers `CELL_INSIDE_QUERY` for a cell wholly inside the active range, and `intersectWithRanges` then calls `visitDocIDs`, whose `visit(int)` (lines 327-332) throws `UnsupportedOperationException` | one range `[0, 10)` over one-byte values, and a segment whose only point is value 5 for doc 7 | add the cell's doc ids to the active range in bulk, as the collector's `countNode` (lines 225-227) allows | not executed | InsideCell.InsideCellThrows | TraversalCorrectness.TraversalMatchesFilter |
