/** The handle a range aggregation keeps for the fast path: whether it
    qualifies, the packed ranges built once per shard, the per-segment
    attempt, and the debug counters reported in the profile. */
module RangesOptimization {

  import opened Options
  import opened AggregationHost
  import opened PackedRanges
  import opened PointTree
  import opened RangeCursor
  import opened RangeAggregation

  /** `OptimizationContext` of the range aggregation. */
  class OptimizationContext {
    const bridge: RangeAggregatorBridge
    var rewriteable: bool
    var preparedAtShardLevel: bool
    var maxAggRewriteFilters: int
    var ranges: Option<Ranges>
    var leaf: nat
    var inner: nat
    var segments: nat
    var optimizedSegments: nat

    /** The context is rewriteable only for an aggregation that qualifies;
        ranges are present exactly when they were built at shard level, and
        then they are the bridge's encoding of the aggregation's ranges; no
        more segments are optimized than were seen. */
    ghost predicate Valid()
      reads this, bridge
    {
      bridge.Valid() &&
      (rewriteable ==> Qualifies(bridge.config, bridge.aggRanges)) &&
      (preparedAtShardLevel <==> ranges.Some?) &&
      (ranges.Some? ==> ranges.value == Encoded(bridge.aggRanges, bridge.encode)) &&
      optimizedSegments <= segments
    }

    constructor (bridge: RangeAggregatorBridge)
      requires bridge.Valid()
      ensures Valid() && this.bridge == bridge
      ensures !rewriteable && !preparedAtShardLevel && ranges == None
      ensures leaf == 0 && inner == 0 && segments == 0 && optimizedSegments == 0
    {
      this.bridge := bridge;
      rewriteable := false;
      preparedAtShardLevel := false;
      maxAggRewriteFilters := 0;
      ranges := None;
      leaf := 0;
      inner := 0;
      segments := 0;
      optimizedSegments := 0;
    }

    /** `canOptimize(parent, context)`: never under a parent aggregation or
        with a zero filter budget; otherwise the bridge decides, and on
        success the budget is kept. */
    method CanOptimize(hasParent: bool, budget: int) returns (ok: bool)
      requires Valid()
      modifies this, bridge
      ensures Valid()
      ensures ok <==> budget != 0 && !hasParent && Qualifies(bridge.config, bridge.aggRanges)
      ensures rewriteable == if budget == 0 || hasParent then old(rewriteable) else ok
      ensures maxAggRewriteFilters == if ok then budget else old(maxAggRewriteFilters)
      ensures bridge.fieldType == if ok then bridge.config.fieldType else old(bridge.fieldType)
      ensures unchanged(this`ranges, this`preparedAtShardLevel, this`segments, this`optimizedSegments)
      ensures unchanged(this`leaf, this`inner)
    {
      if budget == 0 || hasParent {
        return false;
      }
      ok := bridge.CanOptimize();
      rewriteable := ok;
      if ok {
        maxAggRewriteFilters := budget;
      }
    }

    /** `prepare()`: build the ranges once for the shard; the bridge hands
        them back through `setRanges`. The bridge reaches its context only
        through a successful `canOptimize`, which also stores the field type,
        so a bridge that never qualified cannot be prepared. */
    method Prepare()
      requires Valid() && ranges == None && bridge.fieldType.Some?
      modifies this
      ensures Valid()
      ensures ranges == Some(Encoded(bridge.aggRanges, bridge.encode)) && preparedAtShardLevel
      ensures PackedRanges.Valid(ranges.value) && ranges.value.size == |bridge.aggRanges|
      ensures unchanged(this`rewriteable, this`maxAggRewriteFilters, this`segments, this`optimizedSegments)
      ensures unchanged(this`leaf, this`inner)
    {
      var built := bridge.BuildRanges();
      ranges := Some(built);
      preparedAtShardLevel := true;
    }

    /** `prepareFromSegment`: the shard-level ranges when there are any;
        otherwise none, unless the segment matches all docs, when the bridge
        is asked for segment ranges (which the range bridge refuses).
        `segmentMatchAll` is the bridge's answer for the segment. */
    method PrepareFromSegment(segmentMatchAll: bool) returns (r: Result<Option<Ranges>>)
      requires Valid()
      ensures r.Ok? && r.value.Some? <==> preparedAtShardLevel
      ensures r.Ok? && r.value.Some? ==> r.value == ranges
      ensures r.Unsupported? <==> !preparedAtShardLevel && segmentMatchAll
    {
      if !preparedAtShardLevel && !segmentMatchAll {
        return Ok(None);
      }
      if ranges.None? {
        var built := bridge.BuildRangesForSegment();
        return Unsupported(built.message);
      }
      return Ok(ranges);
    }

    /** `consumeDebugInfo`: add one traversal's node counts. */
    method ConsumeDebugInfo(debug: DebugCounts)
      modifies this
      ensures leaf == old(leaf) + debug.leaf && inner == old(inner) + debug.inner
      ensures unchanged(this`rewriteable, this`preparedAtShardLevel, this`ranges, this`maxAggRewriteFilters)
      ensures unchanged(this`segments, this`optimizedSegments)
    {
      leaf := leaf + debug.leaf;
      inner := inner + debug.inner;
    }

    /** `tryOptimize`: count the segment, then run the fast path when the
        aggregation qualified, the segment is eligible and ranges are at
        hand; answers whether the segment was handled (or the exception the
        segment-level build raises) and the calls made into the aggregator.
        A handled segment's calls deliver the uncapped traversal's reports;
        an unhandled one makes none. */
    method TryOptimize(seg: Segment, segmentMatchAll: bool, ord: int -> int)
      returns (outcome: Result<bool>, calls: seq<Call>)
      requires Valid()
      requires seg.points.Some? ==> Readable(seg.points.value.tree, bridge.width)
      modifies this
      ensures Valid()
      ensures segments == old(segments) + 1
      ensures outcome == Ok(true) <==> rewriteable && SegmentEligible(seg) && preparedAtShardLevel
      ensures outcome.Unsupported? <==>
        rewriteable && SegmentEligible(seg) && !preparedAtShardLevel && segmentMatchAll
      ensures optimizedSegments == old(optimizedSegments) + (if outcome == Ok(true) then 1 else 0)
      ensures outcome == Ok(true) ==>
        var t := MultiRangesTraverse(seg.points.value.tree, ranges.value, IntMax);
        calls == Deliver(t.emitted, ord) &&
        leaf == old(leaf) + t.debug.leaf && inner == old(inner) + t.debug.inner
      ensures outcome != Ok(true) ==> calls == [] && leaf == old(leaf) && inner == old(inner)
      ensures (outcome == Ok(true) && Monotone(bridge.encode, bridge.width) &&
               (forall i :: 0 <= i < |bridge.aggRanges| ==> bridge.aggRanges[i].from <= bridge.aggRanges[i].to) &&
               WellFormed(seg.points.value.tree, bridge.width)) ==>
        (forall i :: 0 <= i < |bridge.aggRanges| ==>
           CollectedFor(calls, i) == DocsIn(Flatten(seg.points.value.tree), ranges.value, i)) &&
        ((forall a, b :: ord(a) == ord(b) ==> a == b) ==>
           forall i :: 0 <= i < |bridge.aggRanges| ==>
             CountedFor(calls, ord(i)) == |DocsIn(Flatten(seg.points.value.tree), ranges.value, i)|)
      ensures unchanged(this`rewriteable, this`preparedAtShardLevel, this`ranges, this`maxAggRewriteFilters)
    {
      segments := segments + 1;
      calls := [];
      if !rewriteable || seg.hasDeletions || seg.points.None? {
        return Ok(false), calls;
      }
      var values := seg.points.value;
      if values.docCount != values.size || seg.hasDocCountField {
        return Ok(false), calls;
      }
      var prepared := PrepareFromSegment(segmentMatchAll);
      if prepared.Unsupported? {
        return Unsupported(prepared.message), calls;
      }
      if prepared.value.None? {
        return Ok(false), calls;
      }
      var r := prepared.value.value;
      var debug;
      calls, debug := bridge.TryFastFilterAggregation(values.tree, r, ord);
      ConsumeDebugInfo(debug);
      optimizedSegments := optimizedSegments + 1;
      if Monotone(bridge.encode, bridge.width) &&
         (forall i :: 0 <= i < |bridge.aggRanges| ==> bridge.aggRanges[i].from <= bridge.aggRanges[i].to) &&
         WellFormed(values.tree, bridge.width) {
        QualifiedRangesMatchFilter(bridge.config, bridge.aggRanges, bridge.encode, bridge.width, values.tree, ord);
      }
      return Ok(true), calls;
    }

    /** `populateDebugInfo`: nothing until a segment was optimized, then the
        optimized and unoptimized segment counts and the visited nodes. */
    function DebugEntries(): (entries: seq<DebugEntry>)
      requires Valid()
      reads this, bridge
      ensures entries == [] <==> optimizedSegments == 0
      ensures entries != [] ==>
        (|entries| == 4 && entries[0].value + entries[1].value == segments && entries[1].value >= 0)
      ensures entries != [] ==>
        (entries[0] == DebugEntry("optimized_segments", optimizedSegments) &&
         entries[1].key == "unoptimized_segments" &&
         entries[2] == DebugEntry("leaf_visited", leaf) &&
         entries[3] == DebugEntry("inner_visited", inner))
    {
      if optimizedSegments > 0 then
        [ DebugEntry("optimized_segments", optimizedSegments),
          DebugEntry("unoptimized_segments", segments - optimizedSegments),
          DebugEntry("leaf_visited", leaf),
          DebugEntry("inner_visited", inner) ]
      else []
    }
  }
}
