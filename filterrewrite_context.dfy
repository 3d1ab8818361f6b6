/** The filter-rewrite `OptimizationContext`: the eligibility decision, the
    shard-level ranges, the segment-level ranges built for a segment that
    matches all docs, the per-segment attempt and the profile counters.  The
    answers of the aggregator-specific bridge (its eligibility verdict and
    the ranges it builds) come in as parameters. */
module FilterRewriteOptimization {

  import opened Options
  import opened AggregationHost
  import opened PackedRanges
  import opened PointTree
  import opened RangeCursor
  import opened FilterRewriteBridge

  class OptimizationContext {
    var canOptimize: bool
    var preparedAtShardLevel: bool
    var maxAggRewriteFilters: int
    var packedValueRanges: Option<Ranges>
    var packedValueRangesFromSegment: Option<Ranges>
    var leaf: nat
    var inner: nat
    var segments: nat
    var optimizedSegments: nat

    /** Between calls: shard ranges exist exactly when preparation at shard
        level succeeded, no segment ranges are left over, every range set is
        well formed, and no more segments are optimized than were seen. */
    ghost predicate Valid()
      reads this
    {
      (preparedAtShardLevel <==> packedValueRanges.Some?) &&
      (packedValueRanges.Some? ==> PackedRanges.Valid(packedValueRanges.value)) &&
      packedValueRangesFromSegment == None &&
      optimizedSegments <= segments
    }

    constructor ()
      ensures Valid() && !canOptimize && packedValueRanges == None
      ensures leaf == 0 && inner == 0 && segments == 0 && optimizedSegments == 0
    {
      canOptimize := false;
      preparedAtShardLevel := false;
      maxAggRewriteFilters := 0;
      packedValueRanges := None;
      packedValueRangesFromSegment := None;
      leaf := 0;
      inner := 0;
      segments := 0;
      optimizedSegments := 0;
    }

    /** `canOptimize(parent, context)`: false at once under a parent or with
        a zero budget; otherwise the bridge's verdict `bridgeSays` is stored
        and, when positive, the budget is kept. */
    method CanOptimize(hasParent: bool, budget: int, bridgeSays: bool) returns (ok: bool)
      requires Valid()
      modifies this
      ensures Valid()
      ensures ok <==> budget != 0 && !hasParent && bridgeSays
      ensures canOptimize == if budget == 0 || hasParent then old(canOptimize) else bridgeSays
      ensures maxAggRewriteFilters == if ok then budget else old(maxAggRewriteFilters)
      ensures unchanged(this`preparedAtShardLevel, this`packedValueRanges, this`packedValueRangesFromSegment)
      ensures unchanged(this`leaf, this`inner, this`segments, this`optimizedSegments)
    {
      if budget == 0 || hasParent {
        return false;
      }
      canOptimize := bridgeSays;
      if canOptimize {
        maxAggRewriteFilters := budget;
      }
      return canOptimize;
    }

    /** `prepare()`: the bridge builds the shard ranges, `built`, possibly
        none, and hands them back through `setRanges`; the context counts as
        prepared exactly when it got some. */
    method Prepare(built: Option<Ranges>)
      requires Valid() && packedValueRanges == None
      requires built.Some? ==> PackedRanges.Valid(built.value)
      modifies this
      ensures Valid()
      ensures packedValueRanges == built && (preparedAtShardLevel <==> built.Some?)
      ensures unchanged(this`canOptimize, this`maxAggRewriteFilters, this`packedValueRangesFromSegment)
      ensures unchanged(this`leaf, this`inner, this`segments, this`optimizedSegments)
    {
      packedValueRanges := built;
      if packedValueRanges.Some? {
        preparedAtShardLevel := true;
      }
    }

    /** `getRanges()`: the segment's own ranges when it has some, the shard
        ranges otherwise. */
    function GetRanges(): (r: Option<Ranges>)
      reads this
      ensures packedValueRangesFromSegment.Some? ==> r == packedValueRangesFromSegment
      ensures packedValueRangesFromSegment.None? ==> r == packedValueRanges
      ensures Valid() ==> r == packedValueRanges
    {
      if packedValueRangesFromSegment.Some? then packedValueRangesFromSegment else packedValueRanges
    }

    /** `tryBuildRangesFromSegment`: nothing when the shard was not prepared
        and the segment does not match all docs; the shard ranges when there
        are any; otherwise the ranges the bridge builds for the segment,
        `fromBridge`, which are also kept through `setRangesFromSegment`. */
    method TryBuildRangesFromSegment(segmentMatchAll: bool, fromBridge: Option<Ranges>)
      returns (r: Option<Ranges>)
      requires Valid()
      modifies this
      ensures r == if !preparedAtShardLevel && !segmentMatchAll then None
                   else if packedValueRanges.Some? then packedValueRanges
                   else fromBridge
      ensures packedValueRangesFromSegment ==
        if !preparedAtShardLevel && segmentMatchAll then fromBridge else None
      ensures r.Some? ==> GetRanges() == r
      ensures unchanged(this`canOptimize, this`preparedAtShardLevel, this`packedValueRanges, this`maxAggRewriteFilters)
      ensures unchanged(this`leaf, this`inner, this`segments, this`optimizedSegments)
    {
      if !preparedAtShardLevel && !segmentMatchAll {
        return None;
      }
      if packedValueRanges.None? {
        packedValueRangesFromSegment := fromBridge;
        return packedValueRangesFromSegment;
      }
      return packedValueRanges;
    }

    /** `consumeDebugInfo`: add one traversal's node counts. */
    method ConsumeDebugInfo(debug: DebugCounts)
      modifies this
      ensures leaf == old(leaf) + debug.leaf && inner == old(inner) + debug.inner
      ensures unchanged(this`canOptimize, this`preparedAtShardLevel, this`packedValueRanges,
                        this`packedValueRangesFromSegment, this`maxAggRewriteFilters)
      ensures unchanged(this`segments, this`optimizedSegments)
    {
      leaf := leaf + debug.leaf;
      inner := inner + debug.inner;
    }

    /** `tryOptimize(leafCtx, sub, incrementDocCount, segmentMatchAll)`:
        count the segment; give up when the aggregation did not qualify, the
        segment is not eligible, or no ranges are at hand; otherwise let the
        bridge walk the segment's points over `getRanges()`, fold in its node
        counts, count the segment as optimized and drop the segment ranges.
        `fromBridge` is what the bridge would build for this segment, and
        `ord` and `rangeMax` are the bridge's `getOrd` and `rangeMax()`. */
    method TryOptimize(seg: Segment, withSub: bool, segmentMatchAll: bool, fromBridge: Option<Ranges>,
                       ord: int -> int, rangeMax: int)
      returns (ok: bool, calls: seq<Call>)
      requires Valid()
      requires fromBridge.Some? ==> PackedRanges.Valid(fromBridge.value)
      requires seg.points.Some? && packedValueRanges.Some? ==>
        Readable(seg.points.value.tree, packedValueRanges.value.byteLen)
      requires seg.points.Some? && fromBridge.Some? ==>
        Readable(seg.points.value.tree, fromBridge.value.byteLen)
      modifies this
      ensures Valid()
      ensures unchanged(this`canOptimize, this`preparedAtShardLevel, this`packedValueRanges, this`maxAggRewriteFilters)
      ensures segments == old(segments) + 1
      ensures ok <==> (canOptimize && SegmentEligible(seg) &&
                       (preparedAtShardLevel || (segmentMatchAll && fromBridge.Some?)))
      ensures optimizedSegments == old(optimizedSegments) + (if ok then 1 else 0)
      ensures ok ==>
        var used := if preparedAtShardLevel then packedValueRanges.value else fromBridge.value;
        var t := MultiRangesTraverse(seg.points.value.tree, used, rangeMax);
        calls == Delivered(withSub, t.emitted, ord) &&
        leaf == old(leaf) + t.debug.leaf && inner == old(inner) + t.debug.inner
      ensures !ok ==> calls == [] && leaf == old(leaf) && inner == old(inner)
    {
      segments := segments + 1;
      calls := [];
      if !canOptimize || seg.hasDeletions || seg.points.None? {
        return false, calls;
      }
      var values := seg.points.value;
      if values.docCount != values.size || seg.hasDocCountField {
        return false, calls;
      }
      var built := TryBuildRangesFromSegment(segmentMatchAll, fromBridge);
      if built.None? {
        return false, calls;
      }
      var debug;
      calls, debug := FilterRewriteBridge.TryOptimize(values.tree, GetRanges().value, withSub, ord, rangeMax);
      ConsumeDebugInfo(debug);
      optimizedSegments := optimizedSegments + 1;
      packedValueRangesFromSegment := None;
      return true, calls;
    }

    /** `populateDebugInfo`: nothing until a segment was optimized, then the
        optimized and unoptimized segment counts and the visited nodes. */
    function DebugEntries(): (entries: seq<DebugEntry>)
      requires Valid()
      reads this
      ensures entries == [] <==> optimizedSegments == 0
      ensures entries != [] ==>
        (|entries| == 4 && entries[0].value + entries[1].value == segments && entries[1].value >= 0)
      ensures entries != [] ==>
        (entries[0] == DebugEntry("optimized_segments", optimizedSegments) &&
         entries[1].key == "unoptimized_segments" &&
         entries[2] == DebugEntry("leaf_visited", leaf) &&
         entries[3] == DebugEntry("inner_visited", inner))
    {
      if optimizedSegments > 0 then
        [ DebugEntry("optimized_segments", optimizedSegments),
          DebugEntry("unoptimized_segments", segments - optimizedSegments),
          DebugEntry("leaf_visited", leaf),
          DebugEntry("inner_visited", inner) ]
      else []
    }
  }
}
