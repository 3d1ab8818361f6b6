/** The date histogram's bridge to the filter-rewrite fast path: whether the
    aggregation qualifies, and how the field's `[min, max]` bounds, clipped
    to the aggregation's hard bounds and rounded, become packed ranges.  The
    rounding's fixed interval and the range construction from it are
    functions the aggregation supplies. */
module DateHistogramBridge {

  import opened Options
  import opened PackedRanges

  /** What the eligibility check reads of the field type. */
  datatype DateFieldInfo = DateFieldInfo(name: string, isDateField: bool, searchable: bool)

  /** What the eligibility check reads of the values-source configuration. */
  datatype DateConfig = DateConfig(hasScript: bool, hasMissing: bool, fieldType: Option<DateFieldInfo>)

  /** `LongBounds` hard bounds: `min` inclusive, `max` exclusive. */
  datatype LongBounds = LongBounds(min: int, max: int)

  /** The date histogram's `canOptimize(config)` answer. */
  predicate Qualifies(config: DateConfig)
  {
    !config.hasScript && !config.hasMissing && config.fieldType.Some? &&
    config.fieldType.value.isDateField && config.fieldType.value.searchable
  }

  /** The lower bound raised to the hard minimum. */
  function ClipLow(lo: int, hb: LongBounds): int
  {
    if hb.min > lo then hb.min else lo
  }

  /** The upper bound lowered to the last value below the hard maximum. */
  function ClipHigh(hi: int, hb: LongBounds): int
  {
    if hb.max - 1 < hi then hb.max - 1 else hi
  }

  /** `processHardBounds` on the bounds' values: unchanged without hard
      bounds; otherwise both ends clipped, and nothing when they cross. */
  function Clipped(lo: int, hi: int, hb: Option<LongBounds>): Option<(int, int)>
  {
    if hb.None? then Some((lo, hi))
    else
      var l := ClipLow(lo, hb.value);
      var h := ClipHigh(hi, hb.value);
      if l > h then None else Some((l, h))
  }

  predicate Between(v: int, lo: int, hi: int)
  {
    lo <= v <= hi
  }

  predicate InHard(v: int, hb: LongBounds)
  {
    hb.min <= v < hb.max
  }

  /** Clipping to hard bounds gives exactly the intersection of the bounds'
      window with the hard bounds: nothing when they share no value, and
      otherwise a non-empty window holding precisely the shared values. */
  lemma ClipIsIntersection(lo: int, hi: int, hb: LongBounds)
    ensures Clipped(lo, hi, Some(hb)).None? <==> forall v :: !(Between(v, lo, hi) && InHard(v, hb))
    ensures Clipped(lo, hi, Some(hb)).Some? ==>
      var w := Clipped(lo, hi, Some(hb)).value;
      w.0 <= w.1 && forall v :: Between(v, w.0, w.1) <==> Between(v, lo, hi) && InHard(v, hb)
  {
    var l := ClipLow(lo, hb);
    var h := ClipHigh(hi, hb);
    if l <= h {
      assert Between(l, lo, hi) && InHard(l, hb);
    }
  }

  /** The bounds as an optional pair, as the array they live in holds them. */
  ghost function Window(bounds: array?<int>): Option<(int, int)>
    requires bounds != null ==> bounds.Length == 2
    reads bounds
  {
    if bounds == null then None else Some((bounds[0], bounds[1]))
  }

  class DateHistogramAggregatorBridge {
    const config: DateConfig
    /** The hard bounds `buildRanges` clips to: `None` in the base class,
        whose one-argument `processHardBounds` passes null; `Some` is what a
        subclass override passes. */
    const hardBounds: Option<LongBounds>
    const roundingInterval: (int, int) -> Option<int>
    const createRanges: (int, int, int, int) -> Option<Ranges>
    var fieldType: Option<DateFieldInfo>
    var maxRewriteFilters: int

    constructor (config: DateConfig, hardBounds: Option<LongBounds>,
                 roundingInterval: (int, int) -> Option<int>,
                 createRanges: (int, int, int, int) -> Option<Ranges>)
      ensures this.config == config && this.hardBounds == hardBounds
      ensures this.roundingInterval == roundingInterval && this.createRanges == createRanges
      ensures fieldType == None && maxRewriteFilters == 0
    {
      this.config := config;
      this.hardBounds := hardBounds;
      this.roundingInterval := roundingInterval;
      this.createRanges := createRanges;
      fieldType := None;
      maxRewriteFilters := 0;
    }

    /** What `buildRanges` makes of a clipped window: nothing for no window
        or a rounding without a fixed interval, otherwise the ranges created
        over the window at that interval. */
    function RangesFor(w: Option<(int, int)>, maxFilters: int): Option<Ranges>
    {
      if w.None? || roundingInterval(w.value.0, w.value.1).None? then None
      else createRanges(roundingInterval(w.value.0, w.value.1).value, w.value.0, w.value.1, maxFilters)
    }

    /** `canOptimize(config)`: no script, no missing value, a searchable
        date field; the field type is kept only on success. */
    method CanOptimize() returns (ok: bool)
      modifies this
      ensures ok <==> Qualifies(config)
      ensures fieldType == if ok then config.fieldType else old(fieldType)
      ensures maxRewriteFilters == old(maxRewriteFilters)
    {
      if !config.hasScript && !config.hasMissing {
        var ft := config.fieldType;
        if ft.Some? && ft.value.isDateField {
          if ft.value.searchable {
            fieldType := ft;
            return true;
          }
        }
      }
      return false;
    }

    /** `processHardBounds(bounds, hardBounds)`: clip the two-slot bounds
        array in place and answer it, or null when the clipped ends cross;
        a null array, or no hard bounds, passes through untouched. */
    method ProcessHardBounds(bounds: array?<int>) returns (res: array?<int>)
      requires bounds != null ==> bounds.Length == 2
      modifies bounds
      ensures bounds == null ==> res == null
      ensures bounds != null && hardBounds.None? ==> res == bounds && bounds[..] == old(bounds[..])
      ensures bounds != null && hardBounds.Some? ==>
        bounds[..] == [ClipLow(old(bounds[0]), hardBounds.value), ClipHigh(old(bounds[1]), hardBounds.value)]
      ensures bounds != null ==>
        (res == null <==> Clipped(old(bounds[0]), old(bounds[1]), hardBounds).None?) &&
        (res != null ==> res == bounds && Window(res) == Clipped(old(bounds[0]), old(bounds[1]), hardBounds))
    {
      if bounds != null {
        if hardBounds.Some? {
          var hb := hardBounds.value;
          if hb.min > bounds[0] {
            bounds[0] := hb.min;
          }
          if hb.max - 1 < bounds[1] {
            bounds[1] := hb.max - 1;
          }
          if bounds[0] > bounds[1] {
            return null;
          }
        }
      }
      return bounds;
    }

    /** `processAfterKey(bounds, interval)` by default: the bounds as they
        are (a composite aggregation's after key is not part of this model). */
    method ProcessAfterKey(bounds: array<int>, interval: int) returns (res: array<int>)
      ensures res == bounds
    {
      return bounds;
    }

    /** `buildRanges(bounds, maxRewriteFilters)`: clip the bounds; give up
        when nothing is left or the rounding has no fixed interval; otherwise
        create the ranges over the clipped window, whose ends are in order.
        The ends are asserted in order only after clipping, so crossed bounds
        are the caller's to avoid only when there are no hard bounds. */
    method BuildRangesFrom(bounds: array?<int>, maxFilters: int) returns (r: Option<Ranges>)
      requires bounds != null ==> bounds.Length == 2 && (hardBounds.None? ==> bounds[0] <= bounds[1])
      modifies bounds
      ensures bounds == null ==> r == None
      ensures bounds != null ==> r == RangesFor(Clipped(old(bounds[0]), old(bounds[1]), hardBounds), maxFilters)
      ensures bounds != null && r.Some? ==>
        var w := Clipped(old(bounds[0]), old(bounds[1]), hardBounds).value;
        w.0 <= w.1 && old(bounds[0]) <= w.0 && w.1 <= old(bounds[1])
    {
      var clipped := ProcessHardBounds(bounds);
      if clipped == null {
        return None;
      }
      assert clipped[0] <= clipped[1];
      var interval := roundingInterval(clipped[0], clipped[1]);
      if interval.None? {
        return None;
      }
      clipped := ProcessAfterKey(clipped, interval.value);
      return createRanges(interval.value, clipped[0], clipped[1], maxFilters);
    }

    /** `buildRanges(context)`: the shard-level bounds of the field, built
        with the shard's filter budget, which is recorded for later segment
        builds; the ranges go back to the context through `setRanges`. The
        field's name is read from the field type that only a successful
        `canOptimize` stores, so the bridge must have qualified. */
    method BuildShardRanges(shardBounds: array?<int>, budget: int) returns (r: Option<Ranges>)
      requires fieldType.Some?
      requires shardBounds != null ==>
        shardBounds.Length == 2 && (hardBounds.None? ==> shardBounds[0] <= shardBounds[1])
      modifies this, shardBounds
      ensures maxRewriteFilters == budget && fieldType == old(fieldType)
      ensures shardBounds == null ==> r == None
      ensures shardBounds != null ==>
        r == RangesFor(Clipped(old(shardBounds[0]), old(shardBounds[1]), hardBounds), budget)
    {
      maxRewriteFilters := budget;
      r := BuildRangesFrom(shardBounds, maxRewriteFilters);
    }

    /** `tryBuildRangesFromSegment(leaf)`: the segment's own bounds, built
        with the budget recorded by the shard-level build, on a bridge whose
        `canOptimize` stored the field type. */
    method TryBuildRangesFromSegment(segmentBounds: array?<int>) returns (r: Option<Ranges>)
      requires fieldType.Some?
      requires segmentBounds != null ==>
        segmentBounds.Length == 2 && (hardBounds.None? ==> segmentBounds[0] <= segmentBounds[1])
      modifies segmentBounds
      ensures segmentBounds == null ==> r == None
      ensures segmentBounds != null ==>
        r == RangesFor(Clipped(old(segmentBounds[0]), old(segmentBounds[1]), hardBounds), maxRewriteFilters)
    {
      r := BuildRangesFrom(segmentBounds, maxRewriteFilters);
    }
  }
}
