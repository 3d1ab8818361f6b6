/** The range-count traversal as the source runs it: a collector object whose
    fields change in place, a visitor that answers the tree's questions, and a
    recursive walk over the point tree.  Every method is proved to follow the
    functions of module RangeCursor, so the correctness theorem proved there
    about the functions carries over to the objects. */
module PointTreeCollector {

  import opened ByteOrder
  import opened PackedRanges
  import opened PointTree
  import opened RangeCursor
  import TraversalCorrectness

  /** `RangeCollectorForPointTree`: the active range index, the number of
      ranges moved on to, the doc id buffer `DIDList`, and the calls made so
      far to the range-count consumer, kept as a log. */
  class RangeCollector {
    const ranges: Ranges
    const maxNumNonZeroRange: int
    var activeIndex: int
    var visitedRange: int
    var docIds: seq<int>
    var emitted: seq<Emission>

    /** The collector's fields as a cursor value. */
    function State(): Cursor
      reads this
    {
      Cursor(ranges, maxNumNonZeroRange, activeIndex, visitedRange, docIds, emitted)
    }

    constructor (maxNumNonZeroRange: int, ranges: Ranges, activeIndex: int)
      ensures State() == Cursor(ranges, maxNumNonZeroRange, activeIndex, 0, [], [])
    {
      this.ranges := ranges;
      this.maxNumNonZeroRange := maxNumNonZeroRange;
      this.activeIndex := activeIndex;
      this.visitedRange := 0;
      this.docIds := [];
      this.emitted := [];
    }

    /** `count(docID)`: buffer one doc id for the active range. */
    method Count(docId: int)
      modifies this
      ensures State() == old(State()).(buffer := old(docIds) + [docId])
    {
      docIds := docIds + [docId];
    }

    /** `countNode(docIDs)`: buffer a whole cell's doc ids for the active range. */
    method CountNode(ids: seq<int>)
      modifies this
      ensures State() == old(State()).(buffer := old(docIds) + ids)
    {
      docIds := docIds + ids;
    }

    /** `finalizePreviousRange`. */
    method FinalizePreviousRange()
      modifies this
      ensures State() == Finalize(old(State()))
      ensures docIds == []
    {
      if docIds != [] {
        emitted := emitted + [Emission(activeIndex, docIds)];
        docIds := [];
      }
    }

    /** `iterateRangeEnd(value)`: the loop that moves the active index on;
        answers true when the collection must stop. */
    method IterateRangeEnd(value: Bytes) returns (stop: bool)
      requires Ready(State()) && ranges.byteLen <= |value|
      modifies this
      ensures Step(State(), stop) == RangeCursor.IterateRangeEnd(old(State()), value)
    {
      while !WithinUpperBoundAt(ranges, value, activeIndex)
        invariant Ready(State())
        invariant RangeCursor.IterateRangeEnd(State(), value) == RangeCursor.IterateRangeEnd(old(State()), value)
        decreases ranges.size - activeIndex
      {
        activeIndex := activeIndex + 1;
        if activeIndex >= ranges.size {
          return true;
        }
      }
      visitedRange := visitedRange + 1;
      return visitedRange > maxNumNonZeroRange;
    }
  }

  /** `DebugInfo`: leaf and inner nodes the walk visited. */
  class DebugInfo {
    var leaf: nat
    var inner: nat

    function Counts(): DebugCounts
      reads this
    {
      DebugCounts(leaf, inner)
    }

    constructor ()
      ensures Counts() == DebugCounts(0, 0)
    {
      leaf := 0;
      inner := 0;
    }

    method VisitLeaf()
      modifies this
      ensures Counts() == old(Counts()).(leaf := old(leaf) + 1)
    {
      leaf := leaf + 1;
    }

    method VisitInner()
      modifies this
      ensures Counts() == old(Counts()).(inner := old(inner) + 1)
    {
      inner := inner + 1;
    }
  }

  /** The visitor's `canCollect(packedValue)`; `stop` stands for the
      collection-terminated signal. */
  method CanCollect(collector: RangeCollector, value: Bytes) returns (stop: bool, collect: bool)
    requires Ready(collector.State()) && collector.ranges.byteLen <= |value|
    modifies collector
    ensures Verdict(collector.State(), stop, collect) == RangeCursor.CanCollect(old(collector.State()), value)
  {
    if !WithinUpperBoundAt(collector.ranges, value, collector.activeIndex) {
      collector.FinalizePreviousRange();
      stop := collector.IterateRangeEnd(value);
      if stop {
        return true, false;
      }
    }
    return false, WithinRangeAt(collector.ranges, value, collector.activeIndex);
  }

  /** The visitor's `visit(docID, packedValue)`. */
  method Visit(collector: RangeCollector, p: Point) returns (stop: bool)
    requires Ready(collector.State()) && collector.ranges.byteLen <= |p.value|
    modifies collector
    ensures Step(collector.State(), stop) == VisitPoint(old(collector.State()), p)
  {
    var collect;
    stop, collect := CanCollect(collector, p.value);
    if !stop && collect {
      collector.Count(p.doc);
    }
  }

  /** The visitor's `compare(minPackedValue, maxPackedValue)`. */
  method Compare(collector: RangeCollector, minPacked: Bytes, maxPacked: Bytes) returns (k: Classified)
    requires Ready(collector.State())
    requires collector.ranges.byteLen <= |minPacked| && collector.ranges.byteLen <= |maxPacked|
    modifies collector
    ensures k == CompareCell(old(collector.State()), minPacked, maxPacked)
    ensures k.cursor == collector.State()
  {
    var r := collector.ranges;
    if !WithinUpperBoundAt(r, minPacked, collector.activeIndex) {
      collector.FinalizePreviousRange();
      var stop := collector.IterateRangeEnd(minPacked);
      if stop {
        return Terminated(collector.State());
      }
    }
    var a := collector.activeIndex;
    if !WithinLowerBoundAt(r, maxPacked, a) {
      return Classified(collector.State(), CellOutside);
    }
    if WithinRangeAt(r, minPacked, a) && WithinRangeAt(r, maxPacked, a) {
      return Classified(collector.State(), CellInside);
    }
    return Classified(collector.State(), CellCrosses);
  }

  /** `pointTree.visitDocValues(visitor)` on a leaf: the points in order,
      until the visitor signals the end of the collection. */
  method VisitLeafPoints(collector: RangeCollector, ps: seq<Point>, ghost d: DebugCounts) returns (stop: bool)
    requires Ready(collector.State()) && AllWide(ps, collector.ranges.byteLen)
    modifies collector
    ensures Walk(collector.State(), d, stop) == VisitPoints(Walk(old(collector.State()), d, false), ps, 0)
  {
    ghost var goal := VisitPoints(Walk(collector.State(), d, false), ps, 0);
    var k := 0;
    while k < |ps|
      invariant 0 <= k <= |ps| && Ready(collector.State())
      invariant VisitPoints(Walk(collector.State(), d, false), ps, k) == goal
    {
      stop := Visit(collector, ps[k]);
      if stop {
        return;
      }
      k := k + 1;
    }
    return false;
  }

  /** `intersectWithRanges`: classify the cell, then prune it, hand its doc
      ids over in bulk, or descend into it; answers true when the collection
      must stop. */
  method IntersectWithRanges(collector: RangeCollector, t: Tree, debug: DebugInfo) returns (stop: bool)
    requires Ready(collector.State()) && Readable(t, collector.ranges.byteLen)
    modifies collector, debug
    ensures Walk(collector.State(), debug.Counts(), stop) ==
      IntersectNode(Walk(old(collector.State()), old(debug.Counts()), false), t)
    decreases t
  {
    var k := Compare(collector, t.minPacked, t.maxPacked);
    if k.Terminated? {
      return true;
    }
    if k.relation == CellOutside {
      return false;
    }
    if k.relation == CellInside {
      collector.CountNode(DocIds(t));
      debug.VisitInner();
      return false;
    }
    if t.Leaf? {
      stop := VisitLeafPoints(collector, t.points, debug.Counts());
      if !stop {
        debug.VisitLeaf();
      }
      return;
    }
    ghost var start := Walk(collector.State(), debug.Counts(), false);
    var i := 0;
    while i < |t.children|
      invariant 0 <= i <= |t.children| && Ready(collector.State())
      invariant IntersectChildren(Walk(collector.State(), debug.Counts(), false), t, i) ==
        IntersectChildren(start, t, 0)
      decreases |t.children| - i
    {
      stop := IntersectWithRanges(collector, t.children[i], debug);
      if stop {
        return;
      }
      i := i + 1;
    }
    return false;
  }

  /** `multiRangesTraverse`: seed the collector with `firstRangeIndex`, walk
      the tree, flush the last buffer once; answers the range-count
      consumer's calls and the debug counts.  On a well-formed point tree and
      sorted, disjoint ranges every range below some cut-off is reported
      exactly as the brute-force filter would, and the cut-off is every range
      when the cap is at least the number of ranges. */
  method MultiRangesTraverse(tree: Tree, r: Ranges, maxNumNonZeroRanges: int)
    returns (emitted: seq<Emission>, debug: DebugCounts)
    requires Valid(r) && Readable(tree, r.byteLen)
    ensures Traversal(emitted, debug) == RangeCursor.MultiRangesTraverse(tree, r, maxNumNonZeroRanges)
    ensures SortedDisjoint(r) && WellFormed(tree, r.byteLen) ==>
      exists a :: 0 <= a <= r.size &&
        emitted == TraversalCorrectness.Expected(Flatten(tree), r, a) &&
        (a < r.size ==> a > maxNumNonZeroRanges)
    ensures SortedDisjoint(r) && WellFormed(tree, r.byteLen) && maxNumNonZeroRanges >= r.size ==>
      emitted == TraversalCorrectness.Expected(Flatten(tree), r, r.size)
  {
    if SortedDisjoint(r) && WellFormed(tree, r.byteLen) {
      TraversalCorrectness.TraversalMatchesFilter(tree, r, maxNumNonZeroRanges);
    }
    var info := new DebugInfo();
    var activeIndex := ComputeFirstRangeIndex(r, tree.minPacked, tree.maxPacked);
    if activeIndex < 0 {
      return [], info.Counts();
    }
    var collector := new RangeCollector(maxNumNonZeroRanges, r, activeIndex);
    var stop := IntersectWithRanges(collector, tree, info);
    collector.FinalizePreviousRange();
    return collector.emitted, info.Counts();
  }
}
