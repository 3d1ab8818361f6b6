/** The range cursor and the recursive tree walk of the range-count fast path,
    as functions of the cursor state.  The collector class in module
    PointTreeCollector runs the same steps in place and is proved to follow
    these functions step for step. */
module RangeCursor {

  import opened ByteOrder
  import opened PackedRanges
  import opened PointTree

  /** One call of the range-count consumer: the range index and the doc ids
      buffered for it; the count handed on is `|docs|`. */
  datatype Emission = Emission(index: int, docs: seq<int>)

  /** The state of one cursor: the range list and the cap it was given, the
      active range index, how many ranges it has moved on to, the doc ids
      buffered for the active range and everything reported so far. */
  datatype Cursor = Cursor(
    ranges: Ranges,
    maxNonZero: int,
    active: int,
    visited: int,
    buffer: seq<int>,
    emitted: seq<Emission>)

  /** A cursor that still points at a range. */
  predicate Ready(c: Cursor)
  {
    Valid(c.ranges) && 0 <= c.active < c.ranges.size
  }

  /** A cursor step that may end the collection early. */
  datatype Step = Step(cursor: Cursor, stop: bool)

  datatype Relation = CellInside | CellOutside | CellCrosses

  /** The answer of the visitor's cell comparison; `Terminated` stands for the
      collection-terminated signal. */
  datatype Classified =
    | Terminated(cursor: Cursor)
    | Classified(cursor: Cursor, relation: Relation)

  /** The answer of `canCollect` for one value. */
  datatype Verdict = Verdict(cursor: Cursor, stop: bool, collect: bool)

  /** Leaf and inner nodes counted by the walk, for profiling only. */
  datatype DebugCounts = DebugCounts(leaf: nat, inner: nat)

  datatype Walk = Walk(cursor: Cursor, debug: DebugCounts, stopped: bool)

  datatype Traversal = Traversal(emitted: seq<Emission>, debug: DebugCounts)

  /** `finalizePreviousRange`: report the buffer for the active range when it
      is not empty, and start an empty buffer. */
  function Finalize(c: Cursor): Cursor
  {
    if c.buffer == [] then c
    else c.(emitted := c.emitted + [Emission(c.active, c.buffer)], buffer := [])
  }

  /** `iterateRangeEnd`: move the active index forward until `value` is below
      the active upper bound; stop when the ranges run out or when more ranges
      than the cap have been moved on to. */
  function IterateRangeEnd(c: Cursor, value: Bytes): (s: Step)
    requires Ready(c) && c.ranges.byteLen <= |value|
    ensures s.cursor.ranges == c.ranges && s.cursor.maxNonZero == c.maxNonZero
    ensures s.cursor.buffer == c.buffer && s.cursor.emitted == c.emitted
    ensures c.active <= s.cursor.active <= c.ranges.size
    ensures forall j :: c.active <= j < s.cursor.active ==>
      UpperKey(c.ranges, j) <= Key(value, c.ranges.byteLen)
    ensures s.cursor.active == c.ranges.size ==> s.stop && s.cursor.visited == c.visited
    ensures s.cursor.active < c.ranges.size ==>
      Key(value, c.ranges.byteLen) < UpperKey(c.ranges, s.cursor.active) &&
      s.cursor.visited == c.visited + 1 &&
      (s.stop <==> s.cursor.visited > c.maxNonZero)
    decreases c.ranges.size - c.active
  {
    if WithinUpperBoundAt(c.ranges, value, c.active) then
      var visited := c.visited + 1;
      Step(c.(visited := visited), visited > c.maxNonZero)
    else if c.active + 1 >= c.ranges.size then
      Step(c.(active := c.active + 1), true)
    else
      IterateRangeEnd(c.(active := c.active + 1), value)
  }

  /** The visitor's `canCollect`: a value at or past the active upper bound
      flushes the buffer and moves the cursor on; then the value is collected
      iff it lies in the (new) active range. */
  function CanCollect(c: Cursor, value: Bytes): (v: Verdict)
    requires Ready(c) && c.ranges.byteLen <= |value|
  {
    if !WithinUpperBoundAt(c.ranges, value, c.active) then
      var s := IterateRangeEnd(Finalize(c), value);
      if s.stop then Verdict(s.cursor, true, false)
      else Verdict(s.cursor, false, WithinRangeAt(c.ranges, value, s.cursor.active))
    else
      Verdict(c, false, WithinRangeAt(c.ranges, value, c.active))
  }

  /** The visitor's `visit(docID, packedValue)`. */
  function VisitPoint(c: Cursor, p: Point): (s: Step)
    requires Ready(c) && c.ranges.byteLen <= |p.value|
  {
    var v := CanCollect(c, p.value);
    if v.stop then Step(v.cursor, true)
    else if v.collect then Step(v.cursor.(buffer := v.cursor.buffer + [p.doc]), false)
    else Step(v.cursor, false)
  }

  /** The first half of the visitor's `compare(min, max)`: when the cell's
      minimum is at or past the active upper bound, flush the buffer and move
      the cursor on over it. */
  function MoveToCell(c: Cursor, minPacked: Bytes): (s: Step)
    requires Ready(c) && c.ranges.byteLen <= |minPacked|
    ensures s.cursor.ranges == c.ranges && s.cursor.maxNonZero == c.maxNonZero
    ensures !s.stop ==> (Ready(s.cursor) &&
      Key(minPacked, c.ranges.byteLen) < UpperKey(c.ranges, s.cursor.active))
  {
    if !WithinUpperBoundAt(c.ranges, minPacked, c.active)
    then IterateRangeEnd(Finalize(c), minPacked)
    else Step(c, false)
  }

  /** The visitor's `compare(min, max)`: first move the cursor on to the
      cell, then classify the cell against the active range. */
  function CompareCell(c: Cursor, minPacked: Bytes, maxPacked: Bytes): (k: Classified)
    requires Ready(c) && c.ranges.byteLen <= |minPacked| && c.ranges.byteLen <= |maxPacked|
    ensures k.cursor.ranges == c.ranges && k.cursor.maxNonZero == c.maxNonZero
    ensures k.Classified? ==> Ready(k.cursor)
  {
    var s := MoveToCell(c, minPacked);
    if s.stop then Terminated(s.cursor)
    else if !WithinLowerBoundAt(c.ranges, maxPacked, s.cursor.active) then
      Classified(s.cursor, CellOutside)
    else if WithinRangeAt(c.ranges, minPacked, s.cursor.active)
         && WithinRangeAt(c.ranges, maxPacked, s.cursor.active) then
      Classified(s.cursor, CellInside)
    else
      Classified(s.cursor, CellCrosses)
  }

  /** `intersectWithRanges` on one node: prune an outside cell, bulk-add the
      doc ids of an inside cell, and descend into a crossing cell (children in
      order, or the leaf's points one by one). */
  function IntersectNode(w: Walk, t: Tree): (w': Walk)
    requires !w.stopped && Ready(w.cursor) && Readable(t, w.cursor.ranges.byteLen)
    ensures w'.cursor.ranges == w.cursor.ranges && w'.cursor.maxNonZero == w.cursor.maxNonZero
    ensures !w'.stopped ==> Ready(w'.cursor)
    decreases t, 1, 0
  {
    var k := CompareCell(w.cursor, t.minPacked, t.maxPacked);
    if k.Terminated? then Walk(k.cursor, w.debug, true)
    else if k.relation == CellOutside then Walk(k.cursor, w.debug, false)
    else if k.relation == CellInside then
      Walk(k.cursor.(buffer := k.cursor.buffer + DocIds(t)),
           w.debug.(inner := w.debug.inner + 1), false)
    else if t.Leaf? then
      var w2 := VisitPoints(Walk(k.cursor, w.debug, false), t.points, 0);
      if w2.stopped then w2 else w2.(debug := w2.debug.(leaf := w2.debug.leaf + 1))
    else
      IntersectChildren(Walk(k.cursor, w.debug, false), t, 0)
  }

  /** The children `k..` of a crossing inner node, in order, until one stops. */
  function IntersectChildren(w: Walk, t: Tree, k: nat): (w': Walk)
    requires t.Inner? && k <= |t.children|
    requires !w.stopped && Ready(w.cursor) && Readable(t, w.cursor.ranges.byteLen)
    ensures w'.cursor.ranges == w.cursor.ranges && w'.cursor.maxNonZero == w.cursor.maxNonZero
    ensures !w'.stopped ==> Ready(w'.cursor)
    decreases t, 0, |t.children| - k
  {
    if k == |t.children| then w
    else
      var w2 := IntersectNode(w, t.children[k]);
      if w2.stopped then w2 else IntersectChildren(w2, t, k + 1)
  }

  /** The leaf's points `k..`, visited one by one, until one stops. */
  function VisitPoints(w: Walk, ps: seq<Point>, k: nat): (w': Walk)
    requires k <= |ps| && !w.stopped && Ready(w.cursor) && AllWide(ps, w.cursor.ranges.byteLen)
    ensures w'.cursor.ranges == w.cursor.ranges && w'.cursor.maxNonZero == w.cursor.maxNonZero
    ensures w'.debug == w.debug
    ensures !w'.stopped ==> Ready(w'.cursor)
    decreases |ps| - k
  {
    if k == |ps| then w
    else
      var s := VisitPoint(w.cursor, ps[k]);
      if s.stop then Walk(s.cursor, w.debug, true)
      else VisitPoints(Walk(s.cursor, w.debug, false), ps, k + 1)
  }

  /** `multiRangesTraverse`: seed the cursor with `firstRangeIndex`, walk the
      tree, and flush the last buffer once, whether the walk finished or
      stopped early. */
  function MultiRangesTraverse(tree: Tree, r: Ranges, maxNonZero: int): (res: Traversal)
    requires Valid(r) && Readable(tree, r.byteLen)
  {
    var first := FirstRangeIndex(r, tree.minPacked, tree.maxPacked);
    if first < 0 then Traversal([], DebugCounts(0, 0))
    else
      var start := Walk(Cursor(r, maxNonZero, first, 0, [], []), DebugCounts(0, 0), false);
      var w := IntersectNode(start, tree);
      Traversal(Finalize(w.cursor).emitted, w.debug)
  }
}
