/** A cell of the point tree that lies wholly inside the active range is
    handed to `pointTree.visitDocIDs(visitor)`, which reports its docs through
    the visitor's `visit(int docID)`; the range visitor answers that call by
    throwing `UnsupportedOperationException`, and only the early-termination
    exception is caught.  This module models that path as written and shows
    an input that reaches it; the rest of the model adds the cell's doc ids
    to the active range in bulk (`RangeCollector.CountNode`), which
    `TraversalCorrectness.TraversalMatchesFilter` proves correct. */
module InsideCell {

  import opened Options
  import opened ByteOrder
  import opened PackedRanges
  import opened PointTree
  import opened RangeCursor
  import opened AggregationHost
  import TraversalCorrectness

  /** `pointTree.visitDocIDs(visitor)` with the range visitor as written: a
      cell with at least one doc raises the exception at its first doc. */
  function VisitDocIdsAsWritten(t: Tree): (r: Result<seq<int>>)
    ensures r.Unsupported? <==> DocIds(t) != []
  {
    var ids := DocIds(t);
    if ids == [] then Ok([])
    else Unsupported("This IntersectVisitor does not perform any actions on a docID node being visited")
  }

  /** One range `[0, 10)` over one-byte values, and a segment whose only
      point, value 5 for doc 7, is a single leaf. */
  const OneRange: Ranges := Ranges([[0]], [[10]], 1, 1)
  const OneLeaf: Tree := Leaf([5], [5], [Point([5], 7)])

  /** The example's ranges and tree are of the kind the traversal is
      proved correct on, and the brute-force filter puts doc 7 in range 0. */
  lemma ExampleIsOrdinary()
    ensures Valid(OneRange) && SortedDisjoint(OneRange)
    ensures WellFormed(OneLeaf, 1) && Readable(OneLeaf, 1)
    ensures DocsIn(Flatten(OneLeaf), OneRange, 0) == [7]
  {
    assert Key([0], 1) == 0 && Key([10], 1) == 10 && Key([5], 1) == 5;
    assert [Point([5], 7)][1..] == [];
  }

  /** The as-written path fails on ordinary input: the root cell of the
      example is classified inside the first range, so the source raises the
      exception, while the bulk-adding traversal reports doc 7 for range 0,
      exactly what the brute-force filter finds. */
  lemma InsideCellThrows()
    ensures FirstRangeIndex(OneRange, OneLeaf.minPacked, OneLeaf.maxPacked) == 0
    ensures var c := Cursor(OneRange, IntMax, 0, 0, [], []);
      CompareCell(c, OneLeaf.minPacked, OneLeaf.maxPacked) == Classified(c, CellInside)
    ensures VisitDocIdsAsWritten(OneLeaf).Unsupported?
    ensures MultiRangesTraverse(OneLeaf, OneRange, IntMax).emitted == [Emission(0, [7])]
  {
    ExampleIsOrdinary();
    assert Key([0], 1) == 0 && Key([10], 1) == 10 && Key([5], 1) == 5;
    assert DocIds(OneLeaf) == [7];
    TraversalCorrectness.TraversalMatchesFilter(OneLeaf, OneRange, IntMax);
    assert TraversalCorrectness.Expected(Flatten(OneLeaf), OneRange, 0) == [];
  }
}
