/** What the fast path sees of its surroundings: the calls it makes into the
    aggregator, what it reads of a segment, and the profile entries it
    reports. */
module AggregationHost {

  import opened Options
  import opened PointTree

  /** Java's `Integer.MAX_VALUE`: the largest array length, and the cap on
      non-empty ranges passed when the traversal must not stop early. */
  const IntMax: int := 0x7fff_ffff

  /** One call the fast path makes into the aggregator: a bucket count
      increment, or one doc handed to the sub-aggregation's collector. */
  datatype Call = IncrementDocCount(ord: int, count: int) | SubCollect(doc: int, bucket: int)

  /** The docs handed to the sub-collector under `bucket`, in order. */
  function CollectedFor(calls: seq<Call>, bucket: int): seq<int>
  {
    if calls == [] then []
    else
      var c := calls[|calls| - 1];
      CollectedFor(calls[..|calls| - 1], bucket) + (if c.SubCollect? && c.bucket == bucket then [c.doc] else [])
  }

  /** The total count added to bucket ordinal `o`. */
  function CountedFor(calls: seq<Call>, o: int): int
  {
    if calls == [] then 0
    else
      var c := calls[|calls| - 1];
      CountedFor(calls[..|calls| - 1], o) + (if c.IncrementDocCount? && c.ord == o then c.count else 0)
  }

  lemma {:induction false} CollectedAppend(a: seq<Call>, b: seq<Call>, bucket: int)
    ensures CollectedFor(a + b, bucket) == CollectedFor(a, bucket) + CollectedFor(b, bucket)
    decreases |b|
  {
    if b == [] {
      assert a + b == a;
    } else {
      assert (a + b)[..|a + b| - 1] == a + b[..|b| - 1];
      CollectedAppend(a, b[..|b| - 1], bucket);
    }
  }

  lemma {:induction false} CountedAppend(a: seq<Call>, b: seq<Call>, o: int)
    ensures CountedFor(a + b, o) == CountedFor(a, o) + CountedFor(b, o)
    decreases |b|
  {
    if b == [] {
      assert a + b == a;
    } else {
      assert (a + b)[..|a + b| - 1] == a + b[..|b| - 1];
      CountedAppend(a, b[..|b| - 1], o);
    }
  }

  /** A segment's point values for the aggregated field: the point tree, the
      number of docs with a point and the number of points. */
  datatype PointField = PointField(tree: Tree, docCount: int, size: int)

  /** What the fast path reads of one segment: whether it has deleted docs,
      the field's points (absent when the segment has none), and whether
      some doc carries a `_doc_count` field. */
  datatype Segment = Segment(hasDeletions: bool, points: Option<PointField>, hasDocCountField: bool)

  /** The segment conditions under which the fast path runs, given ranges:
      no deletions, points present, one point per doc, no `_doc_count`. */
  predicate SegmentEligible(seg: Segment)
  {
    !seg.hasDeletions && seg.points.Some? &&
    seg.points.value.docCount == seg.points.value.size && !seg.hasDocCountField
  }

  /** One profile entry of `populateDebugInfo`. */
  datatype DebugEntry = DebugEntry(key: string, value: int)
}
