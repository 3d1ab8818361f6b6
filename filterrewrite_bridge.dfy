/** The filter-rewrite `AggregatorBridge`: the range index to bucket ordinal
    map, the cap on non-empty ranges, and the choice between handing every
    collected doc over one at a time (when a sub-aggregation is present) and
    adding each range's count in bulk (when it is not). */
module FilterRewriteBridge {

  import opened AggregationHost
  import opened PackedRanges
  import opened PointTree
  import opened RangeCursor
  import TraversalCorrectness
  import PointTreeCollector

  /** `rangeMax()` by default: no cap. */
  const DefaultRangeMax: int := IntMax

  /** `getOrd(rangeIdx)` by default: the range index is the bucket ordinal. */
  function GetOrd(rangeIdx: int): int
  {
    rangeIdx
  }

  /** The doc-collecting callback for one range's docs: per doc, a count of
      one and the doc to the sub-collector, both under the range's ordinal. */
  function DocCalls(docs: seq<int>, o: int): (calls: seq<Call>)
    ensures |calls| == 2 * |docs|
  {
    if docs == [] then []
    else DocCalls(docs[..|docs| - 1], o) + [IncrementDocCount(o, 1), SubCollect(docs[|docs| - 1], o)]
  }

  /** The calls the doc-collecting visitor makes for a sequence of reports. */
  function PerDocCalls(es: seq<Emission>, ord: int -> int): seq<Call>
  {
    if es == [] then []
    else
      var e := es[|es| - 1];
      PerDocCalls(es[..|es| - 1], ord) + DocCalls(e.docs, ord(e.index))
  }

  /** The calls the count-only visitor makes: one bulk count per report. */
  function BulkCalls(es: seq<Emission>, ord: int -> int): (calls: seq<Call>)
    ensures |calls| == |es|
  {
    if es == [] then []
    else
      var e := es[|es| - 1];
      BulkCalls(es[..|es| - 1], ord) + [IncrementDocCount(ord(e.index), |e.docs|)]
  }

  /** The calls for a traversal's reports, with or without a sub-aggregation. */
  function Delivered(withSub: bool, es: seq<Emission>, ord: int -> int): seq<Call>
  {
    if withSub then PerDocCalls(es, ord) else BulkCalls(es, ord)
  }

  /** The two calls for one doc. */
  lemma DocPairFor(d: int, o: int, bucket: int, o2: int)
    ensures CollectedFor([IncrementDocCount(o, 1), SubCollect(d, o)], bucket) == if bucket == o then [d] else []
    ensures CountedFor([IncrementDocCount(o, 1), SubCollect(d, o)], o2) == if o2 == o then 1 else 0
  {
    var pair := [IncrementDocCount(o, 1), SubCollect(d, o)];
    var first := pair[..|pair| - 1];
    assert first == [IncrementDocCount(o, 1)] && first[..|first| - 1] == [];
    assert CollectedFor(first, bucket) == [] && CountedFor(first, o2) == if o2 == o then 1 else 0;
  }

  /** One range's per-doc calls count each doc once under the range's
      ordinal and hand every doc, in order, to the sub-collector under it. */
  lemma {:induction false} DocCallsFor(docs: seq<int>, o: int, bucket: int, o2: int)
    ensures CollectedFor(DocCalls(docs, o), bucket) == if bucket == o then docs else []
    ensures CountedFor(DocCalls(docs, o), o2) == if o2 == o then |docs| else 0
  {
    if docs != [] {
      var init := docs[..|docs| - 1];
      var d := docs[|docs| - 1];
      var pair := [IncrementDocCount(o, 1), SubCollect(d, o)];
      DocCallsFor(init, o, bucket, o2);
      CollectedAppend(DocCalls(init, o), pair, bucket);
      CountedAppend(DocCalls(init, o), pair, o2);
      DocPairFor(d, o, bucket, o2);
      assert docs == init + [d];
    }
  }

  /** Both visitors add the same total to every bucket ordinal. */
  lemma {:induction false} DeliveryModesAgree(es: seq<Emission>, ord: int -> int, o: int)
    ensures CountedFor(PerDocCalls(es, ord), o) == CountedFor(BulkCalls(es, ord), o)
  {
    if es != [] {
      var e := es[|es| - 1];
      var init := es[..|es| - 1];
      var bulk := [IncrementDocCount(ord(e.index), |e.docs|)];
      DeliveryModesAgree(init, ord, o);
      CountedAppend(PerDocCalls(init, ord), DocCalls(e.docs, ord(e.index)), o);
      CountedAppend(BulkCalls(init, ord), bulk, o);
      DocCallsFor(e.docs, ord(e.index), 0, o);
      assert bulk[..0] == [];
    }
  }

  /** With an ordinal map that tells ranges apart, a range's bucket is
      counted once per doc the range reports (in either mode), and with a
      sub-aggregation the reported docs reach the sub-collector under it. */
  lemma {:induction false} DeliveredPerRange(es: seq<Emission>, ord: int -> int, i: int)
    requires forall a, b :: ord(a) == ord(b) ==> a == b
    ensures CollectedFor(PerDocCalls(es, ord), ord(i)) == TraversalCorrectness.ReportedDocs(es, i)
    ensures CountedFor(BulkCalls(es, ord), ord(i)) == |TraversalCorrectness.ReportedDocs(es, i)|
  {
    if es != [] {
      var e := es[|es| - 1];
      var init := es[..|es| - 1];
      var bulk := [IncrementDocCount(ord(e.index), |e.docs|)];
      DeliveredPerRange(init, ord, i);
      CollectedAppend(PerDocCalls(init, ord), DocCalls(e.docs, ord(e.index)), ord(i));
      CountedAppend(BulkCalls(init, ord), bulk, ord(i));
      DocCallsFor(e.docs, ord(e.index), ord(i), 0);
      assert bulk[..0] == [];
    }
  }

  /** On sorted, disjoint ranges and a well-formed point tree, the default
      cap never stops the traversal, every bucket is counted exactly the
      docs the brute-force filter finds in its range, and with a
      sub-aggregation exactly those docs are collected into it. */
  lemma DeliveredMatchesFilter(tree: Tree, r: Ranges, withSub: bool)
    requires Valid(r) && SortedDisjoint(r) && r.size <= IntMax
    requires WellFormed(tree, r.byteLen) && Readable(tree, r.byteLen)
    ensures MultiRangesTraverse(tree, r, DefaultRangeMax).emitted ==
      TraversalCorrectness.Expected(Flatten(tree), r, r.size)
    ensures forall i :: 0 <= i < r.size ==>
      CountedFor(Delivered(withSub, MultiRangesTraverse(tree, r, DefaultRangeMax).emitted, GetOrd), GetOrd(i)) ==
      |DocsIn(Flatten(tree), r, i)|
    ensures withSub ==> forall i :: 0 <= i < r.size ==>
      CollectedFor(Delivered(withSub, MultiRangesTraverse(tree, r, DefaultRangeMax).emitted, GetOrd), GetOrd(i)) ==
      DocsIn(Flatten(tree), r, i)
  {
    TraversalCorrectness.TraversalMatchesFilter(tree, r, DefaultRangeMax);
    var all := Flatten(tree);
    var es := MultiRangesTraverse(tree, r, DefaultRangeMax).emitted;
    assert forall a, b :: GetOrd(a) == GetOrd(b) ==> a == b;
    forall i | 0 <= i < r.size
      ensures CountedFor(Delivered(withSub, es, GetOrd), GetOrd(i)) == |DocsIn(all, r, i)|
      ensures withSub ==> CollectedFor(Delivered(withSub, es, GetOrd), GetOrd(i)) == DocsIn(all, r, i)
    {
      DeliveredPerRange(es, GetOrd, i);
      DeliveryModesAgree(es, GetOrd, GetOrd(i));
      TraversalCorrectness.ExpectedPerRange(all, r, r.size, i);
    }
  }

  /** Append one range's per-doc calls, a doc at a time. */
  method AppendDocCalls(calls: seq<Call>, docs: seq<int>, o: int) returns (out: seq<Call>)
    ensures out == calls + DocCalls(docs, o)
  {
    out := calls;
    for j := 0 to |docs|
      invariant out == calls + DocCalls(docs[..j], o)
    {
      assert docs[..j + 1][..j] == docs[..j];
      out := out + [IncrementDocCount(o, 1), SubCollect(docs[j], o)];
    }
    assert docs[..|docs|] == docs;
  }

  /** The calls give the bucket of every range below `a` exactly the docs
      the brute-force filter finds in that range, as a count and, with a
      sub-aggregation, as collected docs, and give later ranges nothing. */
  ghost predicate MatchesBelow(calls: seq<Call>, tree: Tree, r: Ranges, withSub: bool, ord: int -> int, a: int)
    requires Valid(r)
  {
    forall i :: 0 <= i < r.size ==>
      CountedFor(calls, ord(i)) == (if i < a then |DocsIn(Flatten(tree), r, i)| else 0) &&
      (withSub ==> CollectedFor(calls, ord(i)) == (if i < a then DocsIn(Flatten(tree), r, i) else []))
  }

  /** With any cap and any ordinal map that tells ranges apart, the
      delivered calls are the brute-force answer below a cut-off `a`, which
      falls short of all ranges only after more ranges than the cap were
      visited: each bucket of a range below `a` counts, and with a
      sub-aggregation collects, exactly the docs the filter finds in the
      range, and the buckets of later ranges get nothing. */
  lemma CappedDeliveryMatchesFilter(tree: Tree, r: Ranges, withSub: bool, ord: int -> int, rangeMax: int)
    requires Valid(r) && SortedDisjoint(r)
    requires WellFormed(tree, r.byteLen) && Readable(tree, r.byteLen)
    requires forall a, b :: ord(a) == ord(b) ==> a == b
    ensures exists a :: (0 <= a <= r.size && (a < r.size ==> a > rangeMax) &&
      MatchesBelow(Delivered(withSub, MultiRangesTraverse(tree, r, rangeMax).emitted, ord), tree, r, withSub, ord, a))
  {
    TraversalCorrectness.TraversalMatchesFilter(tree, r, rangeMax);
    var all := Flatten(tree);
    var es := MultiRangesTraverse(tree, r, rangeMax).emitted;
    var a :| 0 <= a <= r.size && es == TraversalCorrectness.Expected(all, r, a) && (a < r.size ==> a > rangeMax);
    forall i | 0 <= i < r.size
      ensures CountedFor(Delivered(withSub, es, ord), ord(i)) == (if i < a then |DocsIn(all, r, i)| else 0)
      ensures withSub ==> CollectedFor(Delivered(withSub, es, ord), ord(i)) == (if i < a then DocsIn(all, r, i) else [])
    {
      DeliveredPerRange(es, ord, i);
      DeliveryModesAgree(es, ord, ord(i));
      TraversalCorrectness.ExpectedPerRange(all, r, a, i);
    }
    assert MatchesBelow(Delivered(withSub, es, ord), tree, r, withSub, ord, a);
  }

  /** Hand a traversal's reports to the visitor's callback, report by
      report: per doc with a sub-aggregation, in bulk without. */
  method DeliverAll(es: seq<Emission>, withSub: bool, ord: int -> int) returns (calls: seq<Call>)
    ensures calls == Delivered(withSub, es, ord)
  {
    calls := [];
    for k := 0 to |es|
      invariant calls == Delivered(withSub, es[..k], ord)
    {
      var e := es[k];
      assert es[..k + 1][..k] == es[..k];
      if withSub {
        calls := AppendDocCalls(calls, e.docs, ord(e.index));
      } else {
        calls := calls + [IncrementDocCount(ord(e.index), |e.docs|)];
      }
    }
    assert es[..|es|] == es;
  }

  /** `tryOptimize(values, incrementDocCount, sub)`: walk the segment's
      point tree over the context's ranges with the bridge's cap
      `rangeMax()`, through the doc-collecting visitor when there is a
      sub-aggregation and the count-only one otherwise, mapping range
      indexes to bucket ordinals with the bridge's `getOrd`; answers the
      calls made into the aggregator and the node counts to fold into the
      context.  The defaults are `GetOrd` and `DefaultRangeMax`. */
  method TryOptimize(tree: Tree, r: Ranges, withSub: bool, ord: int -> int, rangeMax: int)
    returns (calls: seq<Call>, debug: DebugCounts)
    requires Valid(r) && Readable(tree, r.byteLen)
    ensures calls == Delivered(withSub, MultiRangesTraverse(tree, r, rangeMax).emitted, ord)
    ensures debug == MultiRangesTraverse(tree, r, rangeMax).debug
    ensures (SortedDisjoint(r) && WellFormed(tree, r.byteLen) &&
             (forall a, b :: ord(a) == ord(b) ==> a == b)) ==>
      exists a :: 0 <= a <= r.size && (a < r.size ==> a > rangeMax) && MatchesBelow(calls, tree, r, withSub, ord, a)
  {
    var es;
    es, debug := PointTreeCollector.MultiRangesTraverse(tree, r, rangeMax);
    calls := DeliverAll(es, withSub, ord);
    if SortedDisjoint(r) && WellFormed(tree, r.byteLen) && (forall a, b :: ord(a) == ord(b) ==> a == b) {
      CappedDeliveryMatchesFilter(tree, r, withSub, ord, rangeMax);
    }
  }
}
