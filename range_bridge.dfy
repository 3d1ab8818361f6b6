/** The bridge between the range aggregation and the fast path: whether the
    aggregation qualifies, how its ranges become packed byte ranges, and how
    the traversal's reports reach the bucket counts and the sub-aggregation. */
module RangeAggregation {

  import opened Options
  import opened AggregationHost
  import opened ByteOrder
  import opened PackedRanges
  import opened PointTree
  import opened RangeCursor
  import TraversalCorrectness
  import PointTreeCollector

  /** One range of the aggregation, `[from, to)`, its endpoints abstracted
      from doubles to integers. */
  datatype AggRange = AggRange(from: int, to: int)

  /** What the eligibility check reads of the field type. */
  datatype FieldType = FieldType(name: string, searchable: bool, numericPointEncoder: bool)

  /** What the eligibility check reads of the values-source configuration. */
  datatype ValuesSourceConfig = ValuesSourceConfig(
    fieldType: Option<FieldType>,
    hasScript: bool,
    hasMissing: bool,
    numericFieldData: bool)

  /** Each range ends at or before the next one begins (touching is allowed). */
  ghost predicate NoOverlap(rs: seq<AggRange>)
  {
    forall i, j :: 0 <= i && j == i + 1 && j < |rs| ==> rs[i].to <= rs[j].from
  }

  /** `canOptimize(config, ranges)`'s answer: the field is present,
      searchable and point-encoded, there is no script and no missing value,
      the values come from numeric field data, and no range starts before
      the previous one ends. */
  ghost predicate Qualifies(config: ValuesSourceConfig, rs: seq<AggRange>)
  {
    config.fieldType.Some? && config.fieldType.value.searchable &&
    config.fieldType.value.numericPointEncoder &&
    !config.hasScript && !config.hasMissing && config.numericFieldData &&
    NoOverlap(rs)
  }

  /** The encoder maps every value to the same number of bytes. */
  ghost predicate FixedWidth(encode: int -> Bytes, width: nat)
  {
    forall a :: |encode(a)| == width
  }

  /** The encoder keeps the order of values in the unsigned byte order. */
  ghost predicate Monotone(encode: int -> Bytes, width: nat)
  {
    forall a, b :: a <= b ==> Key(encode(a), width) <= Key(encode(b), width)
  }

  /** The packed ranges built from the aggregation's ranges: one pair of
      encoded bounds per range, at the width of the first encoded bound. */
  function Encoded(rs: seq<AggRange>, encode: int -> Bytes): Ranges
    requires |rs| > 0
  {
    Ranges(
      seq(|rs|, i requires 0 <= i < |rs| => encode(rs[i].from)),
      seq(|rs|, i requires 0 <= i < |rs| => encode(rs[i].to)),
      |rs|,
      |encode(rs[0].from)|)
  }

  /** Ranges that do not overlap, each well ordered, encoded by an order
      preserving fixed-width encoder, give packed ranges the traversal can
      rely on: valid, sorted and disjoint. */
  lemma EncodedSortedDisjoint(rs: seq<AggRange>, encode: int -> Bytes, width: nat)
    requires |rs| > 0 && FixedWidth(encode, width) && Monotone(encode, width)
    requires NoOverlap(rs) && forall i :: 0 <= i < |rs| ==> rs[i].from <= rs[i].to
    ensures Valid(Encoded(rs, encode)) && SortedDisjoint(Encoded(rs, encode))
  {
    var r := Encoded(rs, encode);
    assert r.byteLen == width;
    forall i | 0 <= i < r.size ensures LowerKey(r, i) <= UpperKey(r, i) {
      assert r.lowers[i] == encode(rs[i].from) && r.uppers[i] == encode(rs[i].to);
    }
    forall i, j | 0 <= i && j == i + 1 && j < r.size ensures UpperKey(r, i) <= LowerKey(r, j) {
      assert r.uppers[i] == encode(rs[i].to) && r.lowers[j] == encode(rs[j].from);
    }
    AdjacentOrderedIsSortedDisjoint(r);
  }

  /** The sub-collector calls for one range's doc ids, in order. */
  function SubCollects(docs: seq<int>, bucket: int): (calls: seq<Call>)
    ensures |calls| == |docs|
  {
    if docs == [] then []
    else SubCollects(docs[..|docs| - 1], bucket) + [SubCollect(docs[|docs| - 1], bucket)]
  }

  /** What the `collectRangeIDs` consumer does with a sequence of reports: per
      range, one count increment under the range's bucket ordinal, then every
      buffered doc to the sub-collector under the raw range index. */
  function Deliver(es: seq<Emission>, ord: int -> int): seq<Call>
  {
    if es == [] then []
    else
      var e := es[|es| - 1];
      Deliver(es[..|es| - 1], ord) + [IncrementDocCount(ord(e.index), |e.docs|)] + SubCollects(e.docs, e.index)
  }

  /** The sub-collector calls of one range carry its docs under its index
      and no count. */
  lemma {:induction false} SubCollectsFor(docs: seq<int>, index: int, bucket: int, o: int)
    ensures CollectedFor(SubCollects(docs, index), bucket) == if bucket == index then docs else []
    ensures CountedFor(SubCollects(docs, index), o) == 0
  {
    if docs != [] {
      var init := docs[..|docs| - 1];
      SubCollectsFor(init, index, bucket, o);
      var calls := SubCollects(docs, index);
      assert calls[..|calls| - 1] == SubCollects(init, index);
      assert docs == init + [docs[|docs| - 1]];
    }
  }

  /** Every doc a range reports reaches the sub-collector under that range's
      index, in order, and no other doc does. */
  lemma {:induction false} DeliverCollects(es: seq<Emission>, ord: int -> int, bucket: int)
    ensures CollectedFor(Deliver(es, ord), bucket) == TraversalCorrectness.ReportedDocs(es, bucket)
  {
    if es != [] {
      var e := es[|es| - 1];
      var init := es[..|es| - 1];
      DeliverCollects(init, ord, bucket);
      var head := Deliver(init, ord) + [IncrementDocCount(ord(e.index), |e.docs|)];
      CollectedAppend(head, SubCollects(e.docs, e.index), bucket);
      CollectedAppend(Deliver(init, ord), [IncrementDocCount(ord(e.index), |e.docs|)], bucket);
      SubCollectsFor(e.docs, e.index, bucket, 0);
      assert [IncrementDocCount(ord(e.index), |e.docs|)][..0] == [];
    }
  }

  /** With an ordinal map that tells ranges apart, the count a range's
      bucket receives is the number of docs the range reports. */
  lemma {:induction false} DeliverCounts(es: seq<Emission>, ord: int -> int, i: int)
    requires forall a, b :: ord(a) == ord(b) ==> a == b
    ensures CountedFor(Deliver(es, ord), ord(i)) == |TraversalCorrectness.ReportedDocs(es, i)|
  {
    if es != [] {
      var e := es[|es| - 1];
      var init := es[..|es| - 1];
      DeliverCounts(init, ord, i);
      var inc := [IncrementDocCount(ord(e.index), |e.docs|)];
      CountedAppend(Deliver(init, ord) + inc, SubCollects(e.docs, e.index), ord(i));
      CountedAppend(Deliver(init, ord), inc, ord(i));
      SubCollectsFor(e.docs, e.index, 0, ord(i));
      assert inc[..0] == [];
    }
  }

  /** The uncapped traversal's reports, delivered: on sorted, disjoint
      ranges and a well-formed tree every range's docs reach the
      sub-collector as the brute-force filter finds them, and with an ordinal
      map that tells ranges apart each bucket's count is their number. */
  lemma DeliverMatchesFilter(tree: Tree, r: Ranges, ord: int -> int)
    requires Valid(r) && Readable(tree, r.byteLen) && r.size <= IntMax
    ensures SortedDisjoint(r) && WellFormed(tree, r.byteLen) ==>
      forall i :: 0 <= i < r.size ==>
        CollectedFor(Deliver(RangeCursor.MultiRangesTraverse(tree, r, IntMax).emitted, ord), i) ==
        DocsIn(Flatten(tree), r, i)
    ensures (SortedDisjoint(r) && WellFormed(tree, r.byteLen) &&
             (forall a, b :: ord(a) == ord(b) ==> a == b)) ==>
      forall i :: 0 <= i < r.size ==>
        CountedFor(Deliver(RangeCursor.MultiRangesTraverse(tree, r, IntMax).emitted, ord), ord(i)) ==
        |DocsIn(Flatten(tree), r, i)|
  {
    if SortedDisjoint(r) && WellFormed(tree, r.byteLen) {
      TraversalCorrectness.TraversalMatchesFilter(tree, r, IntMax);
      var all := Flatten(tree);
      var es := RangeCursor.MultiRangesTraverse(tree, r, IntMax).emitted;
      assert es == TraversalCorrectness.Expected(all, r, r.size);
      forall i | 0 <= i < r.size ensures CollectedFor(Deliver(es, ord), i) == DocsIn(all, r, i) {
        DeliverCollects(es, ord, i);
        TraversalCorrectness.ExpectedPerRange(all, r, r.size, i);
      }
      if forall a, b :: ord(a) == ord(b) ==> a == b {
        forall i | 0 <= i < r.size ensures CountedFor(Deliver(es, ord), ord(i)) == |DocsIn(all, r, i)| {
          DeliverCounts(es, ord, i);
          TraversalCorrectness.ExpectedPerRange(all, r, r.size, i);
        }
      }
    }
  }

  /** End to end: the ranges of an aggregation that qualifies, each with
      `from <= to`, encoded by an order preserving fixed-width encoder, and
      run over a well-formed point tree of that width, deliver to every
      range exactly the docs whose value falls in that range, and with an
      ordinal map that tells ranges apart count their number in its bucket. */
  lemma QualifiedRangesMatchFilter(config: ValuesSourceConfig, rs: seq<AggRange>,
                                   encode: int -> Bytes, width: nat, tree: Tree, ord: int -> int)
    requires 0 < |rs| <= IntMax && FixedWidth(encode, width) && Monotone(encode, width)
    requires Qualifies(config, rs) && forall i :: 0 <= i < |rs| ==> rs[i].from <= rs[i].to
    requires WellFormed(tree, width) && Readable(tree, width)
    ensures forall i :: 0 <= i < |rs| ==>
      CollectedFor(Deliver(RangeCursor.MultiRangesTraverse(tree, Encoded(rs, encode), IntMax).emitted, ord), i) ==
      DocsIn(Flatten(tree), Encoded(rs, encode), i)
    ensures (forall a, b :: ord(a) == ord(b) ==> a == b) ==>
      forall i :: 0 <= i < |rs| ==>
        CountedFor(Deliver(RangeCursor.MultiRangesTraverse(tree, Encoded(rs, encode), IntMax).emitted, ord), ord(i)) ==
        |DocsIn(Flatten(tree), Encoded(rs, encode), i)|
  {
    EncodedSortedDisjoint(rs, encode, width);
    DeliverMatchesFilter(tree, Encoded(rs, encode), ord);
  }

  /** The bridge of one range aggregation: its configuration, its ranges as
      the aggregator sorted them (by `from`, then `to`), the field's point
      encoder, and the field type it records once it qualifies. */
  class RangeAggregatorBridge {
    const config: ValuesSourceConfig
    const aggRanges: seq<AggRange>
    const encode: int -> Bytes
    const width: nat
    var fieldType: Option<FieldType>

    /** A range aggregation has at least one range, and no more than a Java
        array holds; the point encoder of a numeric field writes a fixed
        number of bytes. */
    constructor (config: ValuesSourceConfig, aggRanges: seq<AggRange>, encode: int -> Bytes, width: nat)
      requires 0 < |aggRanges| <= IntMax && FixedWidth(encode, width)
      ensures this.config == config && this.aggRanges == aggRanges
      ensures this.encode == encode && this.width == width && fieldType == None
    {
      this.config := config;
      this.aggRanges := aggRanges;
      this.encode := encode;
      this.width := width;
      this.fieldType := None;
    }

    ghost predicate Valid()
      reads this
    {
      0 < |aggRanges| <= IntMax && FixedWidth(encode, width)
    }

    /** `canOptimize(config, ranges)`: checks the field, then walks the
        ranges once comparing each start with the previous end.  On success
        the field type is kept. */
    method CanOptimize() returns (ok: bool)
      requires Valid()
      modifies this
      ensures ok <==> Qualifies(config, aggRanges)
      ensures fieldType == if ok then config.fieldType else old(fieldType)
    {
      if config.fieldType.None? {
        return false;
      }
      var ft := config.fieldType.value;
      if !ft.searchable || !ft.numericPointEncoder {
        return false;
      }
      if !config.hasScript && !config.hasMissing {
        if config.numericFieldData {
          var prevTo := aggRanges[0].to;
          var i := 1;
          while i < |aggRanges|
            invariant 1 <= i <= |aggRanges| && prevTo == aggRanges[i - 1].to
            invariant NoOverlap(aggRanges[..i])
          {
            if prevTo > aggRanges[i].from {
              assert !NoOverlap(aggRanges) by {
                assert aggRanges[i - 1].to > aggRanges[i].from;
              }
              return false;
            }
            prevTo := aggRanges[i].to;
            i := i + 1;
          }
          assert aggRanges[..i] == aggRanges;
          fieldType := config.fieldType;
          return true;
        }
      }
      return false;
    }

    /** `buildRanges(ranges)`: encode every range's bounds into the parallel
        lower and upper arrays and pack them. */
    method BuildRanges() returns (r: Ranges)
      requires Valid()
      ensures r == Encoded(aggRanges, encode)
      ensures PackedRanges.Valid(r) && r.size == |aggRanges| && r.byteLen == width
    {
      var n := |aggRanges|;
      var lowers := new Bytes[n](_ => []);
      var uppers := new Bytes[n](_ => []);
      for i := 0 to n
        invariant forall k :: 0 <= k < i ==> lowers[k] == encode(aggRanges[k].from)
        invariant forall k :: 0 <= k < i ==> uppers[k] == encode(aggRanges[k].to)
      {
        lowers[i] := encode(aggRanges[i].from);
        uppers[i] := encode(aggRanges[i].to);
      }
      var built := NewRanges(lowers[..], uppers[..]);
      r := built.value;
      assert lowers[..] == Encoded(aggRanges, encode).lowers;
      assert uppers[..] == Encoded(aggRanges, encode).uppers;
    }

    /** `buildRanges(leaf)`: the range aggregation never builds ranges for a
        single segment. */
    method BuildRangesForSegment() returns (r: Result<Ranges>)
      ensures r.Unsupported?
    {
      return Unsupported("Range aggregation should not build ranges at segment level");
    }

    /** `tryFastFilterAggregation`: run the traversal uncapped and hand every
        report to the `collectRangeIDs` consumer; answers the calls made into
        the aggregator and the traversal's debug counts.  On sorted, disjoint
        ranges and a well-formed point tree every range's docs reach the
        sub-collector exactly as the brute-force filter finds them, and with
        an ordinal map that tells ranges apart each bucket's count is their
        number. */
    method TryFastFilterAggregation(tree: Tree, r: Ranges, ord: int -> int)
      returns (calls: seq<Call>, debug: DebugCounts)
      requires PackedRanges.Valid(r) && Readable(tree, r.byteLen) && r.size <= IntMax
      ensures calls == Deliver(RangeCursor.MultiRangesTraverse(tree, r, IntMax).emitted, ord)
      ensures debug == RangeCursor.MultiRangesTraverse(tree, r, IntMax).debug
      ensures SortedDisjoint(r) && WellFormed(tree, r.byteLen) ==>
        forall i :: 0 <= i < r.size ==> CollectedFor(calls, i) == DocsIn(Flatten(tree), r, i)
      ensures (SortedDisjoint(r) && WellFormed(tree, r.byteLen) &&
               (forall a, b :: ord(a) == ord(b) ==> a == b)) ==>
        forall i :: 0 <= i < r.size ==> CountedFor(calls, ord(i)) == |DocsIn(Flatten(tree), r, i)|
    {
      var es;
      es, debug := PointTreeCollector.MultiRangesTraverse(tree, r, IntMax);
      calls := [];
      for k := 0 to |es|
        invariant calls == Deliver(es[..k], ord)
      {
        var e := es[k];
        calls := calls + [IncrementDocCount(ord(e.index), |e.docs|)];
        ghost var head := calls;
        for j := 0 to |e.docs|
          invariant calls == head + SubCollects(e.docs[..j], e.index)
        {
          assert e.docs[..j + 1][..j] == e.docs[..j];
          calls := calls + [SubCollect(e.docs[j], e.index)];
        }
        assert e.docs[..|e.docs|] == e.docs;
        assert es[..k + 1][..k] == es[..k];
      }
      assert es[..|es|] == es;
      DeliverMatchesFilter(tree, r, ord);
    }
  }
}
