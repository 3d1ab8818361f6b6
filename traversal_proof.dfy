/** Correctness of the range-count traversal against the brute-force filter:
    walking the point tree with the range cursor reports, in ascending range
    order, each non-empty range once with the doc ids of exactly the points
    whose value lies in it; a cap on the number of ranges cuts the report off
    after a prefix of the ranges but never makes it wrong. */
module TraversalCorrectness {

  import opened ByteOrder
  import opened PackedRanges
  import opened PointTree
  import opened RangeCursor

  /** The reference answer for ranges `0..n-1`: one emission per range that
      holds at least one of the points, in range order, with that range's
      doc ids from the brute-force filter. */
  function Expected(ps: seq<Point>, r: Ranges, n: nat): seq<Emission>
    requires Valid(r)
  {
    if n == 0 then []
    else
      var docs := DocsIn(ps, r, n - 1);
      Expected(ps, r, n - 1) + (if docs == [] then [] else [Emission(n - 1, docs)])
  }

  /** Everything a list of emissions reports for range `i`, in order. */
  function ReportedDocs(es: seq<Emission>, i: int): seq<int>
  {
    if es == [] then []
    else
      var last := es[|es| - 1];
      ReportedDocs(es[..|es| - 1], i) + (if last.index == i then last.docs else [])
  }

  /** Every point seen so far lies below the upper bound of range `a`. */
  ghost predicate Behind(r: Ranges, a: int, done: seq<Point>)
    requires Valid(r) && 0 <= a < r.size
  {
    forall k :: 0 <= k < |done| ==> Key(done[k].value, r.byteLen) < UpperKey(r, a)
  }

  /** Every range below `a` ends at or before every value still to come. */
  ghost predicate Passed(r: Ranges, a: int, rest: seq<Point>)
    requires Valid(r) && a <= r.size
  {
    forall j, k :: 0 <= j < a && 0 <= k < |rest| ==>
      UpperKey(r, j) <= Key(rest[k].value, r.byteLen)
  }

  /** What the points still to come guarantee: readable, ascending, and at or
      above every range the cursor has left. */
  ghost predicate Ahead(r: Ranges, a: int, rest: seq<Point>)
    requires Valid(r) && a <= r.size
  {
    AllWide(rest, r.byteLen) && Sorted(rest, r.byteLen) && Passed(r, a, rest)
  }

  /** The walk invariant: the points `done` have been seen and the points
      `rest` are still to come; the ranges before the active one have been
      reported exactly as the brute-force filter would over `done`, and the
      buffer holds the filter's answer for the active range. */
  ghost predicate Inv(c: Cursor, done: seq<Point>, rest: seq<Point>)
  {
    Ready(c) && SortedDisjoint(c.ranges) && c.visited <= c.active &&
    Ahead(c.ranges, c.active, rest) && Behind(c.ranges, c.active, done) &&
    c.emitted == Expected(done, c.ranges, c.active) &&
    c.buffer == DocsIn(done, c.ranges, c.active)
  }

  /** The state after the collection stopped early: exactly the ranges below
      the active index are reported as the filter would over all points, and
      the stop happened because the ranges ran out or more ranges than the
      cap were moved on to. */
  ghost predicate Stopped(c: Cursor, all: seq<Point>)
  {
    Valid(c.ranges) && 0 <= c.active <= c.ranges.size && c.buffer == [] &&
    (c.active < c.ranges.size ==> c.maxNonZero < c.visited <= c.active) &&
    c.emitted == Expected(all, c.ranges, c.active)
  }

  /** Ranges that hold none of the points add nothing to the reference answer. */
  lemma {:induction false} ExpectedSkip(ps: seq<Point>, r: Ranges, a: nat, b: nat)
    requires Valid(r) && a <= b
    requires forall j :: a <= j < b ==> DocsIn(ps, r, j) == []
    ensures Expected(ps, r, b) == Expected(ps, r, a)
    decreases b
  {
    if a < b {
      ExpectedSkip(ps, r, a, b - 1);
      assert DocsIn(ps, r, b - 1) == [];
      assert Expected(ps, r, b) == Expected(ps, r, b - 1) + [];
    }
  }

  /** Two point lists that the filter cannot tell apart on ranges below `n`
      have the same reference answer there. */
  lemma {:induction false} ExpectedSame(ps: seq<Point>, qs: seq<Point>, r: Ranges, n: nat)
    requires Valid(r)
    requires forall i :: 0 <= i < n ==> DocsIn(ps, r, i) == DocsIn(qs, r, i)
    ensures Expected(ps, r, n) == Expected(qs, r, n)
  {
    if n > 0 {
      ExpectedSame(ps, qs, r, n - 1);
    }
  }

  /** Appending points that lie in no range below `n` leaves the reference
      answer there unchanged. */
  lemma ExpectedExtend(done: seq<Point>, ps: seq<Point>, r: Ranges, n: nat)
    requires Valid(r)
    requires forall i, k :: 0 <= i < n && 0 <= k < |ps| ==> !InRange(r, ps[k].value, i)
    ensures Expected(done + ps, r, n) == Expected(done, r, n)
  {
    forall i | 0 <= i < n ensures DocsIn(done + ps, r, i) == DocsIn(done, r, i) {
      DocsInAppend(done, ps, r, i);
      DocsInNone(ps, r, i);
    }
    ExpectedSame(done + ps, done, r, n);
  }

  lemma {:induction false} ReportedAppend(es: seq<Emission>, e: Emission, i: int)
    ensures ReportedDocs(es + [e], i) == ReportedDocs(es, i) + (if e.index == i then e.docs else [])
  {
    assert (es + [e])[..|es|] == es;
  }

  /** The reference answer, read range by range, is the brute-force filter:
      range `i` below `n` gets exactly its doc ids and no other range gets any. */
  lemma {:induction false} ExpectedPerRange(ps: seq<Point>, r: Ranges, n: nat, i: int)
    requires Valid(r)
    ensures ReportedDocs(Expected(ps, r, n), i) == if 0 <= i < n then DocsIn(ps, r, i) else []
  {
    if n > 0 {
      ExpectedPerRange(ps, r, n - 1, i);
      PerRangeStep(ps, r, n, i);
    }
  }

  lemma PerRangeStep(ps: seq<Point>, r: Ranges, n: nat, i: int)
    requires Valid(r) && n > 0
    requires ReportedDocs(Expected(ps, r, n - 1), i) == if 0 <= i < n - 1 then DocsIn(ps, r, i) else []
    ensures ReportedDocs(Expected(ps, r, n), i) == if 0 <= i < n then DocsIn(ps, r, i) else []
  {
    var prev := Expected(ps, r, n - 1);
    var docs := DocsIn(ps, r, n - 1);
    if docs != [] {
      assert Expected(ps, r, n) == prev + [Emission(n - 1, docs)];
      ReportedAppend(prev, Emission(n - 1, docs), i);
      if i == n - 1 {
        assert ReportedDocs(prev, i) == [];
      } else {
        assert ReportedDocs(Expected(ps, r, n), i) == ReportedDocs(prev, i) + [];
      }
    } else {
      assert Expected(ps, r, n) == prev + [] == prev;
      if i == n - 1 {
        assert DocsIn(ps, r, i) == [];
      }
    }
  }

  /** Every emission names a range below `n` and carries at least one doc id. */
  ghost predicate IndexedBelow(es: seq<Emission>, n: int)
  {
    forall k :: 0 <= k < |es| ==> 0 <= es[k].index < n && es[k].docs != []
  }

  ghost predicate StrictlyAscending(es: seq<Emission>)
  {
    forall k, l :: 0 <= k < l < |es| ==> es[k].index < es[l].index
  }

  /** The reference answer lists ascending ranges below `n`, each with at
      least one doc id, so no range appears twice. */
  lemma {:induction false} ExpectedAscending(ps: seq<Point>, r: Ranges, n: nat)
    requires Valid(r)
    ensures IndexedBelow(Expected(ps, r, n), n)
    ensures StrictlyAscending(Expected(ps, r, n))
  {
    if n > 0 {
      var prev := Expected(ps, r, n - 1);
      ExpectedAscending(ps, r, n - 1);
      var docs := DocsIn(ps, r, n - 1);
      if docs != [] {
        var e := Emission(n - 1, docs);
        assert Expected(ps, r, n) == prev + [e];
        AppendAbove(prev, e, n);
      } else {
        assert Expected(ps, r, n) == prev + [];
      }
    }
  }

  lemma AppendAbove(es: seq<Emission>, e: Emission, n: int)
    requires IndexedBelow(es, n - 1) && StrictlyAscending(es)
    requires 0 < n && e.index == n - 1 && e.docs != []
    ensures IndexedBelow(es + [e], n) && StrictlyAscending(es + [e])
  {
    var es' := es + [e];
    forall k | 0 <= k < |es'| ensures 0 <= es'[k].index < n && es'[k].docs != [] {
      if k < |es| {
        assert es'[k] == es[k];
        assert 0 <= es[k].index < n - 1 && es[k].docs != [];
      } else {
        assert es'[k] == e;
      }
    }
    forall k, l | 0 <= k < l < |es'| ensures es'[k].index < es'[l].index {
      assert es'[k] == es[k];
      if l < |es| {
        assert es'[l] == es[l];
      } else {
        assert es'[l] == e;
      }
    }
  }

  /** The points of a run `ps + rest` inherit its guarantees. */
  lemma SplitRun(r: Ranges, a: int, ps: seq<Point>, rest: seq<Point>)
    requires Valid(r) && a <= r.size && Ahead(r, a, ps + rest)
    ensures Ahead(r, a, rest)
    ensures AllWide(ps, r.byteLen) && Passed(r, a, ps)
  {
    SortedSuffix(ps, rest, r.byteLen);
    forall k | 0 <= k < |rest| ensures rest[k] == (ps + rest)[|ps| + k] {}
    forall k | 0 <= k < |ps| ensures ps[k] == (ps + rest)[k] {}
  }

  lemma PassedFurther(r: Ranges, a: int, b: int, v: Bytes, rest: seq<Point>)
    requires Valid(r) && 0 <= a <= b <= r.size && r.byteLen <= |v|
    requires Passed(r, a, rest)
    requires forall j :: a <= j < b ==> UpperKey(r, j) <= Key(v, r.byteLen)
    requires forall k :: 0 <= k < |rest| ==> Key(v, r.byteLen) <= Key(rest[k].value, r.byteLen)
    ensures Passed(r, b, rest)
  {
    forall j, k | 0 <= j < b && 0 <= k < |rest|
      ensures UpperKey(r, j) <= Key(rest[k].value, r.byteLen)
    {
      if j >= a {
        assert UpperKey(r, j) <= Key(v, r.byteLen);
      }
    }
  }

  /** Points behind range `a` lie in no later range. */
  lemma BehindMissesLater(r: Ranges, a: int, done: seq<Point>, j: int)
    requires Valid(r) && SortedDisjoint(r) && 0 <= a < r.size && Behind(r, a, done) && a < j
    ensures DocsIn(done, r, j) == []
  {
    forall k | 0 <= k < |done| ensures !InRange(r, done[k].value, j) {
      if j < r.size {
        assert UpperKey(r, a) <= LowerKey(r, j);
      }
    }
    DocsInNone(done, r, j);
  }

  /** The ranges between the active one and `b` add nothing to the
      reference answer over points behind the active range. */
  lemma ExpectedPastBehind(r: Ranges, a: int, done: seq<Point>, b: int)
    requires Valid(r) && SortedDisjoint(r) && 0 <= a < b <= r.size && Behind(r, a, done)
    ensures Expected(done, r, b) == Expected(done, r, a + 1)
  {
    forall j | a + 1 <= j < b ensures DocsIn(done, r, j) == [] {
      BehindMissesLater(r, a, done, j);
    }
    ExpectedSkip(done, r, a + 1, b);
  }

  /** Points that are to come lie in no range the cursor has left. */
  lemma PassedMissesEarlier(r: Ranges, a: int, rest: seq<Point>, i: int)
    requires Valid(r) && 0 <= a <= r.size && Passed(r, a, rest) && i < a
    ensures DocsIn(rest, r, i) == []
  {
    DocsInNone(rest, r, i);
  }

  /** Flushing the buffer reports the active range as the reference does. */
  lemma FinalizeExtends(c: Cursor, done: seq<Point>)
    requires Ready(c)
    requires c.emitted == Expected(done, c.ranges, c.active)
    requires c.buffer == DocsIn(done, c.ranges, c.active)
    ensures Finalize(c).emitted == Expected(done, c.ranges, c.active + 1)
  {
    if c.buffer == [] {
      assert Expected(done, c.ranges, c.active + 1) == Expected(done, c.ranges, c.active) + [];
    }
  }

  /** Moving the cursor on over a value `v` that is at or past the active
      upper bound and not above any point to come. */
  lemma AdvanceFacts(c: Cursor, done: seq<Point>, v: Bytes, rest: seq<Point>)
    requires Inv(c, done, rest) && c.ranges.byteLen <= |v|
    requires UpperKey(c.ranges, c.active) <= Key(v, c.ranges.byteLen)
    requires forall k :: 0 <= k < |rest| ==>
      Key(v, c.ranges.byteLen) <= Key(rest[k].value, c.ranges.byteLen)
    ensures var c' := IterateRangeEnd(Finalize(c), v).cursor;
      c'.ranges == c.ranges && c.active < c'.active <= c.ranges.size && c'.buffer == [] &&
      c'.emitted == Expected(done, c.ranges, c'.active) &&
      Passed(c.ranges, c'.active, rest) &&
      (c'.active < c.ranges.size ==> c'.visited == c.visited + 1 && Behind(c.ranges, c'.active, done))
  {
    var c' := IterateRangeEnd(Finalize(c), v).cursor;
    FinalizeExtends(c, done);
    MovedPast(c, c', done, v, rest);
  }

  /** The facts behind `AdvanceFacts`, for any cursor `c'` that the flush and
      the move over `v` can produce from `c`. */
  lemma MovedPast(c: Cursor, c': Cursor, done: seq<Point>, v: Bytes, rest: seq<Point>)
    requires Inv(c, done, rest) && c.ranges.byteLen <= |v|
    requires forall k :: 0 <= k < |rest| ==>
      Key(v, c.ranges.byteLen) <= Key(rest[k].value, c.ranges.byteLen)
    requires c'.ranges == c.ranges && c.active < c'.active <= c.ranges.size
    requires c'.emitted == Expected(done, c.ranges, c.active + 1)
    requires forall j :: c.active <= j < c'.active ==>
      UpperKey(c.ranges, j) <= Key(v, c.ranges.byteLen)
    ensures c'.emitted == Expected(done, c.ranges, c'.active)
    ensures Passed(c.ranges, c'.active, rest)
    ensures c'.active < c.ranges.size ==> Behind(c.ranges, c'.active, done)
  {
    var r := c.ranges;
    ExpectedPastBehind(r, c.active, done, c'.active);
    PassedFurther(r, c.active, c'.active, v, rest);
    if c'.active < r.size {
      assert UpperKey(r, c.active) <= LowerKey(r, c'.active) <= UpperKey(r, c'.active);
    }
  }

  lemma AdvanceStops(c: Cursor, done: seq<Point>, v: Bytes, rest: seq<Point>)
    requires Inv(c, done, rest) && c.ranges.byteLen <= |v|
    requires UpperKey(c.ranges, c.active) <= Key(v, c.ranges.byteLen)
    requires forall k :: 0 <= k < |rest| ==>
      Key(v, c.ranges.byteLen) <= Key(rest[k].value, c.ranges.byteLen)
    ensures var s := IterateRangeEnd(Finalize(c), v);
      s.stop ==> Stopped(s.cursor, done + rest)
  {
    var s := IterateRangeEnd(Finalize(c), v);
    var c' := s.cursor;
    var r := c.ranges;
    AdvanceFacts(c, done, v, rest);
    if s.stop {
      forall i | 0 <= i < c'.active ensures DocsIn(done + rest, r, i) == DocsIn(done, r, i) {
        DocsInAppend(done, rest, r, i);
        PassedMissesEarlier(r, c'.active, rest, i);
      }
      ExpectedSame(done + rest, done, r, c'.active);
    }
  }

  lemma AdvanceContinues(c: Cursor, done: seq<Point>, v: Bytes, rest: seq<Point>)
    requires Inv(c, done, rest) && c.ranges.byteLen <= |v|
    requires UpperKey(c.ranges, c.active) <= Key(v, c.ranges.byteLen)
    requires forall k :: 0 <= k < |rest| ==>
      Key(v, c.ranges.byteLen) <= Key(rest[k].value, c.ranges.byteLen)
    ensures var s := IterateRangeEnd(Finalize(c), v);
      !s.stop ==> Inv(s.cursor, done, rest) && s.cursor.buffer == []
  {
    var s := IterateRangeEnd(Finalize(c), v);
    var c' := s.cursor;
    AdvanceFacts(c, done, v, rest);
    if !s.stop {
      BehindMissesLater(c.ranges, c.active, done, c'.active);
    }
  }

  /** A point below the active upper bound is collected iff it lies in the
      active range, and that keeps the invariant. */
  lemma Collect(c: Cursor, done: seq<Point>, p: Point, rest: seq<Point>)
    requires Inv(c, done, [p] + rest) && c.ranges.byteLen <= |p.value|
    requires Key(p.value, c.ranges.byteLen) < UpperKey(c.ranges, c.active)
    ensures var c' := if InRange(c.ranges, p.value, c.active) then c.(buffer := c.buffer + [p.doc]) else c;
      Inv(c', done + [p], rest)
  {
    var r := c.ranges;
    SplitRun(r, c.active, [p], rest);
    assert [p][0] == p;
    ExpectedExtend(done, [p], r, c.active);
    DocsInAppend(done, [p], r, c.active);
    assert [p][1..] == [];
  }

  /** One `visit(docID, packedValue)` keeps the invariant or stops correctly. */
  lemma VisitPointStep(c: Cursor, done: seq<Point>, p: Point, rest: seq<Point>)
    requires Inv(c, done, [p] + rest) && c.ranges.byteLen <= |p.value|
    ensures var s := VisitPoint(c, p);
      (s.stop ==> Stopped(s.cursor, done + ([p] + rest))) &&
      (!s.stop ==> Inv(s.cursor, done + [p], rest))
  {
    var r := c.ranges;
    var w := r.byteLen;
    if WithinUpperBoundAt(r, p.value, c.active) {
      Collect(c, done, p, rest);
    } else {
      var run := [p] + rest;
      forall k | 0 <= k < |run| ensures Key(p.value, w) <= Key(run[k].value, w) {
        assert run[0] == p;
      }
      AdvanceStops(c, done, p.value, run);
      AdvanceContinues(c, done, p.value, run);
      var s := IterateRangeEnd(Finalize(c), p.value);
      if !s.stop {
        Collect(s.cursor, done, p, rest);
      }
    }
  }

  /** A cell entirely below the active range holds no point of any range. */
  lemma Skip(c: Cursor, done: seq<Point>, ps: seq<Point>, rest: seq<Point>)
    requires Inv(c, done, ps + rest)
    requires forall q :: 0 <= q < |ps| ==>
      Key(ps[q].value, c.ranges.byteLen) < LowerKey(c.ranges, c.active)
    ensures Inv(c, done + ps, rest)
  {
    var r := c.ranges;
    SplitRun(r, c.active, ps, rest);
    ExpectedExtend(done, ps, r, c.active);
    DocsInAppend(done, ps, r, c.active);
    DocsInNone(ps, r, c.active);
  }

  /** A cell entirely inside the active range contributes all its doc ids to
      that range and nothing to any other. */
  lemma Bulk(c: Cursor, done: seq<Point>, ps: seq<Point>, rest: seq<Point>)
    requires Inv(c, done, ps + rest)
    requires forall q :: 0 <= q < |ps| ==> InRange(c.ranges, ps[q].value, c.active)
    ensures Inv(c.(buffer := c.buffer + Docs(ps)), done + ps, rest)
  {
    var r := c.ranges;
    SplitRun(r, c.active, ps, rest);
    ExpectedExtend(done, ps, r, c.active);
    DocsInAppend(done, ps, r, c.active);
    DocsInAll(ps, r, c.active);
  }

  /** The node's minimum is at or below every point of the node and of the
      run that follows it. */
  lemma NodeMinBelowRun(t: Tree, rest: seq<Point>, w: nat)
    requires NodeOK(t, w) && Sorted(Flatten(t) + rest, w)
    ensures forall k :: 0 <= k < |Flatten(t) + rest| ==>
      Key(t.minPacked, w) <= Key((Flatten(t) + rest)[k].value, w)
  {
    var ps := Flatten(t);
    var run := ps + rest;
    forall k | 0 <= k < |run| ensures Key(t.minPacked, w) <= Key(run[k].value, w) {
      assert run[0] == ps[0];
      if k < |ps| {
        assert run[k] == ps[k];
      }
    }
  }

  /** The first half of the cell comparison: moving the cursor on over the
      cell's minimum when it is at or past the active upper bound. */
  lemma CompareMoves(c: Cursor, done: seq<Point>, t: Tree, rest: seq<Point>)
    requires Inv(c, done, Flatten(t) + rest) && NodeOK(t, c.ranges.byteLen)
    ensures var s := MoveToCell(c, t.minPacked);
      (s.stop ==> Stopped(s.cursor, done + (Flatten(t) + rest))) &&
      (!s.stop ==> (Inv(s.cursor, done, Flatten(t) + rest) &&
        Key(t.minPacked, c.ranges.byteLen) < UpperKey(c.ranges, s.cursor.active)))
  {
    if !WithinUpperBoundAt(c.ranges, t.minPacked, c.active) {
      NodeMinBelowRun(t, rest, c.ranges.byteLen);
      AdvanceStops(c, done, t.minPacked, Flatten(t) + rest);
      AdvanceContinues(c, done, t.minPacked, Flatten(t) + rest);
    }
  }

  /** The cell comparison either stops correctly or, for a crossing cell,
      leaves the invariant in place for the walk into the cell. */
  lemma CompareStep(c: Cursor, done: seq<Point>, t: Tree, rest: seq<Point>)
    requires Inv(c, done, Flatten(t) + rest) && NodeOK(t, c.ranges.byteLen)
    ensures var k := CompareCell(c, t.minPacked, t.maxPacked);
      (k.Terminated? ==> Stopped(k.cursor, done + (Flatten(t) + rest))) &&
      (k.Classified? && k.relation == CellCrosses ==> Inv(k.cursor, done, Flatten(t) + rest))
  {
    CompareMoves(c, done, t, rest);
  }

  /** An outside cell can be skipped and an inside cell bulk-added: either
      way the walk may go on past the cell's points. */
  lemma ComparePrunes(c: Cursor, done: seq<Point>, t: Tree, rest: seq<Point>)
    requires Inv(c, done, Flatten(t) + rest) && NodeOK(t, c.ranges.byteLen)
    ensures var k := CompareCell(c, t.minPacked, t.maxPacked);
      (k.Classified? && k.relation == CellOutside ==> Inv(k.cursor, done + Flatten(t), rest)) &&
      (k.Classified? && k.relation == CellInside ==>
        Inv(k.cursor.(buffer := k.cursor.buffer + DocIds(t)), done + Flatten(t), rest))
  {
    var r := c.ranges;
    var ps := Flatten(t);
    CompareMoves(c, done, t, rest);
    var s := MoveToCell(c, t.minPacked);
    if !s.stop {
      var a := s.cursor.active;
      if !WithinLowerBoundAt(r, t.maxPacked, a) {
        Skip(s.cursor, done, ps, rest);
      } else if WithinRangeAt(r, t.minPacked, a) && WithinRangeAt(r, t.maxPacked, a) {
        Bulk(s.cursor, done, ps, rest);
      }
    }
  }

  /** Regrouping a run of points split into four stretches. */
  lemma Regroup(a: seq<Point>, b: seq<Point>, c: seq<Point>, d: seq<Point>)
    ensures (b + c) + d == b + (c + d)
    ensures a + ((b + c) + d) == (a + b) + (c + d)
    ensures (a + b) + c == a + (b + c)
  {
  }

  /** Regrouping a run of points around its `k`-th point. */
  lemma RegroupAt(done: seq<Point>, ps: seq<Point>, k: nat, rest: seq<Point>)
    requires k < |ps|
    ensures ps[k..] + rest == [ps[k]] + (ps[k + 1..] + rest)
    ensures (done + ps[..k]) + ([ps[k]] + (ps[k + 1..] + rest)) == done + (ps + rest)
    ensures (done + ps[..k]) + [ps[k]] == done + ps[..k + 1]
  {
    assert ps[k..] == [ps[k]] + ps[k + 1..];
    assert ps[..k + 1] == ps[..k] + [ps[k]];
    assert ps == ps[..k] + ps[k..];
  }

  lemma {:induction false} IntersectNodeStep(w: Walk, done: seq<Point>, t: Tree, rest: seq<Point>)
    requires !w.stopped && Inv(w.cursor, done, Flatten(t) + rest)
    requires WellFormed(t, w.cursor.ranges.byteLen) && Readable(t, w.cursor.ranges.byteLen)
    ensures var w' := IntersectNode(w, t);
      (w'.stopped ==> Stopped(w'.cursor, done + (Flatten(t) + rest))) &&
      (!w'.stopped ==> Inv(w'.cursor, done + Flatten(t), rest))
    decreases t, 1, 0
  {
    CompareStep(w.cursor, done, t, rest);
    ComparePrunes(w.cursor, done, t, rest);
    var k := CompareCell(w.cursor, t.minPacked, t.maxPacked);
    if k.Classified? && k.relation == CellCrosses {
      var start := Walk(k.cursor, w.debug, false);
      if t.Leaf? {
        var ps := t.points;
        assert ps[..0] == [] && ps[0..] == ps && done + [] == done;
        VisitPointsStep(start, done, ps, 0, rest);
      } else {
        IntersectChildrenStep(start, done, t, 0, rest);
      }
    }
  }

  lemma {:induction false} IntersectChildrenStep(w: Walk, done: seq<Point>, t: Tree, k: nat, rest: seq<Point>)
    requires t.Inner? && k <= |t.children| && !w.stopped
    requires Inv(w.cursor, done, FlattenFrom(t, k) + rest)
    requires WellFormed(t, w.cursor.ranges.byteLen) && Readable(t, w.cursor.ranges.byteLen)
    ensures var w' := IntersectChildren(w, t, k);
      (w'.stopped ==> Stopped(w'.cursor, done + (FlattenFrom(t, k) + rest))) &&
      (!w'.stopped ==> Inv(w'.cursor, done + FlattenFrom(t, k), rest))
    decreases t, 0, |t.children| - k
  {
    if k == |t.children| {
      assert FlattenFrom(t, k) == [];
      assert done + [] == done && [] + rest == rest;
    } else {
      var width := w.cursor.ranges.byteLen;
      var child := t.children[k];
      var tail := FlattenFrom(t, k + 1);
      assert FlattenFrom(t, k) == Flatten(child) + tail;
      assert WellFormed(child, width) && Readable(child, width);
      Regroup(done, Flatten(child), tail, rest);
      IntersectNodeStep(w, done, child, tail + rest);
      var w2 := IntersectNode(w, child);
      if !w2.stopped {
        IntersectChildrenStep(w2, done + Flatten(child), t, k + 1, rest);
      }
    }
  }

  lemma {:induction false} VisitPointsStep(w: Walk, done: seq<Point>, ps: seq<Point>, k: nat, rest: seq<Point>)
    requires k <= |ps| && !w.stopped
    requires Inv(w.cursor, done + ps[..k], ps[k..] + rest) && AllWide(ps, w.cursor.ranges.byteLen)
    ensures var w' := VisitPoints(w, ps, k);
      (w'.stopped ==> Stopped(w'.cursor, done + (ps + rest))) &&
      (!w'.stopped ==> Inv(w'.cursor, done + ps, rest))
    decreases |ps| - k
  {
    if k == |ps| {
      assert ps[..k] == ps && ps[k..] + rest == rest;
    } else {
      RegroupAt(done, ps, k, rest);
      VisitPointStep(w.cursor, done + ps[..k], ps[k], ps[k + 1..] + rest);
      var s := VisitPoint(w.cursor, ps[k]);
      if !s.stop {
        VisitPointsStep(Walk(s.cursor, w.debug, false), done, ps, k + 1, rest);
      }
    }
  }

  /** No point of a segment whose values lie outside every range, as
      `firstRangeIndex` found, belongs to any range. */
  lemma NoRangeReachable(tree: Tree, r: Ranges, i: int)
    requires Valid(r) && SortedDisjoint(r) && NodeOK(tree, r.byteLen)
    requires FirstRangeIndex(r, tree.minPacked, tree.maxPacked) < 0
    ensures DocsIn(Flatten(tree), r, i) == []
  {
    var w := r.byteLen;
    var ps := Flatten(tree);
    forall q | 0 <= q < |ps| ensures !InRange(r, ps[q].value, i) {
      if 0 < i < r.size && LowerKey(r, 0) > Key(tree.maxPacked, w) {
        assert LowerKey(r, 0) <= UpperKey(r, 0) <= LowerKey(r, i);
      }
    }
    DocsInNone(ps, r, i);
  }

  /** The cursor as `multiRangesTraverse` seeds it satisfies the walk
      invariant with no point seen yet. */
  lemma StartInv(tree: Tree, r: Ranges, maxNonZero: int, first: int)
    requires Valid(r) && SortedDisjoint(r) && NodeOK(tree, r.byteLen)
    requires first == FirstRangeIndex(r, tree.minPacked, tree.maxPacked) && first >= 0
    ensures Inv(Cursor(r, maxNonZero, first, 0, [], []), [], Flatten(tree) + [])
  {
    var all := Flatten(tree);
    var w := r.byteLen;
    assert all + [] == all;
    forall j, k | 0 <= j < first && 0 <= k < |all| ensures UpperKey(r, j) <= Key(all[k].value, w) {
      assert Key(tree.minPacked, w) <= Key(all[k].value, w);
    }
    forall j | 0 <= j < first ensures DocsIn([], r, j) == [] {}
    ExpectedSkip([], r, 0, first);
  }

  /** A walk that saw every point without stopping: the final flush reports
      the active range, and no later range holds a point. */
  lemma FinishWalk(c: Cursor, all: seq<Point>)
    requires Inv(c, all, [])
    ensures Finalize(c).emitted == Expected(all, c.ranges, c.ranges.size)
  {
    var r := c.ranges;
    FinalizeExtends(c, all);
    ExpectedPastBehind(r, c.active, all, r.size);
  }

  /** The walk from the first reachable range, ending in the state that the
      final flush turns into the report. */
  lemma WalkFromFirst(tree: Tree, r: Ranges, maxNonZero: int, first: int)
    requires Valid(r) && SortedDisjoint(r)
    requires WellFormed(tree, r.byteLen) && Readable(tree, r.byteLen)
    requires first == FirstRangeIndex(r, tree.minPacked, tree.maxPacked) && first >= 0
    ensures var c := IntersectNode(Walk(Cursor(r, maxNonZero, first, 0, [], []), DebugCounts(0, 0), false), tree).cursor;
      exists a :: 0 <= a <= r.size && Finalize(c).emitted == Expected(Flatten(tree), r, a) &&
        (a < r.size ==> a > maxNonZero)
  {
    var all := Flatten(tree);
    StartInv(tree, r, maxNonZero, first);
    var start := Walk(Cursor(r, maxNonZero, first, 0, [], []), DebugCounts(0, 0), false);
    IntersectNodeStep(start, [], tree, []);
    var w' := IntersectNode(start, tree);
    var c := w'.cursor;
    if w'.stopped {
      assert [] + (all + []) == all;
      assert Stopped(c, all);
      assert Finalize(c).emitted == Expected(all, r, c.active);
    } else {
      assert [] + all == all;
      FinishWalk(c, all);
    }
  }

  /** The traversal agrees with the brute-force filter: what it reports is
      the reference answer for the ranges below some cut-off `a` (ascending
      ranges, each non-empty range once with exactly the doc ids of its
      points); it cuts off early only after moving on to more ranges than
      the cap allows, so with a cap of at least the number of ranges it
      reports every range. */
  lemma TraversalMatchesFilter(tree: Tree, r: Ranges, maxNonZero: int)
    requires Valid(r) && SortedDisjoint(r)
    requires WellFormed(tree, r.byteLen) && Readable(tree, r.byteLen)
    ensures var res := MultiRangesTraverse(tree, r, maxNonZero);
      (exists a :: 0 <= a <= r.size && res.emitted == Expected(Flatten(tree), r, a) &&
        (a < r.size ==> a > maxNonZero)) &&
      (maxNonZero >= r.size ==> res.emitted == Expected(Flatten(tree), r, r.size))
  {
    var all := Flatten(tree);
    var first := FirstRangeIndex(r, tree.minPacked, tree.maxPacked);
    if first < 0 {
      forall j | 0 <= j < r.size ensures DocsIn(all, r, j) == [] {
        NoRangeReachable(tree, r, j);
      }
      ExpectedSkip(all, r, 0, r.size);
      assert MultiRangesTraverse(tree, r, maxNonZero).emitted == Expected(all, r, r.size);
    } else {
      WalkFromFirst(tree, r, maxNonZero, first);
    }
  }
}
