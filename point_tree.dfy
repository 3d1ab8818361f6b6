/** The per-segment point index as the traversal sees it: every node knows the
    smallest and largest packed value below it, and a leaf lists its
    (value, doc id) pairs in ascending value order. */
module PointTree {

  import opened ByteOrder
  import opened PackedRanges

  datatype Point = Point(value: Bytes, doc: int)

  datatype Tree =
    | Leaf(minPacked: Bytes, maxPacked: Bytes, points: seq<Point>)
    | Inner(minPacked: Bytes, maxPacked: Bytes, children: seq<Tree>)

  /** The points below a node, in the order a depth-first walk meets them. */
  function Flatten(t: Tree): seq<Point>
    decreases t, 1, 0
  {
    match t
    case Leaf(_, _, ps) => ps
    case Inner(_, _, _) => FlattenFrom(t, 0)
  }

  /** The points below children `k..` of an inner node. */
  function FlattenFrom(t: Tree, k: nat): seq<Point>
    requires t.Inner? && k <= |t.children|
    decreases t, 0, |t.children| - k
  {
    if k == |t.children| then [] else Flatten(t.children[k]) + FlattenFrom(t, k + 1)
  }

  function Docs(ps: seq<Point>): (ds: seq<int>)
    ensures |ds| == |ps|
  {
    if ps == [] then [] else [ps[0].doc] + Docs(ps[1..])
  }

  /** The doc ids an "inside" cell hands over in bulk. */
  function DocIds(t: Tree): seq<int>
  {
    Docs(Flatten(t))
  }

  ghost predicate AllWide(ps: seq<Point>, width: nat)
  {
    forall k :: 0 <= k < |ps| ==> width <= |ps[k].value|
  }

  ghost predicate Sorted(ps: seq<Point>, width: nat)
  {
    forall k, l :: 0 <= k < l < |ps| ==> Key(ps[k].value, width) <= Key(ps[l].value, width)
  }

  /** What the point index guarantees of one node: readable bounds that
      enclose its points, at least one point, and ascending order. */
  ghost predicate NodeOK(t: Tree, width: nat)
  {
    var ps := Flatten(t);
    width <= |t.minPacked| && width <= |t.maxPacked| &&
    ps != [] && AllWide(ps, width) && Sorted(ps, width) &&
    forall k :: 0 <= k < |ps| ==>
      Key(t.minPacked, width) <= Key(ps[k].value, width) <= Key(t.maxPacked, width)
  }

  ghost predicate WellFormed(t: Tree, width: nat)
    decreases t
  {
    NodeOK(t, width) &&
    (t.Inner? ==> forall k :: 0 <= k < |t.children| ==> WellFormed(t.children[k], width))
  }

  /** Every packed value of a node (bounds and points) can be read at `width`;
      this much is needed just to run the traversal. */
  ghost predicate Readable(t: Tree, width: nat)
    decreases t
  {
    width <= |t.minPacked| && width <= |t.maxPacked| &&
    match t
    case Leaf(_, _, ps) => AllWide(ps, width)
    case Inner(_, _, cs) => forall k :: 0 <= k < |cs| ==> Readable(cs[k], width)
  }

  lemma {:induction false} WellFormedIsReadable(t: Tree, width: nat)
    requires WellFormed(t, width)
    ensures Readable(t, width)
    decreases t
  {
    if t.Inner? {
      forall k | 0 <= k < |t.children|
        ensures Readable(t.children[k], width)
      {
        WellFormedIsReadable(t.children[k], width);
      }
    }
  }

  /** The brute-force oracle: the doc ids, in order, of the points whose value
      lies in range `i`. */
  function DocsIn(ps: seq<Point>, r: Ranges, i: int): seq<int>
    requires Valid(r)
  {
    if ps == [] then []
    else (if InRange(r, ps[0].value, i) then [ps[0].doc] else []) + DocsIn(ps[1..], r, i)
  }

  lemma {:induction false} DocsInAppend(a: seq<Point>, b: seq<Point>, r: Ranges, i: int)
    requires Valid(r)
    ensures DocsIn(a + b, r, i) == DocsIn(a, r, i) + DocsIn(b, r, i)
  {
    if a == [] {
      assert a + b == b;
    } else {
      assert (a + b)[0] == a[0];
      assert (a + b)[1..] == a[1..] + b;
      DocsInAppend(a[1..], b, r, i);
    }
  }

  lemma {:induction false} DocsAppend(a: seq<Point>, b: seq<Point>)
    ensures Docs(a + b) == Docs(a) + Docs(b)
  {
    if a == [] {
      assert a + b == b;
    } else {
      assert (a + b)[0] == a[0];
      assert (a + b)[1..] == a[1..] + b;
      DocsAppend(a[1..], b);
    }
  }

  /** A stretch of points none of which lies in range `i` adds nothing to it. */
  lemma {:induction false} DocsInNone(ps: seq<Point>, r: Ranges, i: int)
    requires Valid(r)
    requires forall k :: 0 <= k < |ps| ==> !InRange(r, ps[k].value, i)
    ensures DocsIn(ps, r, i) == []
  {
    if ps != [] {
      DocsInNone(ps[1..], r, i);
    }
  }

  /** A stretch of points that all lie in range `i` contributes all its doc ids. */
  lemma {:induction false} DocsInAll(ps: seq<Point>, r: Ranges, i: int)
    requires Valid(r)
    requires forall k :: 0 <= k < |ps| ==> InRange(r, ps[k].value, i)
    ensures DocsIn(ps, r, i) == Docs(ps)
  {
    if ps != [] {
      DocsInAll(ps[1..], r, i);
    }
  }

  lemma SortedSuffix(a: seq<Point>, b: seq<Point>, width: nat)
    requires Sorted(a + b, width)
    ensures Sorted(b, width) && Sorted(a, width)
  {
    forall k, l | 0 <= k < l < |b|
      ensures Key(b[k].value, width) <= Key(b[l].value, width)
    {
      assert b[k] == (a + b)[|a| + k] && b[l] == (a + b)[|a| + l];
    }
    forall k, l | 0 <= k < l < |a|
      ensures Key(a[k].value, width) <= Key(a[l].value, width)
    {
      assert a[k] == (a + b)[k] && a[l] == (a + b)[l];
    }
  }
}
