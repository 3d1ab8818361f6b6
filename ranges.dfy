/** The immutable range list of the filter-rewrite fast path: parallel lists of
    inclusive lower and exclusive upper bounds, all packed to one byte width. */
module PackedRanges {

  import opened ByteOrder
  import opened Options

  datatype Ranges = Ranges(lowers: seq<Bytes>, uppers: seq<Bytes>, size: nat, byteLen: nat)

  /** Construction: the two lists must pair up, and the first lower bound
      fixes the byte width used by every comparison. */
  function NewRanges(lowers: seq<Bytes>, uppers: seq<Bytes>): (r: Option<Ranges>)
    ensures r.Some? <==> |lowers| == |uppers| && |lowers| > 0
    ensures r.Some? ==> r.value.size == |lowers| && r.value.byteLen == |lowers[0]|
    ensures r.Some? ==> r.value.lowers == lowers && r.value.uppers == uppers
  {
    if |lowers| != |uppers| || |lowers| == 0 then None
    else Some(Ranges(lowers, uppers, |lowers|, |lowers[0]|))
  }

  /** Every bound can be read at the range list's byte width. */
  predicate Valid(r: Ranges)
  {
    r.size == |r.lowers| == |r.uppers| && r.size > 0 &&
    (forall i :: 0 <= i < r.size ==> r.byteLen <= |r.lowers[i]| && r.byteLen <= |r.uppers[i]|)
  }

  /** A constructed range list whose bounds all share the first bound's width is valid. */
  lemma NewRangesValid(lowers: seq<Bytes>, uppers: seq<Bytes>)
    requires |lowers| == |uppers| > 0
    requires forall i :: 0 <= i < |lowers| ==> |lowers[i]| == |uppers[i]| == |lowers[0]|
    ensures NewRanges(lowers, uppers).Some? && Valid(NewRanges(lowers, uppers).value)
  {
  }

  function LowerKey(r: Ranges, i: int): nat
    requires Valid(r) && 0 <= i < r.size
  {
    Key(r.lowers[i], r.byteLen)
  }

  function UpperKey(r: Ranges, i: int): nat
    requires Valid(r) && 0 <= i < r.size
  {
    Key(r.uppers[i], r.byteLen)
  }

  /** The meaning of range `i`: the unsigned big-endian values v with lower <= v < upper. */
  predicate InRange(r: Ranges, v: Bytes, i: int)
    requires Valid(r)
  {
    0 <= i < r.size && LowerKey(r, i) <= Key(v, r.byteLen) < UpperKey(r, i)
  }

  /** The shape the aggregations promise: each range is well ordered and ends
      at or before the next one begins. */
  ghost predicate AdjacentOrdered(r: Ranges)
    requires Valid(r)
  {
    (forall i :: 0 <= i < r.size ==> LowerKey(r, i) <= UpperKey(r, i)) &&
    (forall i, j :: 0 <= i && j == i + 1 && j < r.size ==> UpperKey(r, i) <= LowerKey(r, j))
  }

  /** Pairwise form of the same promise, as the traversal uses it. */
  ghost predicate SortedDisjoint(r: Ranges)
    requires Valid(r)
  {
    (forall i :: 0 <= i < r.size ==> LowerKey(r, i) <= UpperKey(r, i)) &&
    (forall i, j :: 0 <= i < j < r.size ==> UpperKey(r, i) <= LowerKey(r, j))
  }

  lemma {:induction false} AdjacentOrderedIsSortedDisjoint(r: Ranges)
    requires Valid(r) && AdjacentOrdered(r)
    ensures SortedDisjoint(r)
  {
    forall i, j | 0 <= i < j < r.size
      ensures UpperKey(r, i) <= LowerKey(r, j)
    {
      UpperBelowLaterLower(r, i, j);
    }
  }

  lemma {:induction false} UpperBelowLaterLower(r: Ranges, i: int, j: int)
    requires Valid(r) && AdjacentOrdered(r) && 0 <= i < j < r.size
    ensures UpperKey(r, i) <= LowerKey(r, j)
    decreases j - i
  {
    if i + 1 < j {
      UpperBelowLaterLower(r, i + 1, j);
      assert LowerKey(r, i + 1) <= UpperKey(r, i + 1);
    }
  }

  /** `compareByteValue(value, lowerBound) >= 0`: the lower bound is inclusive. */
  function WithinLowerBound(value: Bytes, lowerBound: Bytes, byteLen: nat): (b: bool)
    requires byteLen <= |value| && byteLen <= |lowerBound|
    ensures b <==> Key(value, byteLen) >= Key(lowerBound, byteLen)
  {
    Compare(value, lowerBound, byteLen) >= 0
  }

  /** `compareByteValue(value, upperBound) < 0`: the upper bound is exclusive. */
  function WithinUpperBound(value: Bytes, upperBound: Bytes, byteLen: nat): (b: bool)
    requires byteLen <= |value| && byteLen <= |upperBound|
    ensures b <==> Key(value, byteLen) < Key(upperBound, byteLen)
  {
    Compare(value, upperBound, byteLen) < 0
  }

  function WithinLowerBoundAt(r: Ranges, value: Bytes, idx: int): (b: bool)
    requires Valid(r) && 0 <= idx < r.size && r.byteLen <= |value|
    ensures b <==> Key(value, r.byteLen) >= LowerKey(r, idx)
  {
    WithinLowerBound(value, r.lowers[idx], r.byteLen)
  }

  function WithinUpperBoundAt(r: Ranges, value: Bytes, idx: int): (b: bool)
    requires Valid(r) && 0 <= idx < r.size && r.byteLen <= |value|
    ensures b <==> Key(value, r.byteLen) < UpperKey(r, idx)
  {
    WithinUpperBound(value, r.uppers[idx], r.byteLen)
  }

  /** Membership test of the source: both bound checks at the same index. */
  function WithinRangeAt(r: Ranges, value: Bytes, idx: int): (b: bool)
    requires Valid(r) && 0 <= idx < r.size && r.byteLen <= |value|
    ensures b <==> InRange(r, value, idx)
    ensures b <==> WithinLowerBoundAt(r, value, idx) && WithinUpperBoundAt(r, value, idx)
  {
    WithinLowerBoundAt(r, value, idx) && WithinUpperBoundAt(r, value, idx)
  }

  /** The first range that can hold a value of a segment whose values lie in
      [globalMin, globalMax], or -1 when none can. */
  function FirstRangeIndex(r: Ranges, globalMin: Bytes, globalMax: Bytes): (idx: int)
    requires Valid(r) && r.byteLen <= |globalMin| && r.byteLen <= |globalMax|
    ensures -1 <= idx < r.size
    ensures LowerKey(r, 0) > Key(globalMax, r.byteLen) ==> idx == -1
    ensures idx >= 0 <==>
      LowerKey(r, 0) <= Key(globalMax, r.byteLen) &&
      exists i :: 0 <= i < r.size && UpperKey(r, i) > Key(globalMin, r.byteLen)
    ensures idx >= 0 ==>
      UpperKey(r, idx) > Key(globalMin, r.byteLen) &&
      forall j :: 0 <= j < idx ==> UpperKey(r, j) <= Key(globalMin, r.byteLen)
  {
    if Compare(r.lowers[0], globalMax, r.byteLen) > 0 then -1
    else FirstUpperAbove(r, globalMin, 0)
  }

  /** The scan of `firstRangeIndex` from index `i` on. */
  function FirstUpperAbove(r: Ranges, globalMin: Bytes, i: nat): (idx: int)
    requires Valid(r) && r.byteLen <= |globalMin| && i < r.size
    requires forall j :: 0 <= j < i ==> UpperKey(r, j) <= Key(globalMin, r.byteLen)
    ensures idx == -1 || i <= idx < r.size
    ensures idx == -1 <==> forall j :: 0 <= j < r.size ==> UpperKey(r, j) <= Key(globalMin, r.byteLen)
    ensures idx >= 0 ==>
      UpperKey(r, idx) > Key(globalMin, r.byteLen) &&
      forall j :: 0 <= j < idx ==> UpperKey(r, j) <= Key(globalMin, r.byteLen)
    decreases r.size - i
  {
    if Compare(r.uppers[i], globalMin, r.byteLen) > 0 then i
    else if i + 1 >= r.size then -1
    else FirstUpperAbove(r, globalMin, i + 1)
  }

  /** `firstRangeIndex` as the source runs it: a guard on the first lower
      bound, then a counter walked forward over the upper bounds. */
  method ComputeFirstRangeIndex(r: Ranges, globalMin: Bytes, globalMax: Bytes) returns (idx: int)
    requires Valid(r) && r.byteLen <= |globalMin| && r.byteLen <= |globalMax|
    ensures idx == FirstRangeIndex(r, globalMin, globalMax)
    ensures idx == -1 || 0 <= idx < r.size
  {
    if Compare(r.lowers[0], globalMax, r.byteLen) > 0 {
      return -1;
    }
    var i := 0;
    while Compare(r.uppers[i], globalMin, r.byteLen) <= 0
      invariant 0 <= i < r.size
      invariant forall j :: 0 <= j < i ==> UpperKey(r, j) <= Key(globalMin, r.byteLen)
      invariant FirstUpperAbove(r, globalMin, i) == FirstUpperAbove(r, globalMin, 0)
      decreases r.size - i
    {
      i := i + 1;
      if i >= r.size {
        return -1;
      }
    }
    return i;
  }
}
