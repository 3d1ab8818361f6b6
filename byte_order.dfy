/** Fixed-width byte strings compared as unsigned big-endian integers,
    the order in which the point index stores a field's packed values. */
module ByteOrder {

  type Byte = b: int | 0 <= b < 256

  type Bytes = seq<Byte>

  function Pow256(n: nat): (p: nat)
    ensures p >= 1
  {
    if n == 0 then 1 else 256 * Pow256(n - 1)
  }

  function Sign(x: int): int
  {
    if x < 0 then -1 else if x > 0 then 1 else 0
  }

  /** `d` moved up by `n` byte positions, written with steps that only
      multiply by the constant 256. */
  function Shift(d: int, n: nat): (s: int)
    ensures d >= 0 ==> s >= 0
  {
    if n == 0 then d else 256 * Shift(d, n - 1)
  }

  lemma {:induction false} ShiftIsProduct(d: int, n: nat)
    ensures Shift(d, n) == d * Pow256(n)
  {
    if n > 0 {
      ShiftIsProduct(d, n - 1);
      assert d * (256 * Pow256(n - 1)) == 256 * (d * Pow256(n - 1));
    }
  }

  /** The unsigned big-endian value of the first `width` bytes of `a`
      (bytes missing past the end of `a` read as zero). */
  function Key(a: Bytes, width: nat): nat
  {
    if width == 0 then 0
    else
      var head := if |a| > 0 then a[0] else 0;
      var tail := if |a| > 0 then a[1..] else [];
      Shift(head, width - 1) + Key(tail, width - 1)
  }

  /** A value of `width` bytes is below 256 to the power `width`. */
  lemma {:induction false} KeyBound(a: Bytes, width: nat)
    ensures Key(a, width) < Pow256(width)
  {
    if width > 0 {
      var head := if |a| > 0 then a[0] else 0;
      var tail := if |a| > 0 then a[1..] else [];
      KeyBound(tail, width - 1);
      ShiftIsProduct(head, width - 1);
      DigitBound(head, Key(tail, width - 1), Pow256(width - 1));
    }
  }

  /** Unsigned lexicographic comparison of the first `width` bytes of two
      packed values; the sign of the result agrees with the order of their
      big-endian values. */
  function Compare(a: Bytes, b: Bytes, width: nat): (c: int)
    requires width <= |a| && width <= |b|
    ensures c == Sign(Key(a, width) - Key(b, width))
  {
    if width == 0 then 0
    else if a[0] < b[0] then
      HeadDecides(a, b, width);
      -1
    else if a[0] > b[0] then
      HeadDecides(b, a, width);
      1
    else
      Compare(a[1..], b[1..], width - 1)
  }

  /** A smaller leading byte makes the whole value smaller, whatever follows. */
  lemma HeadDecides(a: Bytes, b: Bytes, width: nat)
    requires 0 < width <= |a| && width <= |b|
    requires a[0] < b[0]
    ensures Key(a, width) < Key(b, width)
  {
    var p := Pow256(width - 1);
    ShiftIsProduct(a[0], width - 1);
    ShiftIsProduct(b[0], width - 1);
    KeyBound(a[1..], width - 1);
    DigitOrder(a[0], b[0], Key(a[1..], width - 1), Key(b[1..], width - 1), p);
  }

  /** One more leading digit in base 256 stays below the next power. */
  lemma DigitBound(d: int, rest: nat, p: nat)
    requires 0 <= d < 256 && rest < p
    ensures d * p + rest < 256 * p
  {
    MulMono(d + 1, 256, p);
  }

  /** The leading digit decides the order of two numbers in base 256. */
  lemma DigitOrder(d: int, e: int, x: nat, y: nat, p: nat)
    requires 0 <= d < e && x < p
    ensures d * p + x < e * p + y
  {
    MulMono(d + 1, e, p);
  }

  lemma MulMono(x: int, y: int, p: nat)
    requires x <= y
    ensures x * p <= y * p
  {
    var k := y - x;
    assert y * p == x * p + k * p;
  }

  /** Two values compare equal exactly when their first `width` bytes agree. */
  lemma {:induction false} EqualKeysIffSamePrefix(a: Bytes, b: Bytes, width: nat)
    requires width <= |a| && width <= |b|
    ensures Key(a, width) == Key(b, width) <==> a[..width] == b[..width]
  {
    if width > 0 {
      if a[0] != b[0] {
        DifferentHeads(a, b, width);
      } else {
        EqualKeysIffSamePrefix(a[1..], b[1..], width - 1);
        SameHead(a, b, width);
      }
    }
  }

  lemma DifferentHeads(a: Bytes, b: Bytes, width: nat)
    requires 0 < width <= |a| && width <= |b| && a[0] != b[0]
    ensures Key(a, width) != Key(b, width) && a[..width] != b[..width]
  {
    assert a[..width][0] != b[..width][0];
    if a[0] < b[0] {
      HeadDecides(a, b, width);
    } else {
      HeadDecides(b, a, width);
    }
  }

  lemma SameHead(a: Bytes, b: Bytes, width: nat)
    requires 0 < width <= |a| && width <= |b| && a[0] == b[0]
    ensures Key(a, width) - Key(b, width) == Key(a[1..], width - 1) - Key(b[1..], width - 1)
    ensures a[..width] == b[..width] <==> a[1..][..width - 1] == b[1..][..width - 1]
  {
    var h := Shift(a[0], width - 1);
    assert Key(a, width) == h + Key(a[1..], width - 1);
    assert Key(b, width) == h + Key(b[1..], width - 1);
    SamePrefixTail(a, b, width);
  }

  lemma SamePrefixTail(a: Bytes, b: Bytes, width: nat)
    requires 0 < width <= |a| && width <= |b| && a[0] == b[0]
    ensures a[..width] == b[..width] <==> a[1..][..width - 1] == b[1..][..width - 1]
  {
    assert a[..width] == [a[0]] + a[1..][..width - 1];
    assert b[..width] == [b[0]] + b[1..][..width - 1];
  }
}
