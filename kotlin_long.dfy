/**
  Kotlin's `Long`: a 64-bit two's-complement integer. Addition on it wraps
  around silently, which is what `timeState.value!! + time` in `addTime` does.
 */
module KotlinLong {

  const TwoTo64: int := 0x1_0000_0000_0000_0000
  const MinValue: int := -0x8000_0000_0000_0000
  const MaxValue: int := 0x7fff_ffff_ffff_ffff

  newtype Long = x: int | -0x8000_0000_0000_0000 <= x < 0x8000_0000_0000_0000

  predicate InRange(x: int) {
    MinValue <= x <= MaxValue
  }

  /** x and y denote the same 64-bit pattern. */
  predicate SameBits(x: int, y: int) {
    (x - y) % TwoTo64 == 0
  }

  /** The unique `Long` whose bit pattern is that of the mathematical integer x. */
  function Wrap(x: int): (r: Long)
    ensures SameBits(r as int, x)
    ensures InRange(x) ==> r as int == x
  {
    var k := (x - MinValue) / TwoTo64;
    (x - k * TwoTo64) as Long
  }

  /** Two `Long`s with the same bit pattern are equal: `Wrap` is the only choice. */
  lemma WrapUnique(x: int, r: Long)
    requires SameBits(r as int, x)
    ensures r == Wrap(x)
  {
    var w := Wrap(x);
    var d := r as int - w as int;
    assert -TwoTo64 < d < TwoTo64;
    assert d % TwoTo64 == 0 by {
      SameBitsTransitive(r as int, x, w as int);
    }
  }

  lemma SameBitsTransitive(x: int, y: int, z: int)
    requires SameBits(x, y) && SameBits(z, y)
    ensures SameBits(x, z)
  {
    var i := (x - y) / TwoTo64;
    var j := (z - y) / TwoTo64;
    assert x - z == (i - j) * TwoTo64;
  }

  /** Kotlin's `a + b` on `Long`. */
  function Plus(a: Long, b: Long): (r: Long)
    ensures SameBits(r as int, a as int + b as int)
    ensures InRange(a as int + b as int) ==> r as int == a as int + b as int
  {
    Wrap(a as int + b as int)
  }

  /** Kotlin's unary `-a` on `Long`: `-Long.MIN_VALUE` is `Long.MIN_VALUE`. */
  function Negate(a: Long): (r: Long)
    ensures SameBits(r as int + a as int, 0)
    ensures a as int != MinValue ==> r as int == -(a as int)
  {
    Wrap(-(a as int))
  }

  /** Adding d and then its negation gives back a, overflow or not. */
  lemma {:induction false} PlusNegateCancels(a: Long, d: Long)
    ensures Plus(Plus(a, d), Negate(d)) == a
  {
    var x := Plus(a, d);
    var n := Negate(d);
    var i := (x as int - (a as int + d as int)) / TwoTo64;
    var j := (n as int + d as int) / TwoTo64;
    assert a as int - (x as int + n as int) == -(i + j) * TwoTo64;
    WrapUnique(x as int + n as int, a);
  }

  /** Two wrapping additions in a row are one wrapping addition of the sum. */
  lemma {:induction false} PlusAssociative(a: Long, b: Long, c: Long)
    ensures Plus(Plus(a, b), c) == Plus(a, Plus(b, c))
  {
    var ab := Plus(a, b);
    var bc := Plus(b, c);
    var r := Plus(ab, c);
    var i := (ab as int - (a as int + b as int)) / TwoTo64;
    var j := (bc as int - (b as int + c as int)) / TwoTo64;
    var k := (r as int - (ab as int + c as int)) / TwoTo64;
    assert r as int - (a as int + bc as int) == (i + k - j) * TwoTo64;
    WrapUnique(a as int + bc as int, r);
  }

  /** Kotlin's `x.coerceAtLeast(m)`: the larger of the two. */
  function CoerceAtLeast(x: Long, m: Long): (r: Long)
    ensures r >= x && r >= m
    ensures r == x || r == m
  {
    if x < m then m else x
  }
}
