/**
 * The 32-bit integer coercions of JavaScript numbers (ECMAScript ToInt32 and
 * ToUint32) and the two operators built on them that the mock embedding's
 * hash uses: the left shift `<<` and the bitwise and `&`.
 *
 * JavaScript numbers are doubles; every value reaching these operators in the
 * model is an integer of magnitude below 2^53, so it is represented exactly
 * by a Dafny `int`.
 */
module JsInt32 {

  const TWO_31: int := 0x8000_0000
  const TWO_32: int := 0x1_0000_0000

  const MIN_INT32: int := -TWO_31
  const MAX_INT32: int := TWO_31 - 1

  predicate InInt32(x: int) {
    MIN_INT32 <= x <= MAX_INT32
  }

  predicate InUint32(x: int) {
    0 <= x < TWO_32
  }

  /** 2^n */
  function Pow2(n: nat): nat
  {
    if n == 0 then 1 else 2 * Pow2(n - 1)
  }

  /** ECMAScript ToUint32 of an integer: the representative of x modulo 2^32 in [0, 2^32). */
  function ToUint32(x: int): (r: int)
    ensures InUint32(r)
    ensures (r - x) % TWO_32 == 0
  {
    x % TWO_32
  }

  /** ECMAScript ToInt32 of an integer: the representative of x modulo 2^32 in [-2^31, 2^31). */
  function ToInt32(x: int): (r: int)
    ensures InInt32(r)
    ensures (r - x) % TWO_32 == 0
  {
    var u := ToUint32(x);
    if u < TWO_31 then u else u - TWO_32
  }

  /** The two properties of ToInt32 determine it: it is the only int32 congruent to x. */
  lemma ToInt32Unique(x: int, r: int)
    requires InInt32(r)
    requires (r - x) % TWO_32 == 0
    ensures r == ToInt32(x)
  {
    var t := ToInt32(x);
    assert (r - t) % TWO_32 == 0 by {
      assert r - t == (r - x) - (t - x);
    }
    assert -TWO_32 < r - t < TWO_32;
  }

  /** ToInt32 only depends on its argument modulo 2^32. */
  lemma ToInt32Congruent(x: int, y: int)
    requires (x - y) % TWO_32 == 0
    ensures ToInt32(x) == ToInt32(y)
  {
    var t := ToInt32(y);
    assert (t - x) % TWO_32 == 0 by {
      assert t - x == (t - y) - (x - y);
    }
    ToInt32Unique(x, t);
  }

  /**
   * Bitwise and of the low n bits of two non-negative integers, bit by bit
   * from the least significant one.
   */
  function BitwiseAnd(a: nat, b: nat, n: nat): nat
  {
    if n == 0 then 0
    else (if a % 2 == 1 && b % 2 == 1 then 1 else 0) + 2 * BitwiseAnd(a / 2, b / 2, n - 1)
  }

  /**
   * JavaScript `x << count` on integer operands: the left operand is
   * coerced with ToInt32, the count is taken modulo 32 (ToUint32 then
   * `& 0x1F`), and the product is coerced with ToInt32.
   */
  function ShiftLeft(x: int, count: int): (r: int)
    ensures InInt32(r)
    ensures (r - x * Pow2(count % 32)) % TWO_32 == 0
  {
    var r := ToInt32(ToInt32(x) * Pow2(count % 32));
    assert (r - x * Pow2(count % 32)) % TWO_32 == 0 by {
      ShiftCongruent(x, Pow2(count % 32));
    }
    r
  }

  /** Scaling preserves congruence modulo 2^32: ToInt32(ToInt32(x) * p) is congruent to x * p. */
  lemma ShiftCongruent(x: int, p: nat)
    ensures (ToInt32(ToInt32(x) * p) - x * p) % TWO_32 == 0
  {
    var t := ToInt32(x);
    var k := (t - x) / TWO_32;
    assert t - x == k * TWO_32;
    assert t * p - x * p == (t - x) * p;
    assert t * p - x * p == (k * p) * TWO_32;
    var s := ToInt32(t * p);
    var j := (s - t * p) / TWO_32;
    assert s - t * p == j * TWO_32;
    assert s - x * p == (j + k * p) * TWO_32;
    MultipleOfModulus(j + k * p);
  }

  /** `x << 5` is congruent to 32 * x. */
  lemma ShiftLeftFive(x: int)
    ensures (ShiftLeft(x, 5) - 32 * x) % TWO_32 == 0
  {
    assert Pow2(5) == 32;
    assert 5 % 32 == 5;
  }

  lemma MultipleOfModulus(k: int)
    ensures (k * TWO_32) % TWO_32 == 0
  {
  }

  /** JavaScript `x & y` on integer operands: the bitwise and of the two 32-bit patterns, read as an int32. */
  function BitAnd(x: int, y: int): (r: int)
    ensures InInt32(r)
  {
    ToInt32(BitwiseAnd(ToUint32(x), ToUint32(y), 32))
  }

  /** Every bit of a number anded with itself is that bit. */
  lemma {:induction false} BitwiseAndSelf(a: nat, n: nat)
    requires a < Pow2(n)
    ensures BitwiseAnd(a, a, n) == a
  {
    if n > 0 {
      BitwiseAndSelf(a / 2, n - 1);
    }
  }

  lemma Pow2Of32()
    ensures Pow2(32) == TWO_32
  {
    assert Pow2(8) == 0x100;
    assert Pow2(16) == 0x1_0000;
    assert Pow2(24) == 0x100_0000;
  }

  /** `x & x` is the int32 coercion of x: the statement `hash = hash & hash` only truncates. */
  lemma BitAndSelf(x: int)
    ensures BitAnd(x, x) == ToInt32(x)
  {
    var u := ToUint32(x);
    Pow2Of32();
    BitwiseAndSelf(u, 32);
    ToInt32Congruent(u, x);
  }
}
