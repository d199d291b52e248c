/** The fixed-width integers of the C# source, written out over Dafny's unbounded `int`. */
module Ints {

  const INT32_MIN: int := -0x8000_0000
  const INT32_MAX: int := 0x7FFF_FFFF
  const INT64_MIN: int := -0x8000_0000_0000_0000
  const INT64_MAX: int := 0x7FFF_FFFF_FFFF_FFFF

  /** C# `int`. */
  type Int32 = x: int | INT32_MIN <= x <= INT32_MAX

  /** C# `long`. */
  type Int64 = x: int | INT64_MIN <= x <= INT64_MAX

  /** C# `byte`. */
  newtype byte = x: int | 0 <= x < 256

  /** Two's-complement wrap-around of an unchecked 64-bit result. */
  function Wrap64(x: int): (r: Int64)
    ensures INT64_MIN <= x <= INT64_MAX ==> r == x
  {
    (x - INT64_MIN) % 0x1_0000_0000_0000_0000 + INT64_MIN
  }

  const TwoTo64: int := 0x1_0000_0000_0000_0000

  /** The wrapped value is the exact one less a whole number of 2^64 turns. */
  lemma {:induction false} WrapTurns(x: int)
    ensures Wrap64(x) == x - ((x - INT64_MIN) / TwoTo64) * TwoTo64
  {
  }

  /** Whole turns of 2^64 do not change the wrapped value. */
  lemma {:induction false} WrapShift(x: int, j: int)
    ensures Wrap64(x + j * TwoTo64) == Wrap64(x)
  {
    var q := (x - INT64_MIN) / TwoTo64;
    var r := (x - INT64_MIN) % TwoTo64;
    assert x + j * TwoTo64 - INT64_MIN == (q + j) * TwoTo64 + r;
  }

  /** Wrapping after every factor of a product is the same as wrapping once at the end. */
  lemma {:induction false} WrapMul(a: int, b: int)
    ensures Wrap64(Wrap64(a) * b) == Wrap64(a * b)
  {
    var k := -((a - INT64_MIN) / TwoTo64);
    WrapTurns(a);
    var w := Wrap64(a);
    assert w == a + k * TwoTo64;
    calc {
      w * b;
      (a + k * TwoTo64) * b;
      a * b + (k * TwoTo64) * b;
      { assert (k * TwoTo64) * b == (k * b) * TwoTo64; }
      a * b + (k * b) * TwoTo64;
    }
    WrapShift(a * b, k * b);
  }

  /** The unchecked `(ushort)` cast of an `int`. */
  function AsUInt16(x: Int32): (r: nat)
    ensures r < 0x1_0000 && (r - x) % 0x1_0000 == 0
    ensures 0 <= x < 0x1_0000 ==> r == x
  {
    x % 0x1_0000
  }

  function Min(a: int, b: int): (r: int)
    ensures r <= a && r <= b && (r == a || r == b)
  {
    if a <= b then a else b
  }
}
