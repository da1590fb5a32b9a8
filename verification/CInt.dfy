/** The C integer types of the program, written out over unbounded integers:
    `long` (64 bits, two's complement), `unsigned long` and `uint32_t`. */
module CInt {
  const LONG_MAX: int := 0x7fff_ffff_ffff_ffff
  const LONG_MIN: int := -0x8000_0000_0000_0000
  const TWO_64: int := 0x1_0000_0000_0000_0000
  const TWO_32: int := 0x1_0000_0000

  type Byte = b: int | 0 <= b < 256

  /** The value a `long` holds after an addition whose exact result is `x`. */
  function WrapLong(x: int): (r: int)
    ensures LONG_MIN <= r <= LONG_MAX
    ensures LONG_MIN <= x <= LONG_MAX ==> r == x
    ensures LONG_MAX < x <= LONG_MAX + LONG_MAX ==> r < 0
  {
    var m := x % TWO_64;
    if m > LONG_MAX then m - TWO_64 else m
  }

  /** What a `uint32_t` holds of the non-negative number `x`. The literal is
      TWO_32, written out because that keeps the proofs about it cheap. */
  function U32(x: nat): nat {
    if x < 0x1_0000_0000 then x else U32(x - 0x1_0000_0000)
  }

  lemma {:induction false} U32IsRemainder(x: nat)
    ensures U32(x) == x % TWO_32
  {
    if x >= TWO_32 {
      U32IsRemainder(x - TWO_32);
    }
  }

  lemma U32WrapsOnce(x: nat)
    requires TWO_32 <= x < 2 * TWO_32
    ensures U32(x) == x - TWO_32
  {
  }

  lemma {:induction false} U32Add(a: nat, b: nat)
    ensures U32(U32(a) + b) == U32(a + b)
  {
    if a >= TWO_32 {
      U32Add(a - TWO_32, b);
    }
  }

  function Min(a: int, b: int): int {
    if a <= b then a else b
  }

  /** The sequence 0, 1, ..., n - 1. */
  function Iota(n: nat): (s: seq<nat>)
    ensures |s| == n && forall i :: 0 <= i < n ==> s[i] == i
  {
    seq(n, i => i)
  }
}
